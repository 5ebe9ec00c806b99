/**
 * The data the three token plugins read and produce: a repository's token
 * configuration, the abstract result of fetching a token, and the decision a
 * plugin takes for one repository.
 */
module Tokens {
  import opened Optional

  /**
   * One token-configuration attribute of a repository. The host leaves it
   * unset (None), or sets a boolean flag, or a locator string; which of these
   * an attribute may hold depends on the plugin that reads it.
   */
  datatype Setting = Unset | Flag(on: bool) | Locator(url: string)

  /**
   * Whether a setting switches its plugin on, by Python truthiness: the falsy
   * values None, False and "" are exactly the ones that do not.
   */
  predicate Enabled(s: Setting): (r: bool)
    ensures !r <==> s in {Unset, Flag(false), Locator("")}
  {
    match s
    case Unset => false
    case Flag(on) => on
    case Locator(url) => url != ""
  }

  /** What the token plugins see of a repository. */
  datatype Repo = Repo(
    accesstoken: Setting,
    ptoken: Setting,
    xapitoken: Setting,
    baseurl: Option<seq<string>>)

  /** A repository with no token attribute set and no base address. */
  const Bare := Repo(Unset, Unset, Unset, None)

  /**
   * The result of fetching a token locator: the resource is missing or
   * unreachable, or it was read and is either a JSON object (given by its
   * string fields) or some other text.
   */
  datatype FetchResult = NotFound | Raw(text: string) | Object(fields: map<string, string>)

  /** The result of reading the local credential file. */
  datatype ReadResult = Unreadable | Content(text: string)

  /** What one plugin does to one repository. */
  datatype Outcome =
    | NoOp                              // the header-setting operation is not invoked at all
    | SetHeaders(headers: seq<string>)  // it is invoked once, with exactly this list
    | InvalidToken                      // fetched content lacks a required field; raised to the host
    | ReadError                         // the local credential file could not be read; raised to the host
  {
    predicate IsError()
    {
      InvalidToken? || ReadError?
    }
  }

  /** Whether a fetched resource is a JSON object holding every field in `keys`. */
  predicate HasFields(fetched: FetchResult, keys: seq<string>)
  {
    fetched.Object? && forall k :: k in keys ==> k in fetched.fields
  }
}
