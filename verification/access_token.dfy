/**
 * The AccessToken plugin: a repository's `accesstoken` locator names a JSON
 * resource holding `token` and `token_id`, sent as an access-token header and
 * a referer header. It applies to every repository, local or not.
 */
module AccessToken {
  import opened Optional
  import opened Tokens
  import Headers
  import Plugin

  const TokenField := "token"
  const TokenIdField := "token_id"

  /**
   * The decision for one repository, given what fetching its locator returned.
   * The fetch result is consulted only when a locator is configured.
   */
  function Config(repo: Repo, fetched: FetchResult): (r: Outcome)
    ensures !r.ReadError?
    ensures r.NoOp? <==> !Enabled(repo.accesstoken) || fetched.NotFound?
    ensures r.InvalidToken? <==>
              Enabled(repo.accesstoken) && !fetched.NotFound? && !HasFields(fetched, [TokenField, TokenIdField])
    ensures r.SetHeaders? ==>
              && HasFields(fetched, [TokenField, TokenIdField])
              && r.headers == [Headers.Format(Headers.AccessTokenName, fetched.fields[TokenField]),
                               Headers.Format(Headers.RefererName, fetched.fields[TokenIdField])]
  {
    if !Enabled(repo.accesstoken) then NoOp
    else
      match fetched
      case NotFound => NoOp
      case Raw(_) => InvalidToken
      case Object(fields) =>
        if TokenField in fields && TokenIdField in fields then
          SetHeaders([Headers.Format(Headers.AccessTokenName, fields[TokenField]),
                      Headers.Format(Headers.RefererName, fields[TokenIdField])])
        else InvalidToken
  }

  /** Read back, the two headers carry the token and its id under their names, in that order. */
  lemma HeadersDecode(repo: Repo, fetched: FetchResult)
    ensures var r := Config(repo, fetched);
            r.SetHeaders? ==>
            var hs := r.headers;
            && |hs| == 2
            && Headers.Split(hs[0]) == Some((Headers.AccessTokenName, fetched.fields[TokenField]))
            && Headers.Split(hs[1]) == Some((Headers.RefererName, fetched.fields[TokenIdField]))
  {
    if Config(repo, fetched).SetHeaders? {
      Headers.SplitFormat(Headers.AccessTokenName, fetched.fields[TokenField]);
      Headers.SplitFormat(Headers.RefererName, fetched.fields[TokenIdField]);
    }
  }

  /** The two header strings, spelled out; the locator's value and the base addresses play no part. */
  lemma HeaderText(repo: Repo, fields: map<string, string>)
    ensures Enabled(repo.accesstoken) && TokenField in fields && TokenIdField in fields ==>
            Config(repo, Object(fields))
            == SetHeaders(["X-Access-Token:" + fields[TokenField], "Referer:" + fields[TokenIdField]])
  {
    if TokenField in fields && TokenIdField in fields {
      var token, tokenId := fields[TokenField], fields[TokenIdField];
      assert Headers.Format(Headers.AccessTokenName, token) == "X-Access-Token:" + token;
      assert Headers.Format(Headers.RefererName, tokenId) == "Referer:" + tokenId;
    }
  }

  /** The decision does not depend on the repository's base addresses. */
  lemma NoLocalityGate(repo: Repo, fetched: FetchResult, baseurl: Option<seq<string>>)
    ensures Config(repo.(baseurl := baseurl), fetched) == Config(repo, fetched)
  {
  }

  /**
   * The plugin's pass over the host's repositories; `fetch` stands for
   * fetching whatever a repository's `accesstoken` attribute holds.
   */
  function ConfigAll(entries: seq<Plugin.Entry>, fetch: Setting -> FetchResult): (r: Plugin.Run)
    ensures r.Aborted? ==> r.cause == InvalidToken
    ensures r.Completed? <==>
              forall i :: 0 <= i < |entries| ==> !Config(entries[i].repo, fetch(entries[i].repo.accesstoken)).IsError()
  {
    var decide := (repo: Repo) => Config(repo, fetch(repo.accesstoken));
    var r := Plugin.RunAll(entries, decide);
    assert r.Aborted? ==> r.cause == InvalidToken by {
      if r.Aborted? {
        var k :| Plugin.FirstFailure(entries, decide, k) && r.cause == decide(entries[k].repo);
        assert r.cause == Config(entries[k].repo, fetch(entries[k].repo.accesstoken));
      }
    }
    r
  }
}
