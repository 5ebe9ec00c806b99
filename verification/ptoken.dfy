/**
 * The Ptoken plugin: on a local repository whose `ptoken` flag is set, the
 * pool secret read from the local credential file is sent as a cookie. The
 * credential file is read once, before any repository is looked at, and a
 * failure to read it is raised rather than ignored.
 */
module Ptoken {
  import opened Optional
  import opened Tokens
  import Headers
  import Locality
  import Plugin

  const PoolSecretKey := "pool_secret"

  /** Whether the plugin applies to `repo`: the flag is on and some base address is local. */
  predicate Applies(repo: Repo): (r: bool)
    ensures !Enabled(repo.ptoken) || repo.baseurl.None? ==> !r
    ensures r <==> Enabled(repo.ptoken)
                   && repo.baseurl.Some?
                   && exists i :: 0 <= i < |repo.baseurl.value| && Locality.IsLocalUrl(repo.baseurl.value[i])
  {
    Enabled(repo.ptoken) && Locality.IsLocalRepo(repo.baseurl)
  }

  /** The decision for one repository, given the result of reading the credential file. */
  function Config(repo: Repo, read: ReadResult): (r: Outcome)
    ensures !r.InvalidToken?
    ensures r.ReadError? <==> read.Unreadable?
    ensures r.SetHeaders? <==> read.Content? && Applies(repo)
    ensures r.SetHeaders? ==> r.headers == [Headers.Format(Headers.CookieName, Headers.Cookie(PoolSecretKey, read.text))]
  {
    match read
    case Unreadable => ReadError
    case Content(secret) =>
      if Applies(repo) then
        SetHeaders([Headers.Format(Headers.CookieName, Headers.Cookie(PoolSecretKey, secret))])
      else NoOp
  }

  /** Read back, the one header is the cookie carrying the pool secret. */
  lemma HeadersDecode(repo: Repo, read: ReadResult)
    ensures var r := Config(repo, read);
            r.SetHeaders? ==>
            var hs := r.headers;
            |hs| == 1 && Headers.Split(hs[0]) == Some((Headers.CookieName, Headers.Cookie(PoolSecretKey, read.text)))
  {
    if Config(repo, read).SetHeaders? {
      Headers.SplitFormat(Headers.CookieName, Headers.Cookie(PoolSecretKey, read.text));
    }
  }

  /** The cookie header, spelled out. */
  lemma HeaderText(repo: Repo, secret: string)
    ensures Applies(repo) ==> Config(repo, Content(secret)) == SetHeaders(["cookie:pool_secret=" + secret])
  {
    var value := Headers.Cookie(PoolSecretKey, secret);
    assert value == "pool_secret=" + secret;
    assert Headers.Format(Headers.CookieName, value) == "cookie:" + value;
    assert "cookie:" + ("pool_secret=" + secret) == "cookie:pool_secret=" + secret;
  }

  /** The plugin's pass: read the credential file, then visit every repository. */
  function ConfigAll(entries: seq<Plugin.Entry>, read: ReadResult): (r: Plugin.Run)
    ensures read.Unreadable? ==> r == Plugin.Aborted([], ReadError)
    ensures read.Content? ==> r.Completed?
  {
    match read
    case Unreadable => Plugin.Aborted([], ReadError)
    case Content(_) => Plugin.RunAll(entries, (repo: Repo) => Config(repo, read))
  }
}
