/**
 * The XapiToken plugin: on a local repository whose `xapitoken` attribute is
 * set, the JSON resource it names holds `xapitoken`, sent as a session cookie.
 * A remote repository is never fetched for, whatever its attribute holds.
 */
module XapiToken {
  import opened Optional
  import opened Tokens
  import Headers
  import Locality
  import Plugin

  const TokenField := "xapitoken"
  const SessionKey := "session_id"

  /** Whether the plugin fetches for `repo`: the attribute is set and some base address is local. */
  predicate Applies(repo: Repo): (r: bool)
    ensures !Enabled(repo.xapitoken) || repo.baseurl.None? ==> !r
    ensures r <==> Enabled(repo.xapitoken)
                   && repo.baseurl.Some?
                   && exists i :: 0 <= i < |repo.baseurl.value| && Locality.IsLocalUrl(repo.baseurl.value[i])
  {
    Enabled(repo.xapitoken) && Locality.IsLocalRepo(repo.baseurl)
  }

  /**
   * The decision for one repository, given what fetching its locator returned.
   * The fetch result is consulted only when the repository passes the gate.
   */
  function Config(repo: Repo, fetched: FetchResult): (r: Outcome)
    ensures !r.ReadError?
    ensures r.NoOp? <==> !Applies(repo) || fetched.NotFound?
    ensures r.InvalidToken? <==> Applies(repo) && !fetched.NotFound? && !HasFields(fetched, [TokenField])
    ensures r.SetHeaders? ==>
              && HasFields(fetched, [TokenField])
              && r.headers == [Headers.Format(Headers.CookieName, Headers.Cookie(SessionKey, fetched.fields[TokenField]))]
  {
    if !Applies(repo) then NoOp
    else
      match fetched
      case NotFound => NoOp
      case Raw(_) => InvalidToken
      case Object(fields) =>
        if TokenField in fields then
          SetHeaders([Headers.Format(Headers.CookieName, Headers.Cookie(SessionKey, fields[TokenField]))])
        else InvalidToken
  }

  /** Read back, the one header is the cookie carrying the session token. */
  lemma HeadersDecode(repo: Repo, fetched: FetchResult)
    ensures var r := Config(repo, fetched);
            r.SetHeaders? ==>
            var hs := r.headers;
            |hs| == 1 && Headers.Split(hs[0]) == Some((Headers.CookieName, Headers.Cookie(SessionKey, fetched.fields[TokenField])))
  {
    if Config(repo, fetched).SetHeaders? {
      Headers.SplitFormat(Headers.CookieName, Headers.Cookie(SessionKey, fetched.fields[TokenField]));
    }
  }

  /** The cookie header, spelled out. */
  lemma HeaderText(repo: Repo, fields: map<string, string>)
    ensures Applies(repo) && TokenField in fields ==>
            Config(repo, Object(fields)) == SetHeaders(["cookie:session_id=" + fields[TokenField]])
  {
    if TokenField in fields {
      var token := fields[TokenField];
      var value := Headers.Cookie(SessionKey, token);
      assert value == "session_id=" + token;
      assert Headers.Format(Headers.CookieName, value) == "cookie:" + value;
      assert "cookie:" + ("session_id=" + token) == "cookie:session_id=" + token;
    }
  }

  /** A repository that fails the gate is left alone whatever its locator would yield. */
  lemma GateIgnoresFetch(repo: Repo, fetched: FetchResult, other: FetchResult)
    requires !Applies(repo)
    ensures Config(repo, fetched) == Config(repo, other) == NoOp
  {
  }

  /**
   * The plugin's pass over the host's repositories; `fetch` stands for
   * fetching whatever a repository's `xapitoken` attribute holds.
   */
  function ConfigAll(entries: seq<Plugin.Entry>, fetch: Setting -> FetchResult): (r: Plugin.Run)
    ensures r.Aborted? ==> r.cause == InvalidToken
    ensures r.Completed? <==>
              forall i :: 0 <= i < |entries| ==> !Config(entries[i].repo, fetch(entries[i].repo.xapitoken)).IsError()
    ensures (forall i :: 0 <= i < |entries| ==> !Applies(entries[i].repo)) ==> r == Plugin.Completed([])
  {
    var decide := (repo: Repo) => Config(repo, fetch(repo.xapitoken));
    var r := Plugin.RunAll(entries, decide);
    assert r.Aborted? ==> r.cause == InvalidToken by {
      if r.Aborted? {
        var k :| Plugin.FirstFailure(entries, decide, k) && r.cause == decide(entries[k].repo);
        assert r.cause == Config(entries[k].repo, fetch(entries[k].repo.xapitoken));
      }
    }
    assert (forall i :: 0 <= i < |entries| ==> !Applies(entries[i].repo)) ==> r == Plugin.Completed([]) by {
      if forall i :: 0 <= i < |entries| ==> !Applies(entries[i].repo) {
        forall i | 0 <= i < |entries|
          ensures decide(entries[i].repo).NoOp?
        {
          assert decide(entries[i].repo) == Config(entries[i].repo, fetch(entries[i].repo.xapitoken));
        }
        Plugin.AllNoOp(entries, decide);
      }
    }
    r
  }
}
