/**
 * The plugins' test cases, restated as facts about the model: each lemma
 * fixes the repository and fetch result a test builds and states what the
 * test expects of the header-setting operation.
 */
module Scenarios {
  import opened Optional
  import opened Tokens
  import Locality
  import AccessToken
  import Ptoken
  import XapiToken
  import Plugin

  /** The path both test addresses end in. */
  const TestPath := "/some_local_path"

  /** The tests' local and remote base addresses. */
  const LocalUrl := LocalAddress(TestPath)
  const RemoteUrl := RemoteAddress(TestPath)

  /** The local test address passes the locality guard. */
  lemma LocalUrlIsLocal()
    ensures Locality.IsLocalUrl(LocalUrl)
  {
    assert LocalUrl == "http" + Locality.SchemeSeparator + Locality.Loopback + TestPath;
    Locality.HostForm("http", Locality.Loopback, TestPath);
  }

  /** The remote test address fails the locality guard. */
  lemma RemoteUrlIsRemote()
    ensures !Locality.IsLocalUrl(RemoteUrl)
  {
    assert RemoteUrl == "http" + Locality.SchemeSeparator + "some_remote_token" + TestPath;
    Locality.HostForm("http", "some_remote_token", TestPath);
  }

  /** A base address on the loopback host under `path`, as the local tests use with `TestPath`. */
  function LocalAddress(path: string): string
  {
    "http://127.0.0.1" + path
  }

  /** A base address on a remote host under `path`, as the remote tests use with `TestPath`. */
  function RemoteAddress(path: string): string
  {
    "http://some_remote_token" + path
  }

  /** A path as the tests write it: empty, or starting at the root. */
  predicate IsPath(path: string)
  {
    path == [] || path[0] == '/'
  }

  /** A repository whose one base address is on the loopback host is local. */
  lemma LocalAddressIsLocal(path: string)
    requires IsPath(path)
    ensures Locality.IsLocalRepo(Some([LocalAddress(path)]))
  {
    assert LocalAddress(path) == "http" + Locality.SchemeSeparator + Locality.Loopback + path;
    Locality.HostForm("http", Locality.Loopback, path);
    assert Locality.AnyLocal([LocalAddress(path)]);
  }

  /** A repository whose one base address is on the remote test host is not local. */
  lemma RemoteAddressIsRemote(path: string)
    requires IsPath(path)
    ensures !Locality.IsLocalRepo(Some([RemoteAddress(path)]))
  {
    assert RemoteAddress(path) == "http" + Locality.SchemeSeparator + "some_remote_token" + path;
    Locality.HostForm("http", "some_remote_token", path);
    assert !Locality.AnyLocal([RemoteAddress(path)]);
  }

  // AccessToken

  /** A fetched object with both fields gives the two headers, token first. */
  lemma SetHttpHeaderWithAccessToken()
    ensures AccessToken.Config(
              Bare.(accesstoken := Locator("file:///mock_accesstoken_url")),
              Object(map["token" := "valid_token", "token_id" := "valid_token_id"]))
            == SetHeaders(["X-Access-Token:valid_token", "Referer:valid_token_id"])
  {
    var fields := map["token" := "valid_token", "token_id" := "valid_token_id"];
    AccessToken.HeaderText(Bare.(accesstoken := Locator("file:///mock_accesstoken_url")), fields);
    assert "X-Access-Token:" + fields["token"] == "X-Access-Token:valid_token";
    assert "Referer:" + fields["token_id"] == "Referer:valid_token_id";
  }

  /** No locator: headers are left alone, whatever a fetch would have returned. */
  lemma RepoWithoutAccessToken(fetched: FetchResult)
    ensures AccessToken.Config(Bare, fetched) == NoOp
  {
  }

  /** A locator naming nothing is ignored, not raised. */
  lemma AccessTokenIgnoresMissingResource()
    ensures AccessToken.Config(Bare.(accesstoken := Locator("Not_existed")), NotFound) == NoOp
  {
  }

  /** A fetched object without the required fields raises InvalidToken. */
  lemma AccessTokenWithBadContentRaises()
    ensures AccessToken.Config(
              Bare.(accesstoken := Locator("file:///file_contain_invalid_token")),
              Object(map["bad_token" := "I am bad guy"]))
            == InvalidToken
  {
  }

  // Ptoken

  /** An unreadable credential file fails the pass even when the host lists no repository. */
  lemma FailedToOpenPtokenFile()
    ensures Ptoken.ConfigAll([], Unreadable) == Plugin.Aborted([], ReadError)
  {
  }

  /** Flag on, loopback address: the pool-secret cookie is set. */
  lemma SetPtokenToHttpHeader(path: string)
    requires IsPath(path)
    ensures Ptoken.Config(Bare.(ptoken := Flag(true), baseurl := Some([LocalAddress(path)])), Content("valid_ptoken"))
            == SetHeaders(["cookie:pool_secret=valid_ptoken"])
  {
    LocalAddressIsLocal(path);
    PoolCookieText();
    Ptoken.HeaderText(Bare.(ptoken := Flag(true), baseurl := Some([LocalAddress(path)])), "valid_ptoken");
  }

  /** The pool-secret cookie of the Ptoken test, spelled out. */
  lemma PoolCookieText()
    ensures "cookie:pool_secret=" + "valid_ptoken" == "cookie:pool_secret=valid_ptoken"
  {
  }

  /** Flag on, remote address: headers are left alone. */
  lemma RemoteRepoIgnoresPtoken(path: string)
    requires IsPath(path)
    ensures Ptoken.Config(Bare.(ptoken := Flag(true), baseurl := Some([RemoteAddress(path)])), Content("valid_ptoken"))
            == NoOp
  {
    RemoteAddressIsRemote(path);
  }

  /** Flag off, loopback address: headers are left alone. */
  lemma LocalRepoWithoutPtokenIgnoresIt(path: string)
    ensures Ptoken.Config(Bare.(ptoken := Flag(false), baseurl := Some([LocalAddress(path)])), Content("valid_ptoken"))
            == NoOp
  {
  }

  // XapiToken

  /** Locator set, loopback address, object with `xapitoken`: the session cookie is set. */
  lemma SetHttpHeaderWithXapiToken(path: string)
    requires IsPath(path)
    ensures XapiToken.Config(
              Bare.(xapitoken := Locator("file:///mock_xapitoken_url"), baseurl := Some([LocalAddress(path)])),
              Object(map["xapitoken" := "valid_token"]))
            == SetHeaders(["cookie:session_id=valid_token"])
  {
    LocalAddressIsLocal(path);
    ValidXapiToken(Bare.(xapitoken := Locator("file:///mock_xapitoken_url"), baseurl := Some([LocalAddress(path)])));
  }

  /** The test's valid object, on any repository that passes the gate, gives the test's session cookie. */
  lemma ValidXapiToken(repo: Repo)
    requires XapiToken.Applies(repo)
    ensures XapiToken.Config(repo, Object(map["xapitoken" := "valid_token"])) == SetHeaders(["cookie:session_id=valid_token"])
  {
    var fields := map["xapitoken" := "valid_token"];
    assert fields[XapiToken.TokenField] == "valid_token";
    SessionCookieText();
    XapiToken.HeaderText(repo, fields);
  }

  /** The session cookie of the XapiToken test, spelled out. */
  lemma SessionCookieText()
    ensures "cookie:session_id=" + "valid_token" == "cookie:session_id=valid_token"
  {
  }

  /** No locator: headers are left alone, whatever a fetch would have returned. */
  lemma RepoWithoutXapiToken(fetched: FetchResult)
    ensures XapiToken.Config(Bare, fetched) == NoOp
  {
  }

  /** A locator but no base address: the repository is not local, so nothing is fetched or set. */
  lemma XapiTokenWithoutBaseurlIgnored(fetched: FetchResult)
    ensures XapiToken.Config(Bare.(xapitoken := Locator("Not_existed")), fetched) == NoOp
  {
  }

  /** Loopback address, object without `xapitoken`: InvalidToken is raised. */
  lemma XapiTokenWithBadContentRaises(path: string)
    requires IsPath(path)
    ensures XapiToken.Config(
              Bare.(xapitoken := Locator("file:///file_contain_invalid_token"), baseurl := Some([LocalAddress(path)])),
              Object(map["bad_token" := "I am bad guy"]))
            == InvalidToken
  {
    LocalAddressIsLocal(path);
  }

  /** Enabled but remote: headers are left alone whatever the locator would yield. */
  lemma RemoteRepoIgnoresXapiToken(path: string, fetched: FetchResult)
    requires IsPath(path)
    ensures XapiToken.Config(Bare.(xapitoken := Flag(true), baseurl := Some([RemoteAddress(path)])), fetched) == NoOp
  {
    RemoteAddressIsRemote(path);
  }

  /** Loopback address but the attribute is false: headers are left alone. */
  lemma LocalRepoWithoutXapiTokenIgnoresIt(path: string, fetched: FetchResult)
    ensures XapiToken.Config(Bare.(xapitoken := Flag(false), baseurl := Some([LocalAddress(path)])), fetched) == NoOp
  {
  }
}
