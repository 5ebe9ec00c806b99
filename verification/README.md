# Token header plugins of the package-repository client

This project models, in Dafny, the decision logic of three dnf plugins that
authenticate a repository's HTTP requests by installing credential headers:

- **AccessToken** reads a repository's `accesstoken` locator, fetches a JSON
  object holding `token` and `token_id`, and sets the headers
  `X-Access-Token:<token>` and `Referer:<token_id>`, in that order. A locator
  that names nothing is ignored. An object missing a field raises
  `InvalidToken`. Base addresses play no part.
- **Ptoken** reads the pool secret from a local credential file. For each
  repository whose `ptoken` flag is on and which has a loopback base address,
  it sets `cookie:pool_secret=<secret>`. An unreadable file is raised, not
  ignored.
- **XapiToken** applies only to a repository whose `xapitoken` attribute is
  set and which has a loopback base address. For such a repository it fetches
  a JSON object holding `xapitoken` and sets `cookie:session_id=<token>`.
  A missing resource is ignored. A missing field raises `InvalidToken`.

Each plugin's `config()` becomes a pure function from a repository (its token
attributes and its optional `baseurl` list) and an abstract fetch result to an
`Outcome`:

- `NoOp`: the header-setting operation is never invoked.
- `SetHeaders(list)`: it is invoked with exactly this list.
- `InvalidToken` or `ReadError`: an error reaches the host.

The locality guard is a pure predicate over one base address. The host is the
text between the first `://` and the next `/` (or the end of the address). The
address is local when that host equals `127.0.0.1`. A repository is local when
some entry of its `baseurl` is local; an absent or empty list is not local.

`Plugin.RunAll` models one plugin pass over the host's repositories. It visits
them in order. The first error ends the pass and reaches the host. Headers
already installed on earlier repositories stay installed.

Modules: `Optional`, `Strings` (substring search), `Headers` (the
`Name:Value` format and its reader), `Tokens` (data model), `Locality`,
`Plugin`, `AccessToken`, `Ptoken`, `XapiToken`, and `Scenarios` (the
repository's test cases, restated as lemmas).

What the repository's tests fix, and what is this model's own reading of the
plugins:

- Fixed by the tests in `python3/tests/test_dnf_plugins.py`: the exact header
  lists of the three success cases, the no-op results with no token attribute,
  an AccessToken fetch that is not found, `InvalidToken` for an object
  without the required fields, the Ptoken and XapiToken gates on the two
  single-entry base address lists `http://127.0.0.1/some_local_path` and
  `http://some_remote_token/some_local_path`, and the error for an
  unreadable credential file.
- The model's own reading:
  - fetched content that is not a JSON object;
  - XapiToken checks the attribute and locality before it fetches, so a
    remote or baseurl-less repository whose content lacks `xapitoken` is left
    alone. No test has this input. The test at
    `python3/tests/test_dnf_plugins.py:131-135` fits this reading, and it fits
    equally well a plugin that fetches first and ignores unparsable content;
  - XapiToken on a local repository whose fetch is not found (ignored, as
    for AccessToken);
  - base address lists with more than one entry (any local entry counts);
  - the general host-extraction rule for addresses other than the two above;
  - the order in which a plugin pass visits repositories and stops at the
    first error.

## Ptoken reads its credential file first

Ptoken reads the credential file before it looks at any repository. The test
at `python3/tests/test_dnf_plugins.py:78-83` runs it on a bare mock host that
lists no repository, with the path set to a missing file, and expects an
exception. A bare mock host iterates as empty, so the read cannot wait for a
repository to pass the gate. The tests at lines 93-107 patch `open` even where
the gate fails, which fits this reading. The model follows it:

- `Ptoken.ConfigAll` reads once, up front. It aborts with `ReadError` whatever
  repositories exist.
- `Ptoken.Config` yields `ReadError` for an unreadable file even when the
  repository would not pass the gate.

## Model

| member | source | states |
|---|---|---|
| AccessToken.Config | python3/tests/test_dnf_plugins.py:41-73 | No headers are set exactly when no locator is configured or the resource is not found. InvalidToken is raised exactly when the fetched content is not an object holding both `token` and `token_id`. Otherwise the list is the token header followed by the referer header. It never yields a read error. |
| AccessToken.HeadersDecode | python3/tests/test_dnf_plugins.py:41-51 | Each header that is set, read back at its first ':', gives (X-Access-Token, token) and then (Referer, token_id). |
| AccessToken.HeaderText | python3/tests/test_dnf_plugins.py:41-51 | With both fields present, the list is exactly ["X-Access-Token:" + token, "Referer:" + token_id]. |
| AccessToken.NoLocalityGate | python3/tests/test_dnf_plugins.py:41-73 | The decision is the same whatever the repository's base addresses are. |
| AccessToken.ConfigAll | python3/tests/test_dnf_plugins.py:25-34 | A pass over the host's repositories can only abort with InvalidToken. It completes exactly when no repository's content is invalid. |
| Ptoken.Config | python3/tests/test_dnf_plugins.py:78-107 | A read error arises exactly when the credential file is unreadable. Headers are set exactly when the file was read, the flag is on and some base address is local. The one header is the pool-secret cookie. InvalidToken never arises. |
| Ptoken.HeadersDecode | python3/tests/test_dnf_plugins.py:85-91 | The header that is set reads back as (cookie, "pool_secret=" + file content). |
| Ptoken.HeaderText | python3/tests/test_dnf_plugins.py:85-91 | On a repository that passes the gate, the list is exactly ["cookie:pool_secret=" + content]. |
| Ptoken.ConfigAll | python3/tests/test_dnf_plugins.py:78-83 | An unreadable file aborts the pass with ReadError and installs nothing, whatever repositories exist. A readable file never aborts it. |
| XapiToken.Config | python3/tests/test_dnf_plugins.py:113-164 | No headers are set exactly when the attribute is unset or false, or no base address is local, or the resource is not found. InvalidToken is raised exactly when the repository passes the gate and the fetched content lacks `xapitoken`. Otherwise the one header is the session cookie. |
| XapiToken.GateIgnoresFetch | python3/tests/test_dnf_plugins.py:125-164 | A repository that fails the gate gets NoOp for every fetch result, so no fetch is consulted. |
| XapiToken.HeadersDecode | python3/tests/test_dnf_plugins.py:113-123 | The header that is set reads back as (cookie, "session_id=" + token). |
| XapiToken.HeaderText | python3/tests/test_dnf_plugins.py:113-123 | On a repository that passes the gate with `xapitoken` fetched, the list is exactly ["cookie:session_id=" + token]. |
| XapiToken.ConfigAll | python3/tests/test_dnf_plugins.py:125-135 | A pass can only abort with InvalidToken. It completes exactly when no repository's content is invalid. When no repository passes the gate, it completes and installs nothing. |
| Plugin.RunAll | python3/tests/test_dnf_plugins.py:25-34 | A pass completes exactly when no repository's decision is an error. An aborted pass carries the first repository's error. Every installed list belongs to a repository before the first failure whose decision set exactly that list. Every such repository's list is installed. |
| Plugin.AllNoOp | python3/tests/test_dnf_plugins.py:53-57 | A pass in which every decision is NoOp completes and installs nothing. |
| Locality.HostOf | python3/tests/test_dnf_plugins.py:89-97 | There is no host exactly when the address has no "://". A host contains no '/'. It is the text that follows the first "://" and is ended by '/' or by the end of the address. |
| Locality.IsLocalUrl | python3/tests/test_dnf_plugins.py:89-107 | An address is local exactly when "127.0.0.1" follows its first "://" and is ended by '/' or by the end of the address. |
| Locality.LoopbackHost | python3/tests/test_dnf_plugins.py:89-107 | The parsed host is "127.0.0.1" exactly when that pattern holds at the first "://", tying the parser to the pattern. |
| Locality.IsLocalRepo | python3/tests/test_dnf_plugins.py:131-135 | A repository is local exactly when its base address list is present and some entry is a local address. An absent or empty list is never local. |
| Tokens.Enabled | python3/tests/test_dnf_plugins.py:25-30 | A token attribute is off exactly when it holds one of the falsy values None, False or the empty string. |
| Ptoken.Applies | python3/tests/test_dnf_plugins.py:85-107 | Ptoken applies exactly when the flag is on and some base address is local. An off flag or an absent base address list never applies. |
| XapiToken.Applies | python3/tests/test_dnf_plugins.py:131-164 | XapiToken applies exactly when the attribute is set and some base address is local. An unset or false attribute, or an absent base address list, never applies. |
| Locality.HostForm | python3/tests/test_dnf_plugins.py:89-107 | For scheme + "://" + host + path, with a slash-free host and a path that is empty or starts with '/', the address is local exactly when the host is "127.0.0.1". |
| Locality.AnyLocal | python3/tests/test_dnf_plugins.py:89-107 | A list of base addresses is local exactly when some entry is a local address. |
| Headers.Split | python3/tests/test_dnf_plugins.py:49-51 | A header without ':' has no reading. Otherwise the name has no ':', and formatting the name and value gives back the header. |
| Headers.SplitFormat | python3/tests/test_dnf_plugins.py:49-51 | A header whose name has no ':' reads back as exactly the name and value it was formatted from. |
| Scenarios.SetHttpHeaderWithAccessToken | python3/tests/test_dnf_plugins.py:41-51 | The test's locator and object give ["X-Access-Token:valid_token", "Referer:valid_token_id"]. |
| Scenarios.RepoWithoutAccessToken | python3/tests/test_dnf_plugins.py:53-57 | A repository with no access-token locator gets NoOp for every fetch result. |
| Scenarios.AccessTokenIgnoresMissingResource | python3/tests/test_dnf_plugins.py:59-64 | A locator whose fetch is not found gets NoOp and no error. |
| Scenarios.AccessTokenWithBadContentRaises | python3/tests/test_dnf_plugins.py:66-73 | An object holding only `bad_token` raises InvalidToken. |
| Scenarios.FailedToOpenPtokenFile | python3/tests/test_dnf_plugins.py:78-83 | With an unreadable credential file, a pass over no repositories aborts with ReadError. |
| Scenarios.SetPtokenToHttpHeader | python3/tests/test_dnf_plugins.py:85-91 | Flag on and base address "http://127.0.0.1" + path give ["cookie:pool_secret=valid_ptoken"]. |
| Scenarios.RemoteRepoIgnoresPtoken | python3/tests/test_dnf_plugins.py:93-99 | Flag on and a remote base address give NoOp. |
| Scenarios.LocalRepoWithoutPtokenIgnoresIt | python3/tests/test_dnf_plugins.py:101-107 | Flag off and a loopback base address give NoOp. |
| Scenarios.SetHttpHeaderWithXapiToken | python3/tests/test_dnf_plugins.py:113-123 | Locator set, a loopback base address and an object holding `xapitoken` give ["cookie:session_id=valid_token"]. |
| Scenarios.RepoWithoutXapiToken | python3/tests/test_dnf_plugins.py:125-129 | A repository with no xapitoken attribute gets NoOp for every fetch result. |
| Scenarios.XapiTokenWithoutBaseurlIgnored | python3/tests/test_dnf_plugins.py:131-135 | A locator without any base address gets NoOp for every fetch result. |
| Scenarios.XapiTokenWithBadContentRaises | python3/tests/test_dnf_plugins.py:137-145 | A loopback repository whose object lacks `xapitoken` raises InvalidToken. |
| Scenarios.RemoteRepoIgnoresXapiToken | python3/tests/test_dnf_plugins.py:147-155 | An enabled flag on a remote repository gets NoOp for every fetch result. |
| Scenarios.LocalRepoWithoutXapiTokenIgnoresIt | python3/tests/test_dnf_plugins.py:157-164 | A false attribute on a loopback repository gets NoOp for every fetch result. |
| Scenarios.LocalUrlIsLocal | python3/tests/test_dnf_plugins.py:89 | "http://127.0.0.1/some_local_path" is a local address. |
| Scenarios.RemoteUrlIsRemote | python3/tests/test_dnf_plugins.py:97 | "http://some_remote_token/some_local_path" is not a local address. |

## Left out

- Fetching through `urlgrabber.urlopen` and reading the credential file with
  `open` are I/O. They are parameters: a `FetchResult` (not found, raw text, or
  a JSON object) and a `ReadResult` (unreadable, or the content). In a plugin
  pass, `fetch` maps a repository's attribute value to its fetch result.
- JSON parsing is not modelled. A parsed object is a map from field names to
  string values. Non-string field values are not modelled.
- Fetched content that is not a JSON object becomes `InvalidToken`, as content
  lacking the required structure. No test pins this down: the one test whose
  fetch yields something other than an object,
  `python3/tests/test_dnf_plugins.py:131-135`, has no base address, and its
  expected no-op is consistent with either reading.
- Surrounding whitespace in fetched or read content is not stripped. The
  model uses the content verbatim; the tests do not exercise this case.
- Plugin registration, the constructor's `base` and `args` arguments, and the
  mock scaffolding are not modelled.
- The module-level credential path and its reassignment in the test are not
  modelled. The path is opaque, and only the result of reading it is a
  parameter.
- Logging, and how the host reports a raised error, are not modelled.
- How many times the header-setting operation is called is not modelled. The
  tests check only the last call or whether it was called at all.
- Locality.IsLocalUrl: the host is compared as raw text. A port
  (`127.0.0.1:8080`), userinfo, `localhost` or an IPv6 loopback address is not
  local.
- XapiToken.Config: a `True` attribute on a local repository is treated like
  any set locator, and its fetch result is a parameter. What `urlopen(True)`
  would do is not modelled.
- Plugin.RunAll: the host's repository mapping is a sequence, visited in its
  iteration order.
