/**
 * The locality guard: a base address is local when its host, the text between
 * the first "://" and the next "/", is the IPv4 loopback literal.
 */
module Locality {
  import opened Optional
  import Strings

  const SchemeSeparator := "://"
  const PathSeparator: char := '/'
  const Loopback := "127.0.0.1"

  /**
   * `host` is the host of `url` as found at scheme separator `i`: `i` is the
   * first "://", and `host` runs from just after it up to a "/" or the end.
   */
  ghost predicate HostAt(url: string, i: nat, host: string)
  {
    && Strings.FirstOccurrence(url, SchemeSeparator, i)
    && i + 3 + |host| <= |url|
    && url[i + 3..i + 3 + |host|] == host
    && (i + 3 + |host| == |url| || url[i + 3 + |host|] == PathSeparator)
  }

  /** The host of `url`, or None when it has no scheme separator. */
  function HostOf(url: string): (r: Option<string>)
    ensures r.None? <==> forall k: nat :: !Strings.OccursAt(url, SchemeSeparator, k)
    ensures r.Some? ==> PathSeparator !in r.value
    ensures r.Some? ==> exists i: nat :: HostAt(url, i, r.value)
  {
    match Strings.Find(url, SchemeSeparator, 0)
    case None => None
    case Some(i) =>
      var start := i + 3;
      match Strings.Find(url, [PathSeparator], start)
      case None =>
        NoSlashBetween(url, start, |url|);
        assert HostAt(url, i, url[start..]);
        Some(url[start..])
      case Some(j) =>
        Strings.OccursAtChar(url, PathSeparator, j);
        NoSlashBetween(url, start, j);
        assert HostAt(url, i, url[start..j]);
        Some(url[start..j])
  }

  /** No "/" lies in `url[start..end]` when a search from `start` finds none before `end`. */
  lemma NoSlashBetween(url: string, start: nat, end: nat)
    requires start <= end <= |url|
    requires forall k: nat :: start <= k < end ==> !Strings.OccursAt(url, [PathSeparator], k)
    ensures PathSeparator !in url[start..end]
  {
    forall k: nat | start <= k < end
      ensures url[k] != PathSeparator
    {
      Strings.OccursAtChar(url, PathSeparator, k);
    }
  }

  /** At a given scheme separator, at most one slash-free host fits. */
  lemma HostAtUnique(url: string, i: nat, h1: string, h2: string)
    requires HostAt(url, i, h1) && HostAt(url, i, h2)
    requires PathSeparator !in h1 && PathSeparator !in h2
    ensures h1 == h2
  {
  }

  /**
   * The parsed host is the loopback literal exactly when, at the first "://",
   * the loopback literal follows and is ended by "/" or by the end of the address.
   */
  lemma {:induction false} LoopbackHost(url: string)
    ensures HostOf(url) == Some(Loopback) <==> exists i: nat :: HostAt(url, i, Loopback)
  {
    if i: nat :| HostAt(url, i, Loopback) {
      var r := HostOf(url);
      assert r.Some?;
      var j: nat :| HostAt(url, j, r.value);
      Strings.FirstOccurrenceUnique(url, SchemeSeparator, i, j);
      HostAtUnique(url, i, r.value, Loopback);
    }
  }

  /**
   * Whether one base address points at the loopback host: read as a pattern,
   * the loopback literal follows the first "://" and is ended by "/" or by the
   * end of the address.
   */
  predicate IsLocalUrl(url: string): (r: bool)
    ensures r <==> exists i: nat :: HostAt(url, i, Loopback)
  {
    LoopbackHost(url);
    HostOf(url) == Some(Loopback)
  }

  /** Once the first scheme separator is known, locality is decided by what follows it. */
  lemma LocalAtFirstSeparator(url: string, i: nat)
    requires Strings.FirstOccurrence(url, SchemeSeparator, i)
    ensures IsLocalUrl(url) <==> HostAt(url, i, Loopback)
  {
    forall j: nat | HostAt(url, j, Loopback)
      ensures j == i
    {
      Strings.FirstOccurrenceUnique(url, SchemeSeparator, i, j);
    }
  }

  /**
   * For an address built as scheme, "://", host and a path that is empty or
   * starts with "/", the guard compares exactly that host with the loopback
   * literal: "127.0.0.10" or "127.0.0.1:8080" in the host position is remote.
   */
  lemma {:induction false} HostForm(scheme: string, host: string, path: string)
    requires ':' !in scheme && PathSeparator !in host
    requires path == [] || path[0] == PathSeparator
    ensures IsLocalUrl(scheme + SchemeSeparator + host + path) <==> host == Loopback
  {
    var url := scheme + SchemeSeparator + host + path;
    var i := |scheme|;
    Strings.NoOccurrenceBefore(url, SchemeSeparator, i);
    assert url[i..i + 3] == SchemeSeparator;
    assert Strings.FirstOccurrence(url, SchemeSeparator, i);
    assert url[i + 3..i + 3 + |host|] == host;
    assert HostAt(url, i, host);
    LocalAtFirstSeparator(url, i);
    if HostAt(url, i, Loopback) {
      HostAtUnique(url, i, host, Loopback);
    }
  }

  /** Whether some address in `urls` is local. */
  function AnyLocal(urls: seq<string>): (r: bool)
    ensures r <==> exists i :: 0 <= i < |urls| && IsLocalUrl(urls[i])
  {
    if |urls| == 0 then false
    else IsLocalUrl(urls[0]) || AnyLocal(urls[1..])
  }

  /** Whether a repository counts as local: some entry of its base address list is a local address. */
  predicate IsLocalRepo(baseurl: Option<seq<string>>): (r: bool)
    ensures r <==> baseurl.Some? && exists i :: 0 <= i < |baseurl.value| && IsLocalUrl(baseurl.value[i])
    ensures baseurl == None || baseurl == Some([]) ==> !r
  {
    baseurl.Some? && AnyLocal(baseurl.value)
  }
}
