/**
 * The header builder: every outgoing header is one "Name:Value" string, and a
 * repository's header list replaces whatever it had before.
 */
module Headers {
  import opened Optional

  const Separator: char := ':'

  /** Header names the plugins emit. */
  const AccessTokenName := "X-Access-Token"
  const RefererName := "Referer"
  const CookieName := "cookie"

  /** The serialised form of the header `name` carrying `value`. */
  function Format(name: string, value: string): string
  {
    name + [Separator] + value
  }

  /** The value of a cookie header setting cookie `key` to `value`. */
  function Cookie(key: string, value: string): string
  {
    key + "=" + value
  }

  /** The position of the first separator in `h`, if any. */
  function SeparatorIndex(h: string): (r: Option<nat>)
    ensures r.None? <==> Separator !in h
    ensures r.Some? ==> r.value < |h| && h[r.value] == Separator && Separator !in h[..r.value]
  {
    if |h| == 0 then None
    else if h[0] == Separator then Some(0)
    else
      match SeparatorIndex(h[1..])
      case None => None
      case Some(i) =>
        assert h[..i + 1] == [h[0]] + h[1..][..i];
        Some(i + 1)
  }

  /**
   * Reads a serialised header back as its (name, value) pair: the name is
   * everything before the first separator, the value everything after it.
   */
  function Split(h: string): (r: Option<(string, string)>)
    ensures r.None? <==> Separator !in h
    ensures r.Some? ==> Separator !in r.value.0 && h == Format(r.value.0, r.value.1)
  {
    match SeparatorIndex(h)
    case None => None
    case Some(i) =>
      assert h == h[..i] + [Separator] + h[i + 1..];
      Some((h[..i], h[i + 1..]))
  }

  /** A header whose name has no separator reads back as exactly what was formatted. */
  lemma {:induction false} SplitFormat(name: string, value: string)
    requires Separator !in name
    ensures Split(Format(name, value)) == Some((name, value))
  {
    var h := Format(name, value);
    assert h[|name|] == Separator;
    var r := Split(h);
    assert r.Some?;
    var (n, v) := r.value;
    assert n == h[..|n|] == name;
    assert v == h[|n| + 1..] == value;
  }
}
