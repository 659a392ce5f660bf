/** The cache key of a request: its URI and five integer discriminators
    joined with '-', and the parser that takes such a key apart again. */
module CacheKey {
  import opened PhpRuntime

  /** What the key is made of: the request URI and the ids of the currency,
      language, shop, country and device class, in the order they are joined. */
  datatype KeyParts = KeyParts(
    uri: string,
    currency: int,
    lang: int,
    shop: int,
    country: int,
    device: int)

  predicate NonNegative(p: KeyParts)
  {
    p.currency >= 0 && p.lang >= 0 && p.shop >= 0 && p.country >= 0 && p.device >= 0
  }

  function Pieces(p: KeyParts): seq<string>
  {
    [p.uri, IntToString(p.currency), IntToString(p.lang), IntToString(p.shop),
     IntToString(p.country), IntToString(p.device)]
  }

  /** The key: `implode("-", [uri, currency, lang, shop, country, device])`. */
  function Key(p: KeyParts): string
  {
    Implode("-", Pieces(p))
  }

  /** The key spelled out field by field. */
  lemma KeyLayout(p: KeyParts)
    ensures Key(p) == p.uri + "-" + IntToString(p.currency) + "-" + IntToString(p.lang) + "-"
                      + IntToString(p.shop) + "-" + IntToString(p.country) + "-" + IntToString(p.device)
  {
    var s := Pieces(p);
    assert Implode("-", s[..1]) == p.uri;
    assert s[..2][..1] == s[..1];
    assert Implode("-", s[..2]) == p.uri + "-" + s[1];
    assert s[..3][..2] == s[..2];
    assert Implode("-", s[..3]) == p.uri + "-" + s[1] + "-" + s[2];
    assert s[..4][..3] == s[..3];
    assert Implode("-", s[..4]) == p.uri + "-" + s[1] + "-" + s[2] + "-" + s[3];
    assert s[..5][..4] == s[..4];
    assert Implode("-", s[..5]) == p.uri + "-" + s[1] + "-" + s[2] + "-" + s[3] + "-" + s[4];
    assert s[..6][..5] == s[..5];
    assert s[..6] == s;
  }

  // ---------------------------------------------------------------------
  // Taking a key apart from the right
  // ---------------------------------------------------------------------

  /** Cut a string at its last '-'. */
  function SplitLast(s: string): (r: Option<(string, string)>)
    ensures r.Some? ==> s == r.value.0 + "-" + r.value.1 && '-' !in r.value.1
    ensures r.None? ==> '-' !in s
  {
    if |s| == 0 then None
    else if s[|s| - 1] == '-' then Some((s[..|s| - 1], ""))
    else match SplitLast(s[..|s| - 1])
      case None =>
        assert s == s[..|s| - 1] + [s[|s| - 1]];
        None
      case Some((head, tail)) =>
        assert s == s[..|s| - 1] + [s[|s| - 1]];
        Some((head, tail + [s[|s| - 1]]))
  }

  /** Cutting `a + "-" + b` at its last '-' gives back `a` and `b` when `b` has no '-'. */
  lemma {:induction false} SplitLastOfJoin(a: string, b: string)
    requires '-' !in b
    ensures SplitLast(a + "-" + b) == Some((a, b))
  {
    var s := a + "-" + b;
    if b == [] {
      assert s[..|s| - 1] == a;
    } else {
      var b' := b[..|b| - 1];
      assert s[..|s| - 1] == a + "-" + b';
      assert s[|s| - 1] == b[|b| - 1];
      assert b == b' + [b[|b| - 1]];
      SplitLastOfJoin(a, b');
    }
  }

  /** Cut off the last `n` '-'-separated fields; None when there are fewer
      than `n` separators. */
  function SplitFieldsRight(s: string, n: nat): Option<(string, seq<string>)>
    decreases n
  {
    if n == 0 then Some((s, []))
    else match SplitLast(s)
      case None => None
      case Some((head, last)) =>
        match SplitFieldsRight(head, n - 1)
        case None => None
        case Some((rest, fields)) => Some((rest, fields + [last]))
  }

  /** Splitting a joined list from the right recovers the last `n` pieces,
      provided none of them contains the glue. */
  lemma {:induction false} SplitFieldsRightOfImplode(pieces: seq<string>, n: nat)
    requires n < |pieces|
    requires forall i :: |pieces| - n <= i < |pieces| ==> '-' !in pieces[i]
    ensures SplitFieldsRight(Implode("-", pieces), n)
            == Some((Implode("-", pieces[..|pieces| - n]), pieces[|pieces| - n..]))
  {
    var m := |pieces|;
    if n == 0 {
      assert pieces[..m] == pieces;
    } else {
      var init := pieces[..m - 1];
      SplitLastOfJoin(Implode("-", init), pieces[m - 1]);
      SplitFieldsRightOfImplode(init, n - 1);
      assert init[..|init| - (n - 1)] == pieces[..m - n];
      assert init[|init| - (n - 1)..] == pieces[m - n..m - 1];
      assert pieces[m - n..] == pieces[m - n..m - 1] + [pieces[m - 1]];
    }
  }

  /** Read a key back into its parts: the last five fields must be runs of
      digits, and everything before them is the URI. */
  function ParseKey(k: string): (r: Option<KeyParts>)
    ensures r.Some? ==> NonNegative(r.value)
  {
    match SplitFieldsRight(k, 5)
    case None => None
    case Some((uri, f)) => ReadFields(uri, f)
  }

  /** The parts named by a URI and five digit fields. */
  function ReadFields(uri: string, f: seq<string>): (r: Option<KeyParts>)
    ensures r.Some? ==> NonNegative(r.value)
  {
    if |f| == 5 && IsDigits(f[0]) && IsDigits(f[1]) && IsDigits(f[2])
       && IsDigits(f[3]) && IsDigits(f[4]) then
      Some(KeyParts(uri, DigitsToNat(f[0]), DigitsToNat(f[1]), DigitsToNat(f[2]),
                    DigitsToNat(f[3]), DigitsToNat(f[4])))
    else None
  }

  lemma DigitsHaveNoDash(s: string)
    requires IsDigits(s)
    ensures '-' !in s
  {
  }

  /** For non-negative ids the key determines every part it was made from. */
  lemma KeyRoundTrip(p: KeyParts)
    requires NonNegative(p)
    ensures ParseKey(Key(p)) == Some(p)
  {
    var s := Pieces(p);
    var f := [NatToString(p.currency), NatToString(p.lang), NatToString(p.shop),
              NatToString(p.country), NatToString(p.device)];
    assert s == [p.uri] + f;
    forall i | 1 <= i < 6 ensures '-' !in s[i] {
      DigitsHaveNoDash(s[i]);
    }
    SplitFieldsRightOfImplode(s, 5);
    assert s[..1] == [p.uri] && s[1..] == f;
    assert SplitFieldsRight(Key(p), 5) == Some((p.uri, f));
    DigitsRoundTrip(p.currency);
    DigitsRoundTrip(p.lang);
    DigitsRoundTrip(p.shop);
    DigitsRoundTrip(p.country);
    DigitsRoundTrip(p.device);
  }

  /** Two requests whose URIs or discriminators differ never share a key
      (for non-negative ids); equal parts give equal keys, as Key is a function. */
  lemma KeyInjective(p: KeyParts, q: KeyParts)
    requires NonNegative(p) && NonNegative(q)
    ensures Key(p) == Key(q) <==> p == q
  {
    if Key(p) == Key(q) {
      KeyRoundTrip(p);
      KeyRoundTrip(q);
    }
  }

  /** Without the non-negativity the key is ambiguous: a '-' ending the URI
      and a negative currency id render the same as the reverse. */
  lemma NegativeIdsCollide()
    ensures Key(KeyParts("x-", 1, 0, 0, 0, 0)) == Key(KeyParts("x", -1, 0, 0, 0, 0))
    ensures KeyParts("x-", 1, 0, 0, 0, 0) != KeyParts("x", -1, 0, 0, 0, 0)
  {
    KeyLayout(KeyParts("x-", 1, 0, 0, 0, 0));
    KeyLayout(KeyParts("x", -1, 0, 0, 0, 0));
    assert IntToString(-1) == "-" + IntToString(1);
  }
}
