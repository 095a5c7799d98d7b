/** Screen ids `<app>:<surface>:<scope>`: build_screen_id and parse_screen_id of feral-core/agents/app_registry.py. */
module ScreenId {
  import opened Prelude

  /** Identifiers are the octets of their UTF-8 form. */
  type Octet = n: nat | n < 256
  type Octets = seq<Octet>

  const COLON: Octet := 58
  const PERCENT: Octet := 37
  const DEFAULT_SCOPE: Octets := [100, 101, 102, 97, 117, 108, 116]

  /** Letters, digits and `-._~` (section 2.3 of RFC 3986). */
  predicate Unreserved(o: Octet) {
    48 <= o <= 57 || 65 <= o <= 90 || 97 <= o <= 122 || o in {45, 46, 95, 126}
  }

  function HexDigit(n: nat): Octet
    requires n < 16
  {
    if n < 10 then 48 + n else 55 + n
  }

  function HexValue(o: Octet): Option<nat> {
    if 48 <= o <= 57 then Some(o - 48)
    else if 65 <= o <= 70 then Some(o - 55)
    else if 97 <= o <= 102 then Some(o - 87)
    else None
  }

  function QuoteOctet(o: Octet): Octets {
    if Unreserved(o) then [o] else [PERCENT, HexDigit(o / 16), HexDigit(o % 16)]
  }

  function Quote(s: Octets): Octets {
    if s == [] then [] else QuoteOctet(s[0]) + Quote(s[1..])
  }

  /** A percent sign without two hexadecimal digits after it stands for itself. */
  function Unquote(t: Octets): Octets {
    if t == [] then []
    else if t[0] == PERCENT && |t| >= 3 && HexValue(t[1]).Some? && HexValue(t[2]).Some? then
      assert HexValue(t[1]).value < 16 && HexValue(t[2]).value < 16;
      [HexValue(t[1]).value * 16 + HexValue(t[2]).value] + Unquote(t[3..])
    else [t[0]] + Unquote(t[1..])
  }

  /** Position of the first colon, or the length. */
  function FirstColon(t: Octets): (i: nat)
    ensures i <= |t| && COLON !in t[..i] && (i < |t| ==> t[i] == COLON)
  {
    if t == [] || t[0] == COLON then 0 else 1 + FirstColon(t[1..])
  }

  datatype ScreenName = ScreenName(app: Octets, surface: Octets, scope: Octets)

  function ScopeOrDefault(scope: Octets): Octets {
    if scope == [] then DEFAULT_SCOPE else scope
  }

  function Build(name: ScreenName): Octets {
    Quote(name.app) + [COLON] + Quote(name.surface) + [COLON] + Quote(ScopeOrDefault(name.scope))
  }

  /** Split at the first two colons; what follows belongs to the scope. */
  function Parse(id: Octets): Option<ScreenName> {
    var i := FirstColon(id);
    if i == |id| then None
    else
      var rest := id[i + 1..];
      var j := FirstColon(rest);
      if j == |rest| then None
      else Some(ScreenName(Unquote(id[..i]), Unquote(rest[..j]), Unquote(rest[j + 1..])))
  }

  lemma {:induction false} HexRoundTrip(o: Octet)
    ensures o / 16 < 16 && HexValue(HexDigit(o / 16)) == Some(o / 16)
    ensures HexValue(HexDigit(o % 16)) == Some(o % 16)
  {
  }

  /** Percent-decoding undoes percent-encoding (section 2.1 of RFC 3986), for every octet string. */
  lemma {:induction false} UnquoteQuote(s: Octets)
    ensures Unquote(Quote(s)) == s
    decreases |s|
  {
    if s != [] {
      var q, rest := QuoteOctet(s[0]), Quote(s[1..]);
      HexRoundTrip(s[0]);
      UnquoteQuote(s[1..]);
      assert (q + rest)[|q|..] == rest;
      if !Unreserved(s[0]) {
        assert (s[0] / 16) * 16 + s[0] % 16 == s[0];
      }
    }
  }

  // ---- What the octets stand for ----

  /** The octets of an ASCII text. */
  function Ascii(text: string): Octets {
    seq(|text|, i requires 0 <= i < |text| => text[i] as int % 256)
  }

  lemma {:induction false} QuoteAppend(a: Octets, b: Octets)
    ensures Quote(a + b) == Quote(a) + Quote(b)
    decreases |a|
  {
    if a == [] {
      assert a + b == b;
    } else {
      assert (a + b)[1..] == a[1..] + b;
      QuoteAppend(a[1..], b);
    }
  }

  /** The octet is that of one of these ASCII characters. */
  predicate OneOf(o: Octet, text: string) {
    o as char in text
  }

  lemma {:induction false} Capitals(o: Octet)
    ensures OneOf(o, "ABCDEFGHIJKLMNOPQRSTUVWXYZ") <==> 65 <= o <= 90
  {
    var text := "ABCDEFGHIJKLMNOPQRSTUVWXYZ";
    assert 65 <= o <= 90 ==> text[o - 65] == o as char;
  }

  lemma {:induction false} SmallLetters(o: Octet)
    ensures OneOf(o, "abcdefghijklmnopqrstuvwxyz") <==> 97 <= o <= 122
  {
    var text := "abcdefghijklmnopqrstuvwxyz";
    assert 97 <= o <= 122 ==> text[o - 97] == o as char;
  }

  lemma {:induction false} DigitsAndMarks(o: Octet)
    ensures OneOf(o, "0123456789") <==> 48 <= o <= 57
    ensures OneOf(o, "-._~") <==> o == 45 || o == 46 || o == 95 || o == 126
  {
    var text := "0123456789";
    assert 48 <= o <= 57 ==> text[o - 48] == o as char;
  }

  /** A letter, a digit or one of `-._~` is written as it is, any other octet as two capital digits after `%`. */
  lemma {:induction false} QuoteOfOne(o: Octet)
    ensures Quote([o]) == [o] <==>
            || OneOf(o, "ABCDEFGHIJKLMNOPQRSTUVWXYZ") || OneOf(o, "abcdefghijklmnopqrstuvwxyz")
            || OneOf(o, "0123456789") || OneOf(o, "-._~")
    ensures Quote([o]) != [o] ==>
              var digits := Ascii("0123456789ABCDEF");
              Quote([o]) == Ascii("%") + [digits[o / 16], digits[o % 16]]
  {
    Capitals(o);
    SmallLetters(o);
    DigitsAndMarks(o);
    HexDigitTable(o / 16);
    HexDigitTable(o % 16);
    assert Ascii("%") == [PERCENT];
    hide HexDigit, OneOf, Ascii;
    assert [o][1..] == [] && Quote([o]) == QuoteOctet(o);
  }

  lemma {:induction false} HexDigitTable(n: nat)
    requires n < 16
    ensures Ascii("0123456789ABCDEF")[n] == HexDigit(n)
  {
  }

  /** A hexadecimal digit, small or capital. */
  ghost predicate IsHexOf(o: Octet, n: nat) {
    n < 16 && (Ascii("0123456789abcdef")[n] == o || Ascii("0123456789ABCDEF")[n] == o)
  }

  lemma {:induction false} HexMeaning(o: Octet, n: nat)
    ensures HexValue(o) == Some(n) <==> IsHexOf(o, n)
  {
    if n < 16 {
      HexDigitTable(n);
      SmallHexTable(n);
      hide Ascii;
    }
  }

  lemma {:induction false} SmallHexTable(n: nat)
    requires n < 16
    ensures Ascii("0123456789abcdef")[n] == if n < 10 then 48 + n else 87 + n
  {
  }

  /** An escape is read back in small and capital digits; a percent sign without two of them stands for itself. */
  lemma {:induction false} UnquoteMeaning(o: Octet, rest: Octets, high: nat, low: nat)
    ensures o == 37 && |rest| >= 2 && IsHexOf(rest[0], high) && IsHexOf(rest[1], low) ==>
              high * 16 + low < 256 && Unquote([o] + rest) == [high * 16 + low] + Unquote(rest[2..])
    ensures o != 37 || |rest| < 2 || (forall n :: !IsHexOf(rest[0], n)) || (forall n :: !IsHexOf(rest[1], n)) ==>
              Unquote([o] + rest) == [o] + Unquote(rest)
  {
    hide HexValue, IsHexOf, Unquote;
    UnquoteStep(o, rest);
    if |rest| >= 2 {
      IsDigitMeaning(rest[0], high);
      IsDigitMeaning(rest[1], low);
    }
  }

  lemma {:induction false} IsDigitMeaning(o: Octet, n: nat)
    ensures IsHexOf(o, n) ==> n < 16 && HexValue(o) == Some(n)
    ensures (forall k :: !IsHexOf(o, k)) ==> HexValue(o).None?
  {
    HexMeaning(o, n);
    if HexValue(o).Some? {
      HexMeaning(o, HexValue(o).value);
    }
    assert IsHexOf(o, n) ==> n < 16;
    hide HexValue, IsHexOf;
  }

  lemma {:induction false} UnquoteStep(o: Octet, rest: Octets)
    ensures if o == 37 && |rest| >= 2 && HexValue(rest[0]).Some? && HexValue(rest[1]).Some?
            then HexValue(rest[0]).value * 16 + HexValue(rest[1]).value < 256 &&
                 Unquote([o] + rest) == [HexValue(rest[0]).value * 16 + HexValue(rest[1]).value] + Unquote(rest[2..])
            else Unquote([o] + rest) == [o] + Unquote(rest)
  {
    var t := [o] + rest;
    assert t[1..] == rest;
    if |rest| >= 2 {
      assert t[3..] == rest[2..] && t[1] == rest[0] && t[2] == rest[1];
    }
  }

  lemma {:induction false} ScopeMeaning(scope: Octets)
    ensures ScopeOrDefault(scope) == if scope == [] then Ascii("default") else scope
  {
  }

  /** An empty scope is written as `default`, and the parts are separated by colons. */
  lemma {:induction false} BuildMeaning(name: ScreenName)
    ensures Build(name) ==
            Quote(name.app) + Ascii(":") + Quote(name.surface) + Ascii(":") +
            Quote(if name.scope == [] then Ascii("default") else name.scope)
  {
    ScopeMeaning(name.scope);
    assert Ascii(":") == [COLON];
  }

  /** Quoted text uses unreserved octets, percent signs and nothing else: no colon is left in it. */
  lemma {:induction false} QuoteAlphabet(s: Octets)
    ensures forall o :: o in Quote(s) ==> Unreserved(o) || o == PERCENT
    ensures 58 !in Quote(s)
    decreases |s|
  {
    if s != [] {
      QuoteAlphabet(s[1..]);
    }
  }

  lemma {:induction false} FirstColonAfter(s: Octets, rest: Octets)
    requires COLON !in s
    ensures FirstColon(s + [COLON] + rest) == |s|
    decreases |s|
  {
    if s != [] {
      assert (s + [COLON] + rest)[1..] == s[1..] + [COLON] + rest;
      FirstColonAfter(s[1..], rest);
    }
  }

  lemma {:induction false} SplitAtColon(s: Octets, rest: Octets)
    requires COLON !in s
    ensures var t := s + [COLON] + rest;
            FirstColon(t) == |s| < |t| && t[..|s|] == s && t[|s| + 1..] == rest
  {
    FirstColonAfter(s, rest);
  }

  lemma {:induction false} ParseParts(a: Octets, s: Octets, c: Octets)
    requires COLON !in a && COLON !in s
    ensures Parse(a + [COLON] + (s + [COLON] + c)) == Some(ScreenName(Unquote(a), Unquote(s), Unquote(c)))
  {
    SplitAtColon(a, s + [COLON] + c);
    SplitAtColon(s, c);
  }

  /** Every name, including ones with colons and percent signs in them, is read back; an empty scope as "default". */
  lemma {:induction false} ParseBuild(name: ScreenName)
    ensures Parse(Build(name)) == Some(name.(scope := if name.scope == [] then Ascii("default") else name.scope))
  {
    assert Ascii("default") == DEFAULT_SCOPE;
    var a, s, c := Quote(name.app), Quote(name.surface), Quote(ScopeOrDefault(name.scope));
    QuoteAlphabet(name.app);
    QuoteAlphabet(name.surface);
    assert Build(name) == a + [COLON] + (s + [COLON] + c);
    ParseParts(a, s, c);
    UnquoteQuote(name.app);
    UnquoteQuote(name.surface);
    UnquoteQuote(ScopeOrDefault(name.scope));
  }

  /** Two names share an id exactly when they differ at most in writing the default scope out. */
  lemma {:induction false} BuildInjective(m: ScreenName, n: ScreenName)
    ensures Build(m) == Build(n) <==>
            && m.app == n.app && m.surface == n.surface
            && (if m.scope == [] then Ascii("default") else m.scope) ==
               (if n.scope == [] then Ascii("default") else n.scope)
  {
    ScopeMeaning(m.scope);
    ScopeMeaning(n.scope);
    hide Ascii, Parse, Quote, Unquote, ScopeOrDefault;
    ParseBuild(m);
    ParseBuild(n);
  }

  function CountColons(t: Octets): nat {
    if t == [] then 0 else (if t[0] == COLON then 1 else 0) + CountColons(t[1..])
  }

  lemma {:induction false} ColonsAfterFirst(t: Octets)
    ensures var i := FirstColon(t);
            CountColons(t) == if i == |t| then 0 else 1 + CountColons(t[i + 1..])
    decreases |t|
  {
    if t != [] && t[0] != COLON {
      ColonsAfterFirst(t[1..]);
      var i := FirstColon(t);
      if i < |t| {
        assert t[1..][i..] == t[i + 1..];
      }
    }
  }

  /** An id parses exactly when it has two colons or more, legacy ids with further colons in the scope included. */
  lemma {:induction false} ParsesIffTwoColons(id: Octets)
    ensures Parse(id).Some? <==> CountColons(id) >= 2
  {
    ColonsAfterFirst(id);
    if FirstColon(id) < |id| {
      ColonsAfterFirst(id[FirstColon(id) + 1..]);
    }
  }

  /** Rebuilding any id that parses gives the canonical id of the same name. */
  lemma {:induction false} RebuildIsCanonical(id: Octets)
    requires Parse(id).Some? && Parse(id).value.scope != []
    ensures Parse(Build(Parse(id).value)) == Parse(id)
  {
    ParseBuild(Parse(id).value);
  }
}
