/** Positional numerals, and the three encodings built on them: `u32` big-endian, hex and base32. */
module Encodings {
  import opened Prelude

  function Pow(base: nat, n: nat): nat {
    if n == 0 then 1 else base * Pow(base, n - 1)
  }

  ghost predicate Below(ds: seq<nat>, base: nat) {
    forall i :: 0 <= i < |ds| ==> ds[i] < base
  }

  /** The number a sequence of digits denotes, most significant first. */
  function FromDigits(ds: seq<nat>, base: nat): nat {
    if ds == [] then 0 else FromDigits(ds[..|ds| - 1], base) * base + ds[|ds| - 1]
  }

  /** Euclidean division by repeated subtraction. */
  function DivMod(n: nat, base: nat): (r: (nat, nat))
    requires base > 0
    ensures r.1 < base && n == r.0 * base + r.1
    decreases n
  {
    if n < base then (0, n) else
      var (q, d) := DivMod(n - base, base);
      assert (q + 1) * base == q * base + base;
      (q + 1, d)
  }

  /** The last `len` digits of a number, most significant first. */
  function ToDigits(n: nat, base: nat, len: nat): (ds: seq<nat>)
    requires base > 0
    ensures |ds| == len && Below(ds, base)
  {
    if len == 0 then [] else
      var (q, d) := DivMod(n, base);
      ToDigits(q, base, len - 1) + [d]
  }

  lemma Multiples(base: nat, k: int)
    ensures k >= 1 ==> k * base >= base
    ensures k <= -1 ==> k * base <= 0 - base
  {
    if k >= 1 {
      assert (k - 1) * base >= 0;
    } else if k <= -1 {
      assert (-k - 1) * base >= 0;
    }
  }

  lemma DivideOut(q: nat, base: nat, d: nat)
    requires d < base
    ensures DivMod(q * base + d, base) == (q, d)
  {
    var r := DivMod(q * base + d, base);
    var k := r.0 - q;
    assert k * base == r.0 * base - q * base;
    Multiples(base, k);
  }

  lemma ProductsOrder(q: nat, p: nat, base: nat)
    requires q >= p
    ensures q * base >= base * p
  {
    Multiples(base, q - p);
    assert (q - p) * base == q * base - p * base;
  }

  /** A quotient is below `p` when the number is below `p` times the divisor. */
  lemma QuotientBelow(n: nat, base: nat, p: nat)
    requires base > 0 && n < base * p
    ensures DivMod(n, base).0 < p
  {
    var (q, d) := DivMod(n, base);
    if q >= p {
      ProductsOrder(q, p, base);
    }
  }

  lemma DigitBelow(q: nat, p: nat, base: nat, d: nat)
    requires q < p && d < base
    ensures q * base + d < base * p
  {
    assert (p - q) * base == p * base - q * base;
    Multiples(base, p - q);
  }

  /** Digits of a number spelt in that base come back, at whatever length they had. */
  lemma {:induction false} DigitsRoundTrip(ds: seq<nat>, base: nat)
    requires base > 0 && Below(ds, base)
    ensures ToDigits(FromDigits(ds, base), base, |ds|) == ds
  {
    if ds != [] {
      var q, d := FromDigits(ds[..|ds| - 1], base), ds[|ds| - 1];
      DivideOut(q, base, d);
      DigitsRoundTrip(ds[..|ds| - 1], base);
    }
  }

  lemma FromDigitsAppend(ds: seq<nat>, d: nat, base: nat)
    ensures FromDigits(ds + [d], base) == FromDigits(ds, base) * base + d
  {
    assert (ds + [d])[..|ds|] == ds;
  }

  /** A number that fits in `len` digits is denoted by them. */
  lemma {:induction false} NumberRoundTrip(n: nat, base: nat, len: nat)
    requires base > 0 && n < Pow(base, len)
    ensures FromDigits(ToDigits(n, base, len), base) == n
  {
    if len > 0 {
      var (q, d) := DivMod(n, base);
      QuotientBelow(n, base, Pow(base, len - 1));
      NumberRoundTrip(q, base, len - 1);
      FromDigitsAppend(ToDigits(q, base, len - 1), d, base);
    }
  }

  /** `len` digits denote a number below `base` to the power of `len`. */
  lemma {:induction false} FromDigitsBound(ds: seq<nat>, base: nat)
    requires base > 0 && Below(ds, base)
    ensures FromDigits(ds, base) < Pow(base, |ds|)
  {
    if ds != [] {
      FromDigitsBound(ds[..|ds| - 1], base);
      DigitBelow(FromDigits(ds[..|ds| - 1], base), Pow(base, |ds| - 1), base, ds[|ds| - 1]);
    }
  }

  // ---- u32, big-endian ------------------------------------------------------------------------

  const U32_LIMIT := 0x1_0000_0000

  /** `(n as u32).to_be_bytes()`: a wider number is truncated. */
  function U32Bytes(n: nat): (r: Bytes)
    ensures |r| == 4
  {
    ToDigits(n, 256, 4)
  }

  function U32Of(b: Bytes): (n: nat) {
    FromDigits(b, 256)
  }

  lemma U32RoundTrip(n: nat)
    requires n < U32_LIMIT
    ensures U32Of(U32Bytes(n)) == n
  {
    assert Pow(256, 4) == U32_LIMIT;
    NumberRoundTrip(n, 256, 4);
  }

  // ---- symbols --------------------------------------------------------------------------------

  const HEX: Text := "0123456789abcdef"
  const BASE32: Text := "ABCDEFGHIJKLMNOPQRSTUVWXYZ234567"

  function Spell(alphabet: Text, ds: seq<nat>): (s: Text)
    requires Below(ds, |alphabet|)
    ensures |s| == |ds| && forall i :: 0 <= i < |s| ==> s[i] == alphabet[ds[i]]
  {
    if ds == [] then [] else [alphabet[ds[0]]] + Spell(alphabet, ds[1..])
  }

  function Position(alphabet: Text, c: char): (r: Option<nat>)
    ensures r.Some? ==> r.value < |alphabet| && alphabet[r.value] == c
    ensures r.None? ==> c !in alphabet
  {
    if alphabet == [] then None
    else if alphabet[|alphabet| - 1] == c then Some(|alphabet| - 1)
    else Position(alphabet[..|alphabet| - 1], c)
  }

  /** Strict: one foreign character refuses the whole text. */
  function Unspell(alphabet: Text, s: Text): (r: Option<seq<nat>>)
    ensures r.Some? ==> |r.value| == |s| && Below(r.value, |alphabet|)
  {
    if s == [] then Some([])
    else match (Position(alphabet, s[0]), Unspell(alphabet, s[1..]))
      case (Some(d), Some(rest)) => Some([d] + rest)
      case _ => None
  }

  lemma PositionUnique(alphabet: Text, i: nat)
    requires Distinct(alphabet) && i < |alphabet|
    ensures Position(alphabet, alphabet[i]) == Some(i)
  {
    assert alphabet[i] in alphabet;
    var p := Position(alphabet, alphabet[i]);
    assert p.Some? && alphabet[p.value] == alphabet[i];
  }

  lemma UnspellFirst(alphabet: Text, s: Text, d: nat, ds: seq<nat>)
    requires s != [] && Position(alphabet, s[0]) == Some(d) && Unspell(alphabet, s[1..]) == Some(ds)
    ensures Unspell(alphabet, s) == Some([d] + ds)
  {
  }

  /** Spelling digits and reading the text back gives the digits. */
  lemma {:induction false} SpellRoundTrip(alphabet: Text, ds: seq<nat>)
    requires Distinct(alphabet) && Below(ds, |alphabet|)
    ensures Unspell(alphabet, Spell(alphabet, ds)) == Some(ds)
  {
    if ds != [] {
      var s, first, rest := Spell(alphabet, ds), ds[0], ds[1..];
      SpellRoundTrip(alphabet, rest);
      assert s[1..] == Spell(alphabet, rest);
      PositionUnique(alphabet, first);
      UnspellFirst(alphabet, s, first, rest);
      assert ds == [first] + rest;
    }
  }

  /** Whatever is read is the spelling of what it was read as. */
  lemma {:induction false} UnspellRoundTrip(alphabet: Text, s: Text)
    requires Unspell(alphabet, s).Some?
    ensures Spell(alphabet, Unspell(alphabet, s).value) == s
  {
    if s != [] {
      UnspellRoundTrip(alphabet, s[1..]);
      var ds := Unspell(alphabet, s).value;
      assert ds[1..] == Unspell(alphabet, s[1..]).value;
      assert s == [s[0]] + s[1..];
    }
  }

  // ---- regrouping -----------------------------------------------------------------------------

  /** Rewrites `n` groups of `k` digits of one base as `n` groups of `m` digits of another. */
  function Regroup(ds: seq<nat>, n: nat, base: nat, k: nat, base': nat, m: nat): (r: seq<nat>)
    requires base' > 0 && |ds| == n * k
    ensures |r| == n * m && Below(r, base')
    decreases n
  {
    if n == 0 then []
    else
      assert n * k == k + (n - 1) * k && n * m == m + (n - 1) * m;
      assert (n - 1) * k >= 0;
      ToDigits(FromDigits(ds[..k], base), base', m) + Regroup(ds[k..], n - 1, base, k, base', m)
  }

  /** One group, there and back. */
  lemma GroupRoundTrip(g: seq<nat>, base: nat, base': nat, m: nat)
    requires base > 0 && base' > 0 && Below(g, base)
    requires Pow(base, |g|) == Pow(base', m)
    ensures ToDigits(FromDigits(ToDigits(FromDigits(g, base), base', m), base'), base, |g|) == g
  {
    FromDigitsBound(g, base);
    NumberRoundTrip(FromDigits(g, base), base', m);
    DigitsRoundTrip(g, base);
  }

  lemma FirstGroup(n: nat, k: nat)
    requires n > 0
    ensures n * k == k + (n - 1) * k && (n - 1) * k >= 0
  {
  }

  lemma RegroupAppend(head: seq<nat>, rest: seq<nat>, n: nat, base: nat, k: nat, base': nat, m: nat)
    requires n > 0 && base' > 0 && |head| == k && |rest| == (n - 1) * k && |head + rest| == n * k
    ensures Regroup(head + rest, n, base, k, base', m)
            == ToDigits(FromDigits(head, base), base', m) + Regroup(rest, n - 1, base, k, base', m)
  {
    assert (head + rest)[..k] == head && (head + rest)[k..] == rest;
  }

  /** When the two group sizes span the same range, regrouping back undoes regrouping. */
  lemma {:induction false} RegroupRoundTrip(ds: seq<nat>, n: nat, base: nat, k: nat, base': nat, m: nat)
    requires base > 0 && base' > 0 && |ds| == n * k && Below(ds, base)
    requires Pow(base, k) == Pow(base', m)
    ensures Regroup(Regroup(ds, n, base, k, base', m), n, base', m, base, k) == ds
    decreases n
  {
    if n > 0 {
      FirstGroup(n, k);
      FirstGroup(n, m);
      var first, others := ds[..k], ds[k..];
      var head, rest := ToDigits(FromDigits(first, base), base', m), Regroup(others, n - 1, base, k, base', m);
      calc {
        Regroup(Regroup(ds, n, base, k, base', m), n, base', m, base, k);
        Regroup(head + rest, n, base', m, base, k);
        { RegroupAppend(head, rest, n, base', m, base, k); }
        ToDigits(FromDigits(head, base'), base, k) + Regroup(rest, n - 1, base', m, base, k);
        { GroupRoundTrip(first, base, base', m); RegroupRoundTrip(others, n - 1, base, k, base', m); }
        first + others;
        ds;
      }
    }
  }

  // ---- hex and base32, sections 8 and 6 of RFC 4648 -------------------------------------------

  /** Two lower-case hexadecimal digits a byte. */
  function ToHex(b: Bytes): (s: Text)
    ensures |s| == 2 * |b|
  {
    Spell(HEX, Regroup(b, |b|, 256, 1, 16, 2))
  }

  /** `len` bytes from exactly `2 * len` lower-case digits; nothing else is accepted. */
  function FromHex(s: Text, len: nat): (r: Option<Bytes>)
    ensures r.Some? ==> |r.value| == len
  {
    if |s| != 2 * len then None
    else match Unspell(HEX, s)
      case None => None
      case Some(ds) => Some(Regroup(ds, len, 16, 2, 256, 1))
  }

  lemma HexRoundTrip(b: Bytes)
    ensures FromHex(ToHex(b), |b|) == Some(b)
  {
    assert Pow(256, 1) == 256 && Pow(16, 2) == 256;
    RegroupRoundTrip(b, |b|, 256, 1, 16, 2);
    SpellRoundTrip(HEX, Regroup(b, |b|, 256, 1, 16, 2));
  }

  /** The digits by value: `0` to `9`, then `a` to `f`. */
  lemma HexDigits(d: nat)
    requires d < 16
    ensures |HEX| == 16 && HEX[d] == if d < 10 then '0' + d as char else 'a' + (d - 10) as char
  {
  }

  /** A text decodes exactly if it is the encoding of what it decodes to. */
  lemma HexExactly(s: Text, len: nat, b: Bytes)
    ensures FromHex(s, len) == Some(b) <==> |b| == len && s == ToHex(b)
  {
    if FromHex(s, len) == Some(b) {
      assert Pow(256, 1) == 256 && Pow(16, 2) == 256;
      var ds := Unspell(HEX, s).value;
      UnspellRoundTrip(HEX, s);
      RegroupRoundTrip(ds, len, 16, 2, 256, 1);
    }
    if |b| == len && s == ToHex(b) {
      HexRoundTrip(b);
    }
  }

  /** Unpadded: 8 symbols for each 5 bytes. */
  function ToBase32(b: Bytes, groups: nat): (s: Text)
    requires |b| == groups * 5
    ensures |s| == groups * 8
  {
    Spell(BASE32, Regroup(b, groups, 256, 5, 32, 8))
  }

  /**
   `groups * 5` bytes from a base32 text. A text of another length decodes to another number of
   bytes or not at all, and is refused by the caller's length check in either case.
   */
  function FromBase32(s: Text, groups: nat): (r: Option<Bytes>)
    ensures r.Some? ==> |r.value| == groups * 5
  {
    if |s| != groups * 8 then None
    else match Unspell(BASE32, s)
      case None => None
      case Some(ds) => Some(Regroup(ds, groups, 32, 8, 256, 5))
  }

  lemma FortyBits()
    ensures Pow(256, 5) == Pow(32, 8)
  {
    assert Pow(32, 4) == 0x10_0000;
    assert Pow(32, 8) == 0x100_0000_0000;
    assert Pow(256, 5) == 0x100_0000_0000;
  }

  /** The symbols by value: `A` to `Z`, then `2` to `7`. */
  lemma Base32Digits(d: nat)
    requires d < 32
    ensures |BASE32| == 32 && BASE32[d] == if d < 26 then 'A' + d as char else '2' + (d - 26) as char
  {
  }

  lemma Base32Distinct()
    ensures |BASE32| == 32 && Distinct(BASE32)
  {
    forall i, j | 0 <= i < |BASE32| && 0 <= j < |BASE32| && i != j
      ensures BASE32[i] != BASE32[j]
    {
      Base32Digits(i);
      Base32Digits(j);
    }
  }

  lemma Base32RoundTrip(b: Bytes, groups: nat)
    requires |b| == groups * 5
    ensures FromBase32(ToBase32(b, groups), groups) == Some(b)
  {
    FortyBits();
    Base32Distinct();
    RegroupRoundTrip(b, groups, 256, 5, 32, 8);
    SpellRoundTrip(BASE32, Regroup(b, groups, 256, 5, 32, 8));
  }

  /** A text decodes exactly if it is the encoding of what it decodes to. */
  lemma Base32Exactly(s: Text, groups: nat, b: Bytes)
    ensures FromBase32(s, groups) == Some(b) <==> |b| == groups * 5 && s == ToBase32(b, groups)
  {
    if FromBase32(s, groups) == Some(b) {
      FortyBits();
      var ds := Unspell(BASE32, s).value;
      UnspellRoundTrip(BASE32, s);
      RegroupRoundTrip(ds, groups, 32, 8, 256, 5);
    }
    if |b| == groups * 5 && s == ToBase32(b, groups) {
      Base32RoundTrip(b, groups);
    }
  }
}
