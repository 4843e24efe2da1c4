/** The registry of capabilities and what two registries have in common. */
module Capability {
  import opened Prelude

  // ---- the order of ids -----------------------------------------------------------------------

  /** Byte order, shorter first. */
  predicate Less(a: Text, b: Text) {
    if b == [] then false
    else if a == [] then true
    else a[0] < b[0] || (a[0] == b[0] && Less(a[1..], b[1..]))
  }

  lemma {:induction false} LessIrreflexive(a: Text)
    ensures !Less(a, a)
  {
    if a != [] {
      LessIrreflexive(a[1..]);
    }
  }

  lemma {:induction false} LessTransitive(a: Text, b: Text, c: Text)
    requires Less(a, b) && Less(b, c)
    ensures Less(a, c)
  {
    if a != [] && a[0] == b[0] == c[0] {
      LessTransitive(a[1..], b[1..], c[1..]);
    }
  }

  lemma {:induction false} LessTotal(a: Text, b: Text)
    ensures Less(a, b) || a == b || Less(b, a)
  {
    if a != [] && b != [] && a[0] == b[0] {
      LessTotal(a[1..], b[1..]);
      assert a == [a[0]] + a[1..] && b == [b[0]] + b[1..];
    }
  }

  /** Sorted and without repetitions: the keys of a `BTreeMap`. */
  ghost predicate Ascending(s: seq<Text>) {
    forall i, j :: 0 <= i < j < |s| ==> Less(s[i], s[j])
  }

  /** Such a list is determined by its members alone. */
  lemma {:induction false} AscendingIsUnique(s: seq<Text>, t: seq<Text>)
    requires Ascending(s) && Ascending(t) && forall x :: x in s <==> x in t
    ensures s == t
  {
    assert |s| > 0 ==> s[0] in t;
    assert |t| > 0 ==> t[0] in s;
    if s != [] {
      SameFirst(s, t);
      SameRest(s, t);
      AscendingIsUnique(s[1..], t[1..]);
      assert s == [s[0]] + s[1..] && t == [t[0]] + t[1..];
    }
  }

  lemma SameFirst(s: seq<Text>, t: seq<Text>)
    requires Ascending(s) && Ascending(t) && s != [] && t != [] && s[0] in t && t[0] in s
    ensures s[0] == t[0]
  {
    var i :| 0 <= i < |t| && t[i] == s[0];
    var j :| 0 <= j < |s| && s[j] == t[0];
    if i > 0 && j > 0 {
      LessTransitive(s[0], t[0], s[0]);
      LessIrreflexive(s[0]);
    }
  }

  lemma SameRest(s: seq<Text>, t: seq<Text>)
    requires Ascending(s) && Ascending(t) && s != [] && t != [] && s[0] == t[0]
    requires forall x :: x in s <==> x in t
    ensures forall x :: x in s[1..] <==> x in t[1..]
  {
    LessIrreflexive(s[0]);
    assert forall x :: x in s <==> x == s[0] || x in s[1..];
    assert forall x :: x in t <==> x == t[0] || x in t[1..];
  }

  // ---- the registry ---------------------------------------------------------------------------

  type Registry = s: seq<Text> | Ascending(s) witness []

  /** Where `x` belongs in an ascending list. */
  function Insert(s: seq<Text>, x: Text): (r: seq<Text>)
    requires Ascending(s)
    ensures Ascending(r) && forall y :: y in r <==> y == x || y in s
  {
    if s == [] then [x]
    else if x == s[0] then s
    else if Less(x, s[0]) then
      assert forall i :: 0 < i < |s| ==> Less(s[0], s[i]);
      assert Ascending([x] + s) by {
        forall i | 0 < i < |s|
          ensures Less(x, s[i])
        {
          LessTransitive(x, s[0], s[i]);
        }
      }
      [x] + s
    else
      assert Less(s[0], x) by { LessTotal(x, s[0]); }
      var rest := Insert(s[1..], x);
      assert s == [s[0]] + s[1..];
      assert forall y :: y in rest ==> Less(s[0], y);
      [s[0]] + rest
  }

  /** What both sides support, sorted and without repetitions. */
  function Mutual(registry: Registry, advertised: seq<Text>): (r: seq<Text>)
    ensures Ascending(r) && forall x :: x in r <==> x in registry && x in advertised
  {
    if advertised == [] then []
    else
      var front, last := advertised[..|advertised| - 1], advertised[|advertised| - 1];
      var rest := Mutual(registry, front);
      assert advertised == front + [last];
      if last in registry then Insert(rest, last) else rest
  }

  /** Both sides compute the same list, whichever of them advertised. */
  lemma NegotiationIsSymmetric(a: Registry, b: Registry)
    ensures Mutual(a, b) == Mutual(b, a)
  {
    AscendingIsUnique(Mutual(a, b), Mutual(b, a));
  }

  /** Order and repetition in what a peer advertises make no difference. */
  lemma AdvertisingIsASet(registry: Registry, xs: seq<Text>, ys: seq<Text>)
    requires forall x :: x in xs <==> x in ys
    ensures Mutual(registry, xs) == Mutual(registry, ys)
  {
    AscendingIsUnique(Mutual(registry, xs), Mutual(registry, ys));
  }

  // ---- negotiation as the code does it --------------------------------------------------------

  ghost predicate Sorted(s: seq<Text>) {
    forall i, j :: 0 <= i < j < |s| ==> !Less(s[j], s[i])
  }

  /** Filter, then sort, then drop neighbours that are equal. */
  method Negotiate(registry: Registry, advertised: seq<Text>) returns (out: seq<Text>)
    ensures out == Mutual(registry, advertised)
  {
    out := [];
    for i := 0 to |advertised|
      invariant forall x :: x in out <==> x in registry && x in advertised[..i]
    {
      assert advertised[..i + 1] == advertised[..i] + [advertised[i]];
      if advertised[i] in registry {
        out := out + [advertised[i]];
      }
    }
    assert advertised[..|advertised|] == advertised;
    out := Sort(out);
    out := Dedup(out);
    AscendingIsUnique(out, Mutual(registry, advertised));
  }

  method Sort(s: seq<Text>) returns (r: seq<Text>)
    ensures Sorted(r) && forall x :: x in r <==> x in s
  {
    r := [];
    for i := 0 to |s|
      invariant Sorted(r) && forall x :: x in r <==> x in s[..i]
    {
      var k := |r|;
      while k > 0 && Less(s[i], r[k - 1])
        invariant 0 <= k <= |r|
        invariant forall j :: k <= j < |r| ==> Less(s[i], r[j])
      {
        k := k - 1;
      }
      InsertAt(r, k, s[i]);
      assert s[..i + 1] == s[..i] + [s[i]];
      r := r[..k] + [s[i]] + r[k..];
    }
    assert s[..|s|] == s;
  }

  lemma InsertAt(r: seq<Text>, k: nat, x: Text)
    requires Sorted(r) && k <= |r|
    requires k > 0 ==> !Less(x, r[k - 1])
    requires forall j :: k <= j < |r| ==> Less(x, r[j])
    ensures Sorted(r[..k] + [x] + r[k..])
    ensures forall y :: y in r[..k] + [x] + r[k..] <==> y == x || y in r
  {
    assert r == r[..k] + r[k..];
    forall i | 0 <= i < k
      ensures !Less(x, r[i])
    {
      if Less(x, r[i]) {
        LessTotal(r[i], r[k - 1]);
        if i < k - 1 && Less(r[i], r[k - 1]) {
          LessTransitive(x, r[i], r[k - 1]);
        }
      }
    }
    forall j | k <= j < |r|
      ensures !Less(r[j], x)
    {
      if Less(r[j], x) {
        LessTransitive(x, r[j], x);
        LessIrreflexive(x);
      }
    }
  }

  method Dedup(s: seq<Text>) returns (r: seq<Text>)
    requires Sorted(s)
    ensures Ascending(r) && forall x :: x in r <==> x in s
  {
    r := [];
    for i := 0 to |s|
      invariant Ascending(r) && forall x :: x in r <==> x in s[..i]
      invariant if i == 0 then r == [] else r != [] && r[|r| - 1] == s[i - 1]
    {
      assert s[..i + 1] == s[..i] + [s[i]];
      if r == [] || r[|r| - 1] != s[i] {
        if r != [] {
          LessTotal(r[|r| - 1], s[i]);
          AppendAscending(r, s[i]);
        }
        r := r + [s[i]];
      }
    }
    assert s[..|s|] == s;
  }

  lemma AppendAscending(r: seq<Text>, x: Text)
    requires Ascending(r) && r != [] && Less(r[|r| - 1], x)
    ensures Ascending(r + [x])
  {
    forall i | 0 <= i < |r|
      ensures Less(r[i], x)
    {
      if i < |r| - 1 {
        LessTransitive(r[i], r[|r| - 1], x);
      }
    }
  }
}
