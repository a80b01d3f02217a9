/** The order of multi-column keys in a sorted table. */
module KeyOrder {
  import opened IndexSpec

  /** Keys of one schema have the same kinds of values in the same places. */
  predicate SameKinds(a: Key, b: Key) {
    |a| == |b| && forall i :: 0 <= i < |a| ==> (a[i].Num? <==> b[i].Num?) && (a[i].Dbl? <==> b[i].Dbl?)
  }

  /** Byte strings in dictionary order, a proper prefix first. */
  function CmpBytes(s: seq<nat>, t: seq<nat>): int {
    if s == [] then (if t == [] then 0 else -1)
    else if t == [] then 1
    else if s[0] < t[0] then -1
    else if s[0] > t[0] then 1
    else CmpBytes(s[1..], t[1..])
  }

  function CmpValue(a: Value, b: Value): int
    requires (a.Num? <==> b.Num?) && (a.Dbl? <==> b.Dbl?)
  {
    match a
    case Num(n) => if n < b.n then -1 else if n > b.n then 1 else 0
    case Dbl(d) => if d < b.d then -1 else if d > b.d then 1 else 0
    case Str(s) => CmpBytes(s, b.s)
  }

  /** Columns are compared from the first; the first difference decides. */
  function Cmp(a: Key, b: Key): int
    requires SameKinds(a, b)
  {
    if a == [] then 0
    else
      var c := CmpValue(a[0], b[0]);
      if c != 0 then c else Cmp(a[1..], b[1..])
  }

  // ---- The order without recursion: the first difference decides

  ghost predicate BytesBelowAt(s: seq<nat>, t: seq<nat>, i: nat) {
    i <= |s| && i < |t| && s[..i] == t[..i] && (i == |s| || s[i] < t[i])
  }

  /** `s` is a proper prefix of `t`, or has the smaller byte where they first differ. */
  ghost predicate BytesBelow(s: seq<nat>, t: seq<nat>) {
    exists i: nat :: BytesBelowAt(s, t, i)
  }

  ghost predicate ValueBelow(a: Value, b: Value) {
    match a
    case Num(n) => b.Num? && n < b.n
    case Dbl(d) => b.Dbl? && d < b.d
    case Str(s) => b.Str? && BytesBelow(s, b.s)
  }

  ghost predicate KeyBelowAt(a: Key, b: Key, i: nat) {
    i < |a| && i < |b| && a[..i] == b[..i] && ValueBelow(a[i], b[i])
  }

  /** In the first column where they differ, `a` has the smaller value. */
  ghost predicate KeyBelow(a: Key, b: Key) {
    exists i: nat :: KeyBelowAt(a, b, i)
  }

  lemma SameStart<T>(s: seq<T>, t: seq<T>, i: nat)
    requires i <= |s| && i <= |t| && s[..i] == t[..i]
    ensures i > 0 ==> s != [] && t != [] && s[0] == t[0]
  {
    if i > 0 {
      assert s[0] == s[..i][0] && t[0] == t[..i][0];
    }
  }

  lemma {:induction false} BytesExact(s: seq<nat>, t: seq<nat>)
    ensures CmpBytes(s, t) < 0 <==> BytesBelow(s, t)
  {
    if s == [] || t == [] || s[0] != t[0] {
      if CmpBytes(s, t) < 0 {
        assert BytesBelowAt(s, t, 0);
      }
      if i: nat :| BytesBelowAt(s, t, i) {
        SameStart(s, t, i);
      }
    } else {
      BytesExact(s[1..], t[1..]);
      if i: nat :| BytesBelowAt(s[1..], t[1..], i) {
        assert s[..i + 1] == [s[0]] + s[1..][..i] && t[..i + 1] == [t[0]] + t[1..][..i];
        assert BytesBelowAt(s, t, i + 1);
      }
      if i: nat :| BytesBelowAt(s, t, i) {
        assert s[1..][..i - 1] == s[..i][1..] && t[1..][..i - 1] == t[..i][1..];
        assert BytesBelowAt(s[1..], t[1..], i - 1);
      }
    }
  }

  /** The comparison tells apart what differs, and which is below. */
  lemma {:induction false} CmpExact(a: Key, b: Key)
    requires SameKinds(a, b)
    ensures Cmp(a, b) < 0 <==> KeyBelow(a, b)
  {
    hide CmpBytes, BytesBelow;
    if a != [] {
      ValueExact(a[0], b[0]);
      if CmpValue(a[0], b[0]) != 0 {
        if CmpValue(a[0], b[0]) < 0 {
          assert KeyBelowAt(a, b, 0);
        }
        if i: nat :| KeyBelowAt(a, b, i) {
          SameStart(a, b, i);
        }
      } else {
        CmpExact(a[1..], b[1..]);
        if i: nat :| KeyBelowAt(a[1..], b[1..], i) {
          assert a[..i + 1] == [a[0]] + a[1..][..i] && b[..i + 1] == [b[0]] + b[1..][..i];
          assert KeyBelowAt(a, b, i + 1);
        }
        if i: nat :| KeyBelowAt(a, b, i) {
          assert a[1..][..i - 1] == a[..i][1..] && b[1..][..i - 1] == b[..i][1..];
          assert KeyBelowAt(a[1..], b[1..], i - 1);
        }
      }
    }
  }

  lemma ValueExact(a: Value, b: Value)
    requires SameKinds([a], [b])
    ensures (a.Num? <==> b.Num?) && (a.Dbl? <==> b.Dbl?)
    ensures CmpValue(a, b) < 0 <==> ValueBelow(a, b)
    ensures CmpValue(a, b) == 0 <==> a == b
  {
    assert [a][0] == a && [b][0] == b;
    if a.Str? {
      BytesExact(a.s, b.s);
      BytesOrder(a.s, b.s, b.s);
    }
  }

  /** `memcmp` over the common length, then the lengths. */
  method CompareStrings(s: seq<nat>, t: seq<nat>) returns (c: int)
    ensures c == CmpBytes(s, t)
  {
    var min := if |s| < |t| then |s| else |t|;
    var i := 0;
    while i < min
      invariant i <= min && CmpBytes(s[i..], t[i..]) == CmpBytes(s, t)
    {
      if s[i] < t[i] {
        return -1;
      } else if s[i] > t[i] {
        return 1;
      }
      assert s[i..][1..] == s[i + 1..] && t[i..][1..] == t[i + 1..];
      i := i + 1;
    }
    if |s| < |t| {
      return -1;
    } else if |s| > |t| {
      return 1;
    }
    c := 0;
  }

  /** `SortedMultiKey::compare`. */
  method Compare(a: Key, b: Key) returns (c: int)
    requires SameKinds(a, b)
    ensures c == Cmp(a, b)
    ensures (c == 0 <==> a == b) && (c < 0 <==> KeyBelow(a, b)) && (c > 0 <==> KeyBelow(b, a))
  {
    Trichotomy(a, b);
    var i := 0;
    while i < |a|
      invariant i <= |a| && SameKinds(a[i..], b[i..]) && Cmp(a[i..], b[i..]) == Cmp(a, b)
    {
      assert a[i..][1..] == a[i + 1..] && b[i..][1..] == b[i + 1..];
      match a[i] {
        case Num(n) =>
          if n < b[i].n {
            return -1;
          } else if n > b[i].n {
            return 1;
          }
        case Dbl(d) =>
          if d < b[i].d {
            return -1;
          } else if d > b[i].d {
            return 1;
          }
        case Str(s) =>
          var cmp := CompareStrings(s, b[i].s);
          if cmp < 0 {
            CmpSigns(s, b[i].s);
            return -1;
          } else if cmp > 0 {
            CmpSigns(s, b[i].s);
            return 1;
          }
      }
      i := i + 1;
    }
    c := 0;
  }

  lemma Trichotomy(a: Key, b: Key)
    requires SameKinds(a, b)
    ensures (Cmp(a, b) == 0 <==> a == b) && (Cmp(a, b) < 0 <==> KeyBelow(a, b)) && (Cmp(a, b) > 0 <==> KeyBelow(b, a))
  {
    hide Cmp, KeyBelow;
    KeysOrdered(a, b, a);
    CmpExact(a, b);
    CmpExact(b, a);
  }

  lemma {:induction false} CmpSigns(s: seq<nat>, t: seq<nat>)
    ensures -1 <= CmpBytes(s, t) <= 1
  {
    if s != [] && t != [] {
      CmpSigns(s[1..], t[1..]);
    }
  }

  lemma {:induction false} BytesOrder(s: seq<nat>, t: seq<nat>, u: seq<nat>)
    ensures CmpBytes(s, t) == 0 <==> s == t
    ensures CmpBytes(s, t) == -CmpBytes(t, s)
    ensures CmpBytes(s, t) <= 0 && CmpBytes(t, u) <= 0 ==> CmpBytes(s, u) <= 0
  {
    if s != [] && t != [] {
      BytesOrder(s[1..], t[1..], if u == [] then [] else u[1..]);
      assert s == [s[0]] + s[1..] && t == [t[0]] + t[1..];
    }
  }

  lemma ValueOrder(a: Value, b: Value, c: Value)
    requires SameKinds([a], [b]) && SameKinds([b], [c])
    ensures (a.Num? <==> b.Num?) && (a.Dbl? <==> b.Dbl?) && (b.Num? <==> c.Num?) && (b.Dbl? <==> c.Dbl?)
    ensures CmpValue(a, b) == 0 <==> a == b
    ensures CmpValue(a, b) == -CmpValue(b, a)
    ensures CmpValue(a, b) <= 0 && CmpValue(b, c) <= 0 ==> CmpValue(a, c) <= 0
  {
    assert [a][0] == a && [b][0] == b && [c][0] == c;
    if a.Str? {
      BytesOrder(a.s, b.s, c.s);
    }
  }

  /** Keys are totally ordered: what a sorted multimap needs for its bounds to mean anything. */
  lemma {:induction false} KeysOrdered(a: Key, b: Key, c: Key)
    requires SameKinds(a, b) && SameKinds(b, c)
    ensures Cmp(a, b) == 0 <==> a == b
    ensures Cmp(a, b) == -Cmp(b, a)
    ensures Cmp(a, b) <= 0 && Cmp(b, c) <= 0 ==> Cmp(a, c) <= 0
  {
    if a != [] {
      ValueOrder(a[0], b[0], c[0]);
      ValueOrder(b[0], c[0], a[0]);
      ValueOrder(a[0], c[0], b[0]);
      KeysOrdered(a[1..], b[1..], c[1..]);
      assert a == [a[0]] + a[1..] && b == [b[0]] + b[1..];
    }
  }
}
