/** The mixed-radix counter that walks through all combinations of foreign-key values. */
module Odometer {
  import opened Seqs

  /** A digit and its base. */
  datatype Digit = Digit(cur: nat, base: nat)

  type Index = map<nat, Digit>

  /** The digits at `ks` are below their bases. */
  ghost predicate InRange(ks: seq<nat>, m: Index) {
    forall i :: 0 <= i < |ks| ==> ks[i] in m && m[ks[i]].cur < m[ks[i]].base
  }

  /** The number that the digits at `ks` stand for, the first least significant. */
  ghost function Val(ks: seq<nat>, m: Index): nat
    requires InRange(ks, m)
  {
    if ks == [] then 0 else m[ks[0]].cur + m[ks[0]].base * Val(ks[1..], m)
  }

  /** How many numbers there are. */
  ghost function Size(ks: seq<nat>, m: Index): nat
    requires InRange(ks, m)
  {
    if ks == [] then 1 else m[ks[0]].base * Size(ks[1..], m)
  }

  ghost predicate SameBases(ks: seq<nat>, m: Index, m': Index) {
    forall i :: 0 <= i < |ks| ==> ks[i] in m && ks[i] in m' && m[ks[i]].base == m'[ks[i]].base
  }

  ghost predicate AllZero(ks: seq<nat>, m: Index) {
    forall i :: 0 <= i < |ks| ==> ks[i] in m && m[ks[i]].cur == 0
  }

  lemma {:induction false} ValBounds(ks: seq<nat>, m: Index)
    requires InRange(ks, m)
    ensures Val(ks, m) < Size(ks, m)
  {
    if ks != [] {
      ValBounds(ks[1..], m);
      var b, v, s := m[ks[0]].base, Val(ks[1..], m), Size(ks[1..], m);
      Spaced(b, v, s);
    }
  }

  /** Different digits, different numbers. */
  lemma {:induction false} ValInjective(ks: seq<nat>, m: Index, m': Index)
    requires InRange(ks, m) && InRange(ks, m') && SameBases(ks, m, m') && Val(ks, m) == Val(ks, m')
    ensures forall i :: 0 <= i < |ks| ==> m[ks[i]].cur == m'[ks[i]].cur
  {
    if ks != [] {
      var b := m[ks[0]].base;
      var c, v, c', v' := m[ks[0]].cur, Val(ks[1..], m), m'[ks[0]].cur, Val(ks[1..], m');
      Digits(b, c, v, c', v');
      ValInjective(ks[1..], m, m');
      assert forall i :: 0 < i < |ks| ==> ks[i] == ks[1..][i - 1];
    }
  }

  lemma Digits(b: nat, c: nat, v: nat, c': nat, v': nat)
    requires c < b && c' < b && c + b * v == c' + b * v'
    ensures c == c' && v == v'
  {
    Spaced(b, v, v');
    Spaced(b, v', v);
  }

  lemma Spaced(b: nat, v: nat, w: nat)
    ensures v < w ==> b * v + b <= b * w
  {
    if v < w {
      assert b * (v + 1) <= b * w;
    }
  }

  lemma {:induction false} ZeroVal(ks: seq<nat>, m: Index)
    requires InRange(ks, m) && AllZero(ks, m)
    ensures Val(ks, m) == 0
  {
    if ks != [] {
      assert forall i :: 0 <= i < |ks| - 1 ==> ks[1..][i] == ks[i + 1];
      ZeroVal(ks[1..], m);
    }
  }

  lemma {:induction false} SameSize(ks: seq<nat>, m: Index, m': Index)
    requires InRange(ks, m) && InRange(ks, m') && SameBases(ks, m, m')
    ensures Size(ks, m) == Size(ks, m')
  {
    if ks != [] {
      assert forall i :: 0 <= i < |ks| - 1 ==> ks[1..][i] == ks[i + 1];
      SameSize(ks[1..], m, m');
    }
  }

  // ---- One step

  /**
   * Adding one: the digit turns over with a carry, or takes the increment; true when the carry leaves the last digit.
   */
  function Inc(ks: seq<nat>, m: Index): (r: (Index, bool))
    requires forall i :: 0 <= i < |ks| ==> ks[i] in m
    ensures r.0.Keys == m.Keys
  {
    if ks == [] then (m, true)
    else
      var d := m[ks[0]];
      if d.cur + 1 < d.base then (m[ks[0] := Digit(d.cur + 1, d.base)], false)
      else Inc(ks[1..], m[ks[0] := Digit(0, d.base)])
  }

  lemma {:induction false} ValElsewhere(ks: seq<nat>, m: Index, m': Index)
    requires InRange(ks, m) && forall i :: 0 <= i < |ks| ==> ks[i] in m' && m'[ks[i]] == m[ks[i]]
    ensures InRange(ks, m') && Val(ks, m') == Val(ks, m) && Size(ks, m') == Size(ks, m)
  {
    if ks != [] {
      assert forall i :: 0 <= i < |ks| - 1 ==> ks[1..][i] == ks[i + 1];
      ValElsewhere(ks[1..], m, m');
    }
  }

  lemma {:induction false} IncOthers(ks: seq<nat>, m: Index)
    requires forall i :: 0 <= i < |ks| ==> ks[i] in m
    ensures forall k :: k in m && k !in ks ==> Inc(ks, m).0[k] == m[k]
  {
    if ks != [] && m[ks[0]].cur + 1 >= m[ks[0]].base {
      IncOthers(ks[1..], m[ks[0] := Digit(0, m[ks[0]].base)]);
    }
  }

  /** Adding one makes the number one greater, or all digits zero after the greatest. */
  lemma {:induction false} IncVal(ks: seq<nat>, m: Index)
    requires NoDup(ks) && InRange(ks, m)
    ensures var r := Inc(ks, m); InRange(ks, r.0) && SameBases(ks, m, r.0)
    ensures var r := Inc(ks, m); if r.1 then Val(ks, m) + 1 == Size(ks, m) && AllZero(ks, r.0)
      else Val(ks, r.0) == Val(ks, m) + 1
  {
    if ks != [] {
      var k, rest, d := ks[0], ks[1..], m[ks[0]];
      assert forall i :: 0 <= i < |rest| ==> rest[i] == ks[i + 1] && rest[i] != k;
      if d.cur + 1 < d.base {
        ValElsewhere(rest, m, m[k := Digit(d.cur + 1, d.base)]);
      } else {
        var m1 := m[k := Digit(0, d.base)];
        ValElsewhere(rest, m, m1);
        IncVal(rest, m1);
        IncOthers(rest, m1);
        var r := Inc(rest, m1);
        assert r.0[k] == Digit(0, d.base);
        assert forall i :: 0 <= i < |ks| ==> ks[i] == (if i == 0 then k else rest[i - 1]);
        CarryVal(d.base, Val(rest, m), Size(rest, m), if r.1 then 0 else Val(rest, r.0), r.1);
      }
    }
  }

  lemma CarryVal(b: nat, v: nat, size: nat, v': nat, over: bool)
    requires b > 0 && (over ==> v + 1 == size) && (!over ==> v' == v + 1)
    ensures over ==> (b - 1) + b * v + 1 == b * size
    ensures !over ==> 0 + b * v' == (b - 1) + b * v + 1
  {
    assert b * (v + 1) == b * v + b;
  }

  /** `init_index`: all digits to zero; every base must be positive. */
  method InitIndex(m: Index) returns (m': Index, ret: int)
    requires forall k :: k in m ==> m[k].base > 0
    ensures m'.Keys == m.Keys && ret == (if m == map[] then -1 else 0)
    ensures forall k :: k in m ==> m'[k] == Digit(0, m[k].base)
  {
    if |m| == 0 {
      return m, -1;
    }
    m' := m;
    var todo := m.Keys;
    while todo != {}
      invariant todo <= m.Keys && m'.Keys == m.Keys
      invariant forall k :: k in m ==> m'[k] == if k in todo then m[k] else Digit(0, m[k].base)
    {
      var k :| k in todo;
      m' := m'[k := Digit(0, m'[k].base)];
      todo := todo - {k};
    }
    ret := 0;
  }

  /**
   * The carry loop, over the digits in the order `ks`; `index_increase` and its reverse run it forwards and backwards.
   */
  method Increase(ks: seq<nat>, m: Index) returns (m': Index, ret: int)
    requires NoDup(ks) && InRange(ks, m)
    ensures ret == (if ks == [] || Inc(ks, m).1 then -1 else 0) && m' == Inc(ks, m).0
  {
    if |ks| == 0 {
      return m, -1;
    }
    var i := 0;
    m' := m[ks[0] := Digit(m[ks[0]].cur + 1, m[ks[0]].base)];
    ghost var before := m;
    while m'[ks[i]].cur >= m'[ks[i]].base
      invariant i < |ks| && m'.Keys == before.Keys == m.Keys && InRange(ks, before)
      invariant m' == before[ks[i] := Digit(before[ks[i]].cur + 1, before[ks[i]].base)]
      invariant Inc(ks[i..], before) == Inc(ks, m)
      decreases |ks| - i
    {
      m' := m'[ks[i] := Digit(m'[ks[i]].cur - m'[ks[i]].base, m'[ks[i]].base)];
      before := before[ks[i] := Digit(0, before[ks[i]].base)];
      assert ks[i..][1..] == ks[i + 1..];
      i := i + 1;
      if i == |ks| {
        return m', -1;
      }
      m' := m'[ks[i] := Digit(m'[ks[i]].cur + 1, m'[ks[i]].base)];
    }
    ret := 0;
  }

  // ---- The whole walk

  /** Keys in the order a sorted map iterates over them, forwards or backwards. */
  ghost function InOrder(keys: set<nat>, back: bool): seq<nat> {
    if back then Reverse(Asc(keys)) else Asc(keys)
  }

  method SortedKeys(m: Index, back: bool) returns (ks: seq<nat>)
    ensures ks == InOrder(m.Keys, back)
  {
    ks := [];
    var todo := m.Keys;
    while todo != {}
      invariant todo <= m.Keys && Ascending(ks) && (forall k :: k in m <==> k in ks || k in todo)
      invariant forall i, k :: 0 <= i < |ks| && k in todo ==> ks[i] < k
    {
      var k := Least(todo);
      ks, todo := ks + [k], todo - {k};
    }
    assert Elems(ks) == m.Keys;
    AscUnique(ks, Asc(m.Keys));
    if back {
      ks := Reverse(ks);
    }
  }

  method Least(s: set<nat>) returns (k: nat)
    requires s != {}
    ensures k in s && forall x :: x in s ==> k <= x
  {
    k :| k in s;
    var todo := s - {k};
    while todo != {}
      invariant todo <= s && k in s && forall x :: x in s && x !in todo ==> k <= x
    {
      var x :| x in todo;
      todo := todo - {x};
      if x < k {
        k := x;
      }
    }
  }

  /** Every digit is below its base. */
  ghost predicate Turning(m: Index) {
    forall k :: k in m ==> m[k].cur < m[k].base
  }

  /** The digits tied to the first of `bound`. */
  function TiedKeys(bound: seq<nat>): set<nat> {
    set i | 1 <= i < |bound| :: bound[i]
  }

  /** The digits that run freely, the fastest first. */
  ghost function Free(m: Index, bound: seq<nat>, back: bool): seq<nat> {
    InOrder(m.Keys - TiedKeys(bound), back)
  }

  ghost predicate BoundOk(m: Index, bound: seq<nat>) {
    NoDup(bound) && forall i :: 0 <= i < |bound| ==> bound[i] in m
  }

  /** The tied digits show what the first of them shows. */
  ghost predicate Tied(m: Index, bound: seq<nat>) {
    forall i :: 0 <= i < |bound| ==> bound[i] in m && bound[0] in m && m[bound[i]].cur == m[bound[0]].cur
  }

  /** The tied digits are copies of the first, base included. */
  ghost predicate Copied(m: Index, bound: seq<nat>) {
    forall i :: 0 <= i < |bound| ==> bound[i] in m && bound[0] in m && m[bound[i]] == m[bound[0]]
  }

  lemma OrderOf(m: Index, back: bool)
    requires Turning(m)
    ensures var ks := InOrder(m.Keys, back);
      NoDup(ks) && InRange(ks, m) && forall k :: k in ks <==> k in m
  {
    var ks := InOrder(m.Keys, back);
    forall k
      ensures k in ks <==> k in m
    {
      OrderHas(m.Keys, back, k);
    }
    assert forall i :: 0 <= i < |ks| ==> ks[i] in ks;
  }

  lemma OrderHas(keys: set<nat>, back: bool, k: nat)
    ensures k in InOrder(keys, back) <==> k in keys
  {
    var up, ks := Asc(keys), InOrder(keys, back);
    assert k in up <==> k in Elems(up);
    if k in up {
      var i :| 0 <= i < |up| && up[i] == k;
      assert ks[if back then |up| - 1 - i else i] == k;
    }
  }

  // ---- One step, digit by digit

  /** The digit shows its last value. */
  ghost predicate Full(d: Digit) {
    d.cur + 1 == d.base
  }

  /** The digit at `q` runs faster than that at `k`: forwards smaller keys do, backwards greater ones. */
  ghost predicate Faster(back: bool, q: nat, k: nat) {
    if back then k < q else q < k
  }

  /** A digit moves on, to zero after its last value, exactly when all faster ones show their last values. */
  ghost predicate Moves(m: Index, keys: set<nat>, back: bool, k: nat, d: Digit) {
    k in m && d == if forall q :: q in keys && q in m && Faster(back, q, k) ==> Full(m[q])
                   then Digit(if Full(m[k]) then 0 else m[k].cur + 1, m[k].base) else m[k]
  }

  lemma {:induction false} IncDigit(ks: seq<nat>, m: Index, i: nat)
    requires NoDup(ks) && InRange(ks, m) && i < |ks|
    ensures (forall j :: 0 <= j < i ==> Full(m[ks[j]])) ==>
      Inc(ks, m).0[ks[i]] == Digit(if Full(m[ks[i]]) then 0 else m[ks[i]].cur + 1, m[ks[i]].base)
    ensures !(forall j :: 0 <= j < i ==> Full(m[ks[j]])) ==> Inc(ks, m).0[ks[i]] == m[ks[i]]
  {
    var k, rest, d := ks[0], ks[1..], m[ks[0]];
    assert forall j :: 0 <= j < |rest| ==> rest[j] == ks[j + 1] && rest[j] != k;
    if Full(d) {
      var m1 := m[k := Digit(0, d.base)];
      if i == 0 {
        IncOthers(rest, m1);
      } else {
        IncDigit(rest, m1, i - 1);
        assert (forall j :: 0 <= j < i - 1 ==> Full(m1[rest[j]])) <==> (forall j :: 0 <= j < i ==> Full(m[ks[j]])) by {
          assert forall j :: 0 < j < i ==> ks[j] == rest[j - 1];
        }
      }
    }
  }

  lemma {:induction false} IncOver(ks: seq<nat>, m: Index)
    requires NoDup(ks) && InRange(ks, m)
    ensures Inc(ks, m).1 <==> forall i :: 0 <= i < |ks| ==> Full(m[ks[i]])
  {
    if ks != [] && Full(m[ks[0]]) {
      var rest, m1 := ks[1..], m[ks[0] := Digit(0, m[ks[0]].base)];
      assert forall j :: 0 <= j < |rest| ==> rest[j] == ks[j + 1] && m1[rest[j]] == m[ks[j + 1]];
      IncOver(rest, m1);
      assert forall j :: 0 < j < |ks| ==> ks[j] == rest[j - 1];
    }
  }

  /** The digits before place `i` are the faster ones. */
  lemma FasterFirst(keys: set<nat>, back: bool, i: nat, q: nat)
    requires i < |InOrder(keys, back)|
    ensures var ks := InOrder(keys, back);
      q in keys && Faster(back, q, ks[i]) <==> exists j :: 0 <= j < i && ks[j] == q
  {
    var up, ks := Asc(keys), InOrder(keys, back);
    var n := |up|;
    if q in keys && Faster(back, q, ks[i]) {
      assert q in Elems(up);
      var p :| 0 <= p < n && up[p] == q;
      assert ks[if back then n - 1 - p else p] == q;
    }
    if j :| 0 <= j < i && ks[j] == q {
      assert ks[j] == up[if back then n - 1 - j else j];
      assert q in Elems(up);
    }
  }

  /** What a step does, without the carry loop: every digit of `keys` moves when all faster ones are full. */
  lemma StepDigits(m: Index, keys: set<nat>, back: bool)
    requires keys <= m.Keys && Turning(m) && NoDup(InOrder(keys, back)) && InRange(InOrder(keys, back), m)
    requires forall k :: k in InOrder(keys, back) <==> k in keys
    ensures forall k :: k in keys ==> Moves(m, keys, back, k, Inc(InOrder(keys, back), m).0[k])
    ensures Inc(InOrder(keys, back), m).1 <==> forall k :: k in keys ==> Full(m[k])
  {
    hide InOrder, Inc;
    var ks := InOrder(keys, back);
    forall k | k in keys
      ensures Moves(m, keys, back, k, Inc(ks, m).0[k])
    {
      assert k in ks;
      var i :| 0 <= i < |ks| && ks[i] == k;
      IncDigit(ks, m, i);
      forall q
        ensures q in keys && Faster(back, q, k) <==> exists j :: 0 <= j < i && ks[j] == q
      {
        FasterFirst(keys, back, i, q);
      }
      assert forall j :: 0 <= j < i ==> ks[j] in ks;
    }
    IncOver(ks, m);
    assert forall i :: 0 <= i < |ks| ==> ks[i] in ks;
  }

  /** `index_increase` without tied digits, and its reverse. */
  method IncreaseAll(m: Index, back: bool) returns (m': Index, ret: int)
    requires Turning(m)
    ensures var ks := InOrder(m.Keys, back);
      && (forall k :: k in ks <==> k in m) && m' == Inc(ks, m).0 && Turning(m')
      && ret == if ks == [] || Inc(ks, m).1 then -1 else 0
    ensures forall k :: k in m ==> k in m' && Moves(m, m.Keys, back, k, m'[k])
    ensures ret == if forall k :: k in m ==> Full(m[k]) then -1 else 0
  {
    hide InOrder, Inc, Moves;
    OrderOf(m, back);
    StepDigits(m, m.Keys, back);
    var ks := SortedKeys(m, back);
    IncVal(ks, m);
    m', ret := Increase(ks, m);
    assert forall i :: 0 <= i < |ks| ==> ks[i] in ks;
    assert forall k :: k in m' ==> exists i :: 0 <= i < |ks| && ks[i] == k;
  }

  /** The tied digits come back as copies of the first. */
  method Follow(m: Index, bound: seq<nat>) returns (m': Index)
    requires |bound| > 1 && NoDup(bound) && bound[0] in m && Turning(m)
    ensures m'.Keys == m.Keys + TiedKeys(bound) && Turning(m') && Copied(m', bound)
    ensures forall k :: k in m && k !in TiedKeys(bound) ==> m'[k] == m[k]
  {
    m' := m;
    for i := 1 to |bound|
      invariant m'.Keys == m.Keys + TiedKeys(bound[..i]) && m'[bound[0]] == m[bound[0]] && Turning(m')
      invariant forall k :: k in m && k !in TiedKeys(bound) ==> m'[k] == m[k]
      invariant forall j :: 0 <= j < i ==> bound[j] in m' && m'[bound[j]] == m[bound[0]]
    {
      TiedNext(bound, i);
      m' := m'[bound[i] := m'[bound[0]]];
    }
    assert bound[..|bound|] == bound;
  }

  lemma TiedNext(bound: seq<nat>, i: nat)
    requires 1 <= i < |bound|
    ensures TiedKeys(bound[..i + 1]) == TiedKeys(bound[..i]) + {bound[i]} && bound[i] in TiedKeys(bound)
  {
    var l, r := TiedKeys(bound[..i + 1]), TiedKeys(bound[..i]) + {bound[i]};
    forall k | k in l
      ensures k in r
    {
      var j :| 1 <= j < i + 1 && bound[..i + 1][j] == k;
      assert j < i ==> bound[..i][j] == k;
    }
    forall k | k in r
      ensures k in l
    {
      if k != bound[i] {
        var j :| 1 <= j < i && bound[..i][j] == k;
        assert bound[..i + 1][j] == k;
      } else {
        assert bound[..i + 1][i] == k;
      }
    }
  }

  /** The bound forms: the tied digits are taken out, the others advance, and the tied ones follow the first. */
  method IndexIncrease(m: Index, bound: seq<nat>, back: bool) returns (m': Index, ret: int)
    requires Turning(m) && BoundOk(m, bound)
    ensures FreeOk(m, bound, back) && m'.Keys == m.Keys && Turning(m') && (|bound| > 1 ==> Copied(m', bound))
    ensures var ks := Free(m, bound, back);
      && ret == (if ks == [] || Inc(ks, m).1 then -1 else 0)
      && forall k :: k in ks ==> m'[k] == Inc(ks, m).0[k]
    ensures var free := m.Keys - TiedKeys(bound);
      && (forall k :: k in free ==> Moves(m, free, back, k, m'[k]))
      && ret == if forall k :: k in free ==> Full(m[k]) then -1 else 0
  {
    hide InOrder, Inc, Copied, Moves;
    FreeIs(m, bound, back);
    StepDigits(m, m.Keys - TiedKeys(bound), back);
    if |bound| <= 1 {
      m', ret := IncreaseAll(m, back);
    } else {
      var free := m - TiedKeys(bound);
      IncAgrees(Free(m, bound, back), free, m);
      m', ret := IncreaseAll(free, back);
      m' := Follow(m', bound);
    }
  }

  ghost predicate FreeOk(m: Index, bound: seq<nat>, back: bool) {
    var ks := Free(m, bound, back);
    NoDup(ks) && InRange(ks, m) && forall k :: k in ks <==> k in m && k !in TiedKeys(bound)
  }

  lemma FreeIs(m: Index, bound: seq<nat>, back: bool)
    requires Turning(m) && BoundOk(m, bound)
    ensures FreeOk(m, bound, back) && (|bound| > 0 ==> bound[0] !in TiedKeys(bound))
    ensures |bound| <= 1 ==> Free(m, bound, back) == InOrder(m.Keys, back)
    ensures (m - TiedKeys(bound)).Keys == m.Keys - TiedKeys(bound)
    ensures m.Keys - TiedKeys(bound) + TiedKeys(bound) == m.Keys
  {
    hide InOrder;
    var free := m - TiedKeys(bound);
    assert free.Keys == m.Keys - TiedKeys(bound);
    OrderOf(free, back);
    if |bound| <= 1 {
      assert TiedKeys(bound) == {};
      assert m.Keys - TiedKeys(bound) == m.Keys;
    }
  }

  /** The step looks at the free digits only. */
  lemma {:induction false} IncAgrees(ks: seq<nat>, m: Index, n: Index)
    requires NoDup(ks) && forall i :: 0 <= i < |ks| ==> ks[i] in m && ks[i] in n && m[ks[i]] == n[ks[i]]
    ensures Inc(ks, m).1 == Inc(ks, n).1 && forall k :: k in ks ==> Inc(ks, m).0[k] == Inc(ks, n).0[k]
  {
    if ks != [] {
      var k, d := ks[0], m[ks[0]];
      if d.cur + 1 >= d.base {
        var m1, n1 := m[k := Digit(0, d.base)], n[k := Digit(0, d.base)];
        assert forall i :: 0 <= i < |ks| - 1 ==> ks[1..][i] == ks[i + 1];
        IncAgrees(ks[1..], m1, n1);
        IncOthers(ks[1..], m1);
        IncOthers(ks[1..], n1);
        assert ks == [k] + ks[1..];
      }
    }
  }

  ghost predicate At(ks: seq<nat>, m0: Index, m: Index, n: nat) {
    InRange(ks, m0) && InRange(ks, m) && SameBases(ks, m0, m) && Val(ks, m) == n
  }

  ghost function Start(m: Index): Index {
    map k | k in m :: Digit(0, m[k].base)
  }

  /** The states met: the counter shows 0, 1, 2, ... with the tied digits in step. */
  ghost predicate Met(ks: seq<nat>, m0: Index, bound: seq<nat>, visited: seq<Index>) {
    forall i :: 0 <= i < |visited| ==> At(ks, m0, visited[i], i) && Tied(visited[i], bound)
  }

  lemma MeetNext(ks: seq<nat>, m0: Index, bound: seq<nat>, visited: seq<Index>, m: Index)
    requires Met(ks, m0, bound, visited) && At(ks, m0, m, |visited|) && Tied(m, bound)
    ensures Met(ks, m0, bound, visited + [m])
  {
  }

  /**
   * The states from `init_index` on, until the counter says that it is through: as many as the free bases multiply to,
   * and then every digit, tied or free, is back to zero.
   */
  method Walk(m: Index, bound: seq<nat>, back: bool) returns (visited: seq<Index>, last: Index)
    requires (forall k :: k in m ==> m[k].base > 0) && BoundOk(m, bound) && m != map[]
    ensures FreeOk(Start(m), bound, back) && |visited| == Size(Free(Start(m), bound, back), Start(m))
    ensures Met(Free(Start(m), bound, back), Start(m), bound, visited)
    ensures last.Keys == m.Keys && forall k :: k in last ==> last[k].cur == 0
  {
    var cur, ret := InitIndex(m);
    assert cur == Start(m);
    ghost var ks, m0 := Free(cur, bound, back), cur;
    Beginning(m0, bound, back);
    hide InOrder, Inc, Val, Size, At, Met, Tied, Copied;
    visited := [cur];
    while true
      invariant |visited| > 0 && cur.Keys == m.Keys && Turning(cur) && |visited| <= Size(ks, m0)
      invariant At(ks, m0, cur, |visited| - 1)
      invariant Met(ks, m0, bound, visited)
      decreases Size(ks, m0) - |visited|
    {
      ghost var before := cur;
      FreeIs(cur, bound, back);
      cur, ret := IndexIncrease(cur, bound, back);
      WalkStep(ks, m0, before, cur, |visited| - 1);
      TiedAnyway(cur, bound);
      if ret != 0 {
        last := cur;
        ZeroAnyway(ks, m0, bound, last, back);
        return;
      }
      MeetNext(ks, m0, bound, visited, cur);
      visited := visited + [cur];
    }
  }

  lemma Beginning(m0: Index, bound: seq<nat>, back: bool)
    requires Turning(m0) && BoundOk(m0, bound) && m0 != map[] && forall k :: k in m0 ==> m0[k].cur == 0
    ensures var ks := Free(m0, bound, back);
      && FreeOk(m0, bound, back) && ks != [] && Size(ks, m0) > 0
      && At(ks, m0, m0, 0) && Met(ks, m0, bound, [m0])
  {
    hide InOrder;
    FreeIs(m0, bound, back);
    var ks := Free(m0, bound, back);
    ZeroVal(ks, m0);
    ValBounds(ks, m0);
    if |bound| > 0 {
      assert bound[0] in ks;
    } else {
      var k :| k in m0;
      assert k in ks;
    }
  }

  lemma TiedAnyway(m: Index, bound: seq<nat>)
    requires BoundOk(m, bound) && (|bound| > 1 ==> Copied(m, bound))
    ensures Tied(m, bound)
  {
  }

  /** With the free digits zero the tied ones are too. */
  lemma ZeroAnyway(ks: seq<nat>, m0: Index, bound: seq<nat>, last: Index, back: bool)
    requires FreeOk(m0, bound, back) && ks == Free(m0, bound, back) && BoundOk(m0, bound) && last.Keys == m0.Keys
    requires AllZero(ks, last) && Tied(last, bound)
    ensures forall k :: k in last ==> last[k].cur == 0
  {
    hide InOrder;
    forall k | k in last
      ensures last[k].cur == 0
    {
      if k in TiedKeys(bound) {
        var i :| 1 <= i < |bound| && bound[i] == k;
        assert bound[0] !in TiedKeys(bound);
        assert bound[0] in ks;
      } else {
        assert k in ks;
      }
    }
  }

  lemma WalkStep(ks: seq<nat>, m0: Index, m: Index, m': Index, n: nat)
    requires NoDup(ks) && At(ks, m0, m, n) && m'.Keys == m.Keys
    requires forall k :: k in ks ==> k in m' && m'[k] == Inc(ks, m).0[k]
    ensures if Inc(ks, m).1 then n + 1 == Size(ks, m0) && AllZero(ks, m')
      else At(ks, m0, m', n + 1) && n + 1 < Size(ks, m0)
  {
    IncVal(ks, m);
    var r := Inc(ks, m).0;
    assert forall i :: 0 <= i < |ks| ==> ks[i] in ks;
    SameSize(ks, m0, m);
    if !Inc(ks, m).1 {
      ValElsewhere(ks, r, m');
      ValBounds(ks, m');
      SameSize(ks, m0, m');
    }
  }

  /** Every combination of free digits is met exactly once on the walk. */
  lemma EveryTupleOnce(ks: seq<nat>, m0: Index, visited: seq<Index>, x: Index)
    requires InRange(ks, m0) && InRange(ks, x) && SameBases(ks, m0, x) && |visited| == Size(ks, m0)
    requires forall i :: 0 <= i < |visited| ==> At(ks, m0, visited[i], i)
    ensures Val(ks, x) < |visited| && SameDigits(ks, visited[Val(ks, x)], x)
    ensures forall i :: 0 <= i < |visited| && SameDigits(ks, visited[i], x) ==> i == Val(ks, x)
  {
    ValBounds(ks, x);
    SameSize(ks, m0, x);
    var n := Val(ks, x);
    assert At(ks, m0, visited[n], n);
    ValInjective(ks, visited[n], x);
    forall i | 0 <= i < |visited| && SameDigits(ks, visited[i], x)
      ensures i == n
    {
      assert At(ks, m0, visited[i], i);
      ValElsewhere(ks, visited[i], x);
    }
  }

  ghost predicate SameDigits(ks: seq<nat>, m: Index, x: Index) {
    forall i :: 0 <= i < |ks| ==> ks[i] in m && ks[i] in x && m[ks[i]].cur == x[ks[i]].cur
  }
}
