/** XXH32: the hash of a byte string, computed at once or fed in pieces. */
module Xxh32 {

  const PRIME32_1: bv32 := 2654435761
  const PRIME32_2: bv32 := 2246822519
  const PRIME32_3: bv32 := 3266489917
  const PRIME32_4: bv32 := 668265263
  const PRIME32_5: bv32 := 374761393

  type Bytes = seq<bv8>

  /** The four accumulators. */
  datatype Acc = Acc(v1: bv32, v2: bv32, v3: bv32, v4: bv32)

  // ---- The algorithm, as sections of the xxHash description define it

  /** Arithmetic on unsigned 32-bit words, wrapping around. */
  function Add(x: bv32, y: bv32): bv32 {
    x + y
  }

  function Mul(x: bv32, y: bv32): bv32 {
    x * y
  }

  function XorShift(x: bv32, r: nat): bv32
    requires r < 32
  {
    x ^ (x >> r)
  }

  function Rotl(x: bv32, r: nat): bv32
    requires 0 < r < 32
  {
    (x << r) | (x >> (32 - r))
  }

  function LittleEndian(b0: bv8, b1: bv8, b2: bv8, b3: bv8): bv32 {
    (b0 as bv32) | ((b1 as bv32) << 8) | ((b2 as bv32) << 16) | ((b3 as bv32) << 24)
  }

  function ReadLE32(b: Bytes, i: nat): bv32
    requires i + 4 <= |b|
  {
    LittleEndian(b[i], b[i + 1], b[i + 2], b[i + 3])
  }

  function Init(seed: bv32): Acc {
    Acc(Add(Add(seed, PRIME32_1), PRIME32_2), Add(seed, PRIME32_2), Add(seed, 0), seed - PRIME32_1)
  }

  function Lane(v: bv32, word: bv32): bv32 {
    Mul(Rotl(Add(v, Mul(word, PRIME32_2)), 13), PRIME32_1)
  }

  /** One stripe of 16 bytes, at offset `i`. */
  function Stripe(a: Acc, b: Bytes, i: nat): Acc
    requires i + 16 <= |b|
  {
    Acc(Lane(a.v1, ReadLE32(b, i)), Lane(a.v2, ReadLE32(b, i + 4)), Lane(a.v3, ReadLE32(b, i + 8)),
      Lane(a.v4, ReadLE32(b, i + 12)))
  }

  /** All whole stripes, from the front. */
  function Stripes(a: Acc, b: Bytes): Acc
    decreases |b|
  {
    if |b| < 16 then a else Stripes(Stripe(a, b[..16], 0), b[16..])
  }

  function Converge(a: Acc): bv32 {
    Add(Add(Add(Rotl(a.v1, 1), Rotl(a.v2, 7)), Rotl(a.v3, 12)), Rotl(a.v4, 18))
  }

  function Word(h: bv32, word: bv32): bv32 {
    Mul(Rotl(Add(h, Mul(word, PRIME32_3)), 17), PRIME32_4)
  }

  function Byte(h: bv32, byte: bv8): bv32 {
    Mul(Rotl(Add(h, Mul(byte as bv32, PRIME32_5)), 11), PRIME32_1)
  }

  /** What is left after the stripes: whole words, then single bytes. */
  function Rest(h: bv32, b: Bytes): bv32
    decreases |b|
  {
    if |b| >= 4 then Rest(Word(h, ReadLE32(b[..4], 0)), b[4..])
    else if |b| > 0 then Rest(Byte(h, b[0]), b[1..])
    else h
  }

  function Avalanche(h0: bv32): bv32 {
    XorShift(Mul(XorShift(Mul(XorShift(h0, 15), PRIME32_2), 13), PRIME32_3), 16)
  }

  /** A length as 32 bits. */
  function Len32(n: nat): bv32 {
    (n % 0x1_0000_0000) as bv32
  }

  /** The length of the part that goes through the stripes. */
  function Whole(n: nat): nat {
    n - n % 16
  }

  function Start(seed: bv32, b: Bytes): bv32 {
    if |b| >= 16 then Converge(Stripes(Init(seed), b)) else Add(seed, PRIME32_5)
  }

  function Hash(b: Bytes, seed: bv32): bv32 {
    Avalanche(Rest(Add(Start(seed, b), Len32(|b|)), b[Whole(|b|)..]))
  }

  // ---- Stripes compose

  /** Only whole stripes count. */
  lemma {:induction false} StripesWhole(a: Acc, b: Bytes)
    ensures Stripes(a, b) == Stripes(a, b[..Whole(|b|)])
    decreases |b|
  {
    hide Stripe;
    if |b| >= 16 {
      StripesWhole(Stripe(a, b[..16], 0), b[16..]);
      var w := b[..Whole(|b|)];
      assert |b[16..]| % 16 == |b| % 16;
      assert w[..16] == b[..16] && w[16..] == b[16..][..Whole(|b[16..]|)];
    } else {
      assert Whole(|b|) == 0;
    }
  }

  /** A string of whole stripes, then another. */
  lemma {:induction false} StripesSplit(a: Acc, b: Bytes, c: Bytes)
    requires |b| % 16 == 0
    ensures Stripes(a, b + c) == Stripes(Stripes(a, b), c)
    decreases |b|
  {
    hide Stripe;
    if b == [] {
      assert b + c == c;
    } else {
      assert |b| >= 16 && |b[16..]| % 16 == 0;
      StripesSplit(Stripe(a, b[..16], 0), b[16..], c);
      assert (b + c)[..16] == b[..16] && (b + c)[16..] == b[16..] + c;
    }
  }

  lemma StripesNext(a: Acc, b: Bytes, i: nat)
    requires i % 16 == 0 && i + 16 <= |b|
    ensures Stripes(a, b[..i + 16]) == Stripe(Stripes(a, b[..i]), b, i)
  {
    assert b[..i + 16] == b[..i] + b[i..i + 16];
    StripesSplit(a, b[..i], b[i..i + 16]);
    var s := b[i..i + 16];
    assert s[..16] == s && s[16..] == [];
    StripeAt(Stripes(a, b[..i]), b, i, s);
  }

  lemma StripeAt(a: Acc, b: Bytes, i: nat, s: Bytes)
    requires i + 16 <= |b| && s == b[i..i + 16]
    ensures Stripe(a, b, i) == Stripe(a, s, 0)
  {
    hide Lane, ReadLE32;
    ReadAt(b, i, s, 0);
    ReadAt(b, i, s, 4);
    ReadAt(b, i, s, 8);
    ReadAt(b, i, s, 12);
  }

  lemma ReadAt(b: Bytes, i: nat, s: Bytes, k: nat)
    requires i + |s| <= |b| && s == b[i..i + |s|] && k + 4 <= |s|
    ensures ReadLE32(b, i + k) == ReadLE32(s, k)
  {
    assert s[k] == b[i + k] && s[k + 1] == b[i + k + 1] && s[k + 2] == b[i + k + 2] && s[k + 3] == b[i + k + 3];
  }

  lemma RestWord(h: bv32, b: Bytes, i: nat)
    requires i + 4 <= |b|
    ensures Rest(h, b[i..]) == Rest(Word(h, ReadLE32(b, i)), b[i + 4..])
  {
    hide ReadLE32, Word;
    var s := b[i..];
    assert s[..4] == b[i..i + 4] && s[4..] == b[i + 4..];
    ReadAt(b, i, s[..4], 0);
  }

  lemma RestByte(h: bv32, b: Bytes, i: nat)
    requires i < |b| < i + 4
    ensures Rest(h, b[i..]) == Rest(Byte(h, b[i]), b[i + 1..])
  {
    hide Byte, Word;
    assert b[i..][1..] == b[i + 1..];
  }

  // ---- Which bytes reach which accumulator

  function Nth(a: Acc, j: nat): bv32
    requires j < 4
  {
    if j == 0 then a.v1 else if j == 1 then a.v2 else if j == 2 then a.v3 else a.v4
  }

  /** One accumulator through all stripes: of each it takes the word at the offset `k`. */
  function LaneOver(v: bv32, b: Bytes, k: nat): bv32
    requires k <= 12
    decreases |b|
  {
    if |b| < 16 then v else LaneOver(Lane(v, ReadLE32(b, k)), b[16..], k)
  }

  /** The accumulators never mix: number `j` is fed the bytes `4 j` to `4 j + 3` of each stripe and nothing else. */
  lemma {:induction false} StripesByLane(a: Acc, b: Bytes, j: nat)
    requires j < 4
    ensures Nth(Stripes(a, b), j) == LaneOver(Nth(a, j), b, 4 * j)
    decreases |b|
  {
    hide Lane, ReadLE32;
    if |b| >= 16 {
      var s := b[..16];
      ReadAt(b, 0, s, 4 * j);
      StripesByLane(Stripe(a, s, 0), b[16..], j);
    }
  }

  /** After one stripe an accumulator depends on its own value and its own four bytes alone. */
  lemma LaneLocal(a: Acc, b: Bytes, a': Acc, b': Bytes, j: nat)
    requires j < 4 && |b| >= 16 && |b'| >= 16
    requires Nth(a, j) == Nth(a', j) && b[4 * j..4 * j + 4] == b'[4 * j..4 * j + 4]
    ensures Nth(Stripe(a, b, 0), j) == Nth(Stripe(a', b', 0), j)
  {
    hide Lane, LittleEndian;
    var s := b[4 * j..4 * j + 4];
    ReadAt(b, 4 * j, s, 0);
    ReadAt(b', 4 * j, s, 0);
  }

  // ---- One shot

  /** The four lanes of one stripe, as the loops run them. */
  method Round(a: Acc, b: Bytes, p: nat) returns (r: Acc)
    requires p + 16 <= |b|
    ensures r == Stripe(a, b, p)
  {
    hide Add, Mul, Rotl, ReadLE32;
    var v1, v2, v3, v4 := a.v1, a.v2, a.v3, a.v4;
    v1 := Add(v1, Mul(ReadLE32(b, p), PRIME32_2));
    v1 := Rotl(v1, 13);
    v1 := Mul(v1, PRIME32_1);
    v2 := Add(v2, Mul(ReadLE32(b, p + 4), PRIME32_2));
    v2 := Rotl(v2, 13);
    v2 := Mul(v2, PRIME32_1);
    v3 := Add(v3, Mul(ReadLE32(b, p + 8), PRIME32_2));
    v3 := Rotl(v3, 13);
    v3 := Mul(v3, PRIME32_1);
    v4 := Add(v4, Mul(ReadLE32(b, p + 12), PRIME32_2));
    v4 := Rotl(v4, 13);
    v4 := Mul(v4, PRIME32_1);
    r := Acc(v1, v2, v3, v4);
  }

  /** The loop over whole stripes: it runs at least once, and as long as 16 bytes are left. */
  method EatStripes(a: Acc, b: Bytes, from: nat) returns (r: Acc, p: nat)
    requires from + 16 <= |b|
    ensures from < p <= |b| < p + 16 && (p - from) % 16 == 0 && r == Stripes(a, b[from..p])
  {
    hide Stripe, Stripes;
    var limit := |b| - 16;
    ghost var s := b[from..];
    StripesNone(a, s);
    r, p := a, from;
    var more := true;
    while more
      invariant from <= p <= |b| && (p - from) % 16 == 0 && r == Stripes(a, s[..p - from]) && (more <==> p <= limit)
      invariant (!more ==> from < p)
      decreases |b| - p
    {
      StripesNext(a, s, p - from);
      StripeShift(r, b, from, p);
      r := Round(r, b, p);
      p := p + 16;
      more := p <= limit;
    }
    assert s[..p - from] == b[from..p];
  }

  lemma StripesNone(a: Acc, s: Bytes)
    ensures Stripes(a, s[..0]) == a
  {
  }

  lemma StripeShift(a: Acc, b: Bytes, from: nat, p: nat)
    requires from <= p && p + 16 <= |b|
    ensures Stripe(a, b, p) == Stripe(a, b[from..], p - from)
  {
    hide Stripe;
    var s := b[p..p + 16];
    assert b[from..][p - from..p - from + 16] == s;
    StripeAt(a, b, p, s);
    StripeAt(a, b[from..], p - from, s);
  }

  /** The two closing loops and the final mixing. */
  method Finish(h0: bv32, b: Bytes, from: nat) returns (h: bv32)
    requires from <= |b|
    ensures h == Avalanche(Rest(h0, b[from..]))
  {
    hide Word, Byte, Rest, Avalanche;
    h := h0;
    var p := from;
    while p + 4 <= |b|
      invariant from <= p <= |b| && Rest(h, b[p..]) == Rest(h0, b[from..])
    {
      RestWord(h, b, p);
      h := Word(h, ReadLE32(b, p));
      p := p + 4;
    }
    while p < |b|
      invariant p <= |b| < p + 4 && Rest(h, b[p..]) == Rest(h0, b[from..])
    {
      RestByte(h, b, p);
      h := Byte(h, b[p]);
      p := p + 1;
    }
    RestNone(h, b);
    h := Mix(h);
  }

  lemma RestNone(h: bv32, b: Bytes)
    ensures Rest(h, b[|b|..]) == h
  {
  }

  method Mix(h0: bv32) returns (h: bv32)
    ensures h == Avalanche(h0)
  {
    hide Mul, XorShift;
    h := h0;
    h := XorShift(h, 15);
    h := Mul(h, PRIME32_2);
    h := XorShift(h, 13);
    h := Mul(h, PRIME32_3);
    h := XorShift(h, 16);
  }

  /** `XXH32` of a whole input; the length is a signed 32-bit number. */
  method XXH32(input: Bytes, seed: bv32) returns (h: bv32)
    requires |input| < 0x8000_0000
    ensures h == Hash(input, seed)
  {
    hide Stripes, Rest, Avalanche, Converge, Add, Len32, Init;
    var p := 0;
    if |input| >= 16 {
      var a;
      a, p := EatStripes(Init(seed), input, 0);
      StripesWhole(Init(seed), input);
      assert input[0..p] == input[..Whole(|input|)];
      h := Converge(a);
    } else {
      h := Add(seed, PRIME32_5);
    }
    h := Add(h, Len32(|input|));
    h := Finish(h, input, p);
  }
}
