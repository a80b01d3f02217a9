/** Feeding XXH32 in pieces. */
module Xxh32Stream {
  import opened Xxh32

  /** More whole stripes of `g`, beyond the first `c` bytes. */
  lemma Absorb(a: Acc, g: Bytes, c: nat, s: Bytes)
    requires c % 16 == 0 && c + |s| <= |g| && s == g[c..c + |s|]
    ensures Stripes(a, g[..c + |s|]) == Stripes(Stripes(a, g[..c]), s)
  {
    StripesSplit(a, g[..c], s);
    assert g[..c + |s|] == g[..c] + s;
  }

  lemma OneStripe(a: Acc, s: Bytes)
    requires |s| == 16
    ensures Stripes(a, s) == Stripe(a, s, 0)
  {
    hide Stripe;
    assert s[..16] == s && s[16..] == [];
  }

  class State32 {
    var totalLen: nat
    var seed: bv32
    var v: Acc
    var memsize: nat
    const memory: array<bv8>
    // everything fed so far
    ghost var fed: Bytes

    /** The buffer holds the unfinished stripe of `f`, the accumulators the finished ones. */
    ghost predicate Holds(f: Bytes)
      reads this, memory
    {
      && memory.Length == 16 && memsize == |f| % 16 && memory[..memsize] == f[Whole(|f|)..]
      && v == Stripes(Init(seed), f[..Whole(|f|)])
    }

    ghost predicate Valid()
      reads this, memory
    {
      totalLen == |fed| && Holds(fed)
    }

    constructor (seed: bv32)
      ensures Valid() && fed == [] && this.seed == seed && fresh(memory)
    {
      this.seed := seed;
      v := Init(seed);
      totalLen := 0;
      memsize := 0;
      memory := new bv8[16];
      fed := [];
    }

    /** `memcpy` of `n` bytes of the input into the buffer. */
    method Fill(at: nat, input: Bytes, from: nat, n: nat)
      requires at + n <= memory.Length && from + n <= |input|
      modifies memory
      ensures memory[..at + n] == old(memory[..at]) + input[from..from + n]
    {
      for i := 0 to n
        invariant memory[..at + i] == old(memory[..at]) + input[from..from + i]
      {
        memory[at + i] := input[from + i];
        assert memory[..at + i + 1] == memory[..at + i] + [input[from + i]];
      }
    }

    /** The bytes left from before, topped up to a stripe. */
    method TopUp(input: Bytes) returns (p: nat)
      requires Holds(fed) && 0 < memsize && memsize + |input| >= 16
      modifies this`v, this`memsize, memory
      ensures p <= |input| && (|fed| + p) % 16 == 0 && memsize == 0
      ensures v == Stripes(Init(seed), (fed + input)[..|fed| + p])
    {
      hide Stripes, Stripe, Init;
      ghost var g, c := fed + input, Whole(|fed|);
      p := 16 - memsize;
      Fill(memsize, input, 0, p);
      ghost var block := memory[..];
      assert block == memory[..16] == fed[c..] + input[..p];
      assert block == g[c..c + 16] && g[..c] == fed[..c];
      OneStripe(v, block);
      Absorb(Init(seed), g, c, block);
      v := Round(v, memory[..], 0);
      memsize := 0;
    }

    /** The whole stripes of the input, then its tail into the buffer. */
    method Bulk(input: Bytes, from: nat)
      requires memory.Length == 16 && memsize == 0 && from <= |input| && (|fed| + from) % 16 == 0
      requires v == Stripes(Init(seed), (fed + input)[..|fed| + from])
      modifies this`v, this`memsize, memory
      ensures Holds(fed + input)
    {
      hide Stripes, Stripe, Init, Whole;
      ghost var g := fed + input;
      var p := from;
      if p + 16 <= |input| {
        v, p := EatStripes(v, input, p);
        Slice(fed, input, from, p);
        Absorb(Init(seed), g, |fed| + from, input[from..p]);
        SumWhole(|fed| + from, p - from);
      }
      WholeIs(|g|, |fed| + p);
      Slice(fed, input, p, p);
      if p < |input| {
        Fill(0, input, p, |input| - p);
        memsize := |input| - p;
      }
    }

    /** `XXH32_update`: any number of further bytes. */
    method Update(input: Bytes)
      requires Valid() && |fed| + |input| < 0x8000_0000
      modifies this, memory
      ensures Valid() && fed == old(fed) + input && seed == old(seed)
    {
      hide Stripes, Stripe, Init;
      totalLen := totalLen + |input|;
      if memsize + |input| < 16 {
        Fill(memsize, input, 0, |input|);
        Small(fed, input);
        memsize := memsize + |input|;
      } else {
        var p := 0;
        if memsize != 0 {
          p := TopUp(input);
        } else {
          assert (fed + input)[..|fed|] == fed == fed[..Whole(|fed|)];
        }
        Bulk(input, p);
      }
      fed := fed + input;
    }

    /** `XXH32_digest`: the hash of everything fed so far; the state is only read. */
    method Digest() returns (h: bv32)
      requires Valid()
      ensures h == Hash(fed, seed)
    {
      hide Stripes, Rest, Avalanche, Converge, Add, Len32, Init;
      if totalLen >= 16 {
        StripesWhole(Init(seed), fed);
        h := Converge(v);
      } else {
        h := Add(seed, PRIME32_5);
      }
      h := Add(h, Len32(totalLen));
      assert memory[..memsize][0..] == memory[..memsize];
      h := Finish(h, memory[..memsize], 0);
    }
  }

  ghost function Joined(chunks: seq<Bytes>): Bytes {
    if chunks == [] then [] else Joined(chunks[..|chunks| - 1]) + chunks[|chunks| - 1]
  }

  /** However an input is cut up, feeding the pieces one after the other gives the hash of the whole. */
  method HashChunks(chunks: seq<Bytes>, seed: bv32) returns (h: bv32)
    requires |Joined(chunks)| < 0x8000_0000
    ensures h == Hash(Joined(chunks), seed)
  {
    hide Hash;
    var state := new State32(seed);
    for i := 0 to |chunks|
      invariant fresh(state) && fresh(state.memory) && state.Valid() && state.fed == Joined(chunks[..i])
      invariant state.seed == seed
    {
      PrefixLength(chunks, i + 1);
      assert chunks[..i + 1][..i] == chunks[..i];
      state.Update(chunks[i]);
    }
    assert chunks[..|chunks|] == chunks;
    h := state.Digest();
  }

  lemma {:induction false} PrefixLength(chunks: seq<Bytes>, n: nat)
    requires n <= |chunks|
    ensures |Joined(chunks[..n])| <= |Joined(chunks)|
    decreases |chunks| - n
  {
    if n < |chunks| {
      PrefixLength(chunks, n + 1);
      assert chunks[..n + 1][..n] == chunks[..n];
    } else {
      assert chunks[..n] == chunks;
    }
  }

  /** Streaming against one shot. */
  method SameHash(chunks: seq<Bytes>, seed: bv32) returns (streamed: bv32, direct: bv32)
    requires |Joined(chunks)| < 0x8000_0000
    ensures streamed == direct == Hash(Joined(chunks), seed)
  {
    hide Hash;
    streamed := HashChunks(chunks, seed);
    var input: Bytes := [];
    for i := 0 to |chunks|
      invariant input == Joined(chunks[..i])
    {
      assert chunks[..i + 1][..i] == chunks[..i];
      input := input + chunks[i];
    }
    assert chunks[..|chunks|] == chunks;
    direct := XXH32(input, seed);
  }

  lemma Slice(f: Bytes, input: Bytes, i: nat, j: nat)
    requires i <= j <= |input|
    ensures (f + input)[|f| + i..|f| + j] == input[i..j] && (f + input)[|f| + i..] == input[i..]
  {
    var g := f + input;
    assert forall k :: i <= k < |input| ==> g[|f| + k] == input[k];
  }

  lemma SumWhole(a: nat, b: nat)
    requires a % 16 == 0 && b % 16 == 0
    ensures (a + b) % 16 == 0
  {
  }

  lemma WholeIs(n: nat, c: nat)
    requires c % 16 == 0 && c <= n < c + 16
    ensures Whole(n) == c && n % 16 == n - c
  {
  }

  lemma Small(f: Bytes, input: Bytes)
    requires |f| % 16 + |input| < 16
    ensures Whole(|f + input|) == Whole(|f|) && (f + input)[..Whole(|f|)] == f[..Whole(|f|)]
    ensures (f + input)[Whole(|f|)..] == f[Whole(|f|)..] + input
  {
  }
}
