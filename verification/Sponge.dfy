/**
 * The counting sponge of `prim_count`: SHAKE/SHA-3 padding and block loop around a permutation that
 * is a parameter, the incremental form that squeezes on demand, and rejection sampling from it
 * (FIPS 202 section 4, FIPS 203 Algorithm 7). A state is its 200 octets, lane by lane, least
 * significant octet first; xor-ing a lane is then xor-ing its eight octets.
 */
module Sponge {
  import opened Bytes

  type State = s: seq<byte> | |s| == 200 witness seq(200, _ => 0)
  type Permutation = State -> State

  /** The rates in use are whole numbers of lanes. */
  predicate IsRate(rate: nat) {
    0 < rate < 200 && rate % 8 == 0
  }

  // ---- padding -------------------------------------------------------------------------------------

  function Zeros(n: nat): (r: seq<byte>)
    ensures |r| == n
  {
    seq(n, _ => 0)
  }

  /** How many zeros follow the suffix octet. */
  function ZeroCount(len: nat, rate: nat): nat
    requires rate > 0
  {
    rate - 1 - len % rate
  }

  function Unflipped(msg: seq<byte>, suffix: byte, rate: nat): seq<byte>
    requires rate > 0
  {
    msg + [suffix] + Zeros(ZeroCount(|msg|, rate))
  }

  /** Message, suffix, zeros up to a whole number of blocks, top bit of the last octet flipped. */
  function Padded(msg: seq<byte>, suffix: byte, rate: nat): (r: seq<byte>)
    requires rate > 0
    ensures |r| == rate * (|msg| / rate + 1)
  {
    var p := Unflipped(msg, suffix, rate);
    assert |msg| == rate * (|msg| / rate) + |msg| % rate;
    p[|p| - 1 := Xor(p[|p| - 1], 0x80)]
  }

  /** Octet by octet and bit by bit: the message, the suffix behind it, zeros behind that, and bit 7 of
      the last octet turned over. */
  lemma PaddedAt(msg: seq<byte>, suffix: byte, rate: nat, k: nat, i: nat)
    requires rate > 0 && k < |Padded(msg, suffix, rate)| && i < 8
    ensures var p := Padded(msg, suffix, rate);
            var plain: byte := if k < |msg| then msg[k] else if k == |msg| then suffix else 0;
            Bit(p[k], i) <==> Bit(plain, i) != (k == |p| - 1 && i == 7)
  {
    var u := Unflipped(msg, suffix, rate);
    assert |Padded(msg, suffix, rate)| == |u|;
    if k == |u| - 1 {
      XorAt(u[k], 0x80, i);
      TopBit(i);
    }
  }

  lemma TopBit(i: nat)
    requires i < 8
    ensures Bit(0x80, i) <==> i == 7
  {
    assert Pow2(1) == 2 && Pow2(2) == 4 && Pow2(3) == 8 && Pow2(4) == 16;
    assert Pow2(5) == 32 && Pow2(6) == 64 && Pow2(7) == 128;
  }

  /** Distinct messages have distinct padded forms. */
  lemma PaddedInjective(a: seq<byte>, b: seq<byte>, suffix: byte, rate: nat)
    requires rate > 0 && suffix != 0
    requires Padded(a, suffix, rate) == Padded(b, suffix, rate)
    ensures a == b
  {
    var p, q := Unflipped(a, suffix, rate), Unflipped(b, suffix, rate);
    var n := |p|;
    assert |Padded(a, suffix, rate)| == n && |Padded(b, suffix, rate)| == |q|;
    assert Padded(a, suffix, rate)[..n - 1] == p[..n - 1] && Padded(b, suffix, rate)[..n - 1] == q[..n - 1];
    assert p[n - 1] == q[n - 1] by {
      assert Padded(a, suffix, rate)[n - 1] == Xor(p[n - 1], 0x80);
      assert Padded(b, suffix, rate)[n - 1] == Xor(q[n - 1], 0x80);
      XorInvolutive(p[n - 1], 0x80);
      XorInvolutive(q[n - 1], 0x80);
    }
    assert p == p[..n - 1] + [p[n - 1]] && q == q[..n - 1] + [q[n - 1]];
    if |a| < |b| {
      SuffixPosition(a, b, suffix, rate);
    } else if |b| < |a| {
      SuffixPosition(b, a, suffix, rate);
    }
    assert a == p[..|a|] && b == q[..|b|];
  }

  lemma SuffixPosition(a: seq<byte>, b: seq<byte>, suffix: byte, rate: nat)
    requires rate > 0 && suffix != 0 && |a| < |b|
    ensures Unflipped(a, suffix, rate) != Unflipped(b, suffix, rate)
  {
    var p, q := Unflipped(a, suffix, rate), Unflipped(b, suffix, rate);
    assert q[|b|] == suffix;
    if |p| == |q| {
      assert p[|b|] == 0;
    }
  }

  // ---- absorbing and squeezing -----------------------------------------------------------------------

  /** A block xored into the front of the state. */
  function XorIn(st: State, blk: seq<byte>): (r: State)
    requires |blk| <= 200
  {
    XorSeq(blk, st) + st[|blk|..]
  }

  function Absorb(f: Permutation, st: State, p: seq<byte>, rate: nat): State
    requires IsRate(rate)
    decreases |p|
  {
    if |p| < rate then st else Absorb(f, f(XorIn(st, p[..rate])), p[rate..], rate)
  }

  function Iterate(f: Permutation, k: nat, st: State): State {
    if k == 0 then st else f(Iterate(f, k - 1, st))
  }

  /** The first `k` blocks squeezed out of a state. */
  function Stream(f: Permutation, st: State, rate: nat, k: nat): (r: seq<byte>)
    requires IsRate(rate)
    ensures |r| == rate * k
  {
    if k == 0 then [] else
    var r := Stream(f, st, rate, k - 1);
    assert rate * k == rate * (k - 1) + rate;
    r + Iterate(f, k - 1, st)[..rate]
  }

  function Seeded(f: Permutation, msg: seq<byte>, suffix: byte, rate: nat): State
    requires IsRate(rate)
  {
    Absorb(f, Zeros(200), Padded(msg, suffix, rate), rate)
  }

  function Ceil(n: nat, d: nat): nat
    requires d > 0
  {
    (n + d - 1) / d
  }

  /** Block `j` of the stream is the front of the state after `j` more permutations. */
  lemma StreamAt(f: Permutation, st: State, rate: nat, j: nat, k: nat, i: nat)
    requires IsRate(rate) && j < k && i < rate
    ensures rate * j + i < rate * k
    ensures Stream(f, st, rate, k)[rate * j + i] == Iterate(f, j, st)[i]
  {
    assert rate * (j + 1) == rate * j + rate;
    MulMonotone(rate, j + 1, k);
    StreamPrefix(f, st, rate, j + 1, k);
    hide Iterate;
    var head := Stream(f, st, rate, j);
    assert Stream(f, st, rate, j + 1) == head + Iterate(f, j, st)[..rate];
    assert Stream(f, st, rate, j + 1)[rate * j + i] == Iterate(f, j, st)[..rate][i];
  }

  /** Longer streams extend shorter ones. */
  lemma {:induction false} StreamPrefix(f: Permutation, st: State, rate: nat, j: nat, k: nat)
    requires IsRate(rate) && j <= k
    ensures Stream(f, st, rate, j) <= Stream(f, st, rate, k)
    decreases k
  {
    if j < k {
      StreamPrefix(f, st, rate, j, k - 1);
    }
  }

  // ---- the counted implementations ---------------------------------------------------------------------

  /** The global tally of permutations. */
  class Tally {
    var perm: nat

    constructor ()
      ensures perm == 0
    {
      perm := 0;
    }
  }

  method PadMessage(msg: seq<byte>, suffix: byte, rate: nat) returns (pad: seq<byte>)
    requires rate > 0
    ensures pad == Padded(msg, suffix, rate) && IsMultiple(|pad|, rate, |msg| / rate + 1)
  {
    pad := msg + [suffix];
    ghost var z := 0;
    PadTarget(|msg|, rate, z);
    while |pad| % rate != 0
      invariant z <= ZeroCount(|msg|, rate)
      invariant pad == msg + [suffix] + Zeros(z)
      invariant |pad| % rate == 0 <==> z == ZeroCount(|msg|, rate)
      decreases ZeroCount(|msg|, rate) - z
    {
      pad := pad + [0];
      z := z + 1;
      assert Zeros(z) == Zeros(z - 1) + [0];
      PadTarget(|msg|, rate, z);
    }
    pad := pad[|pad| - 1 := Xor(pad[|pad| - 1], 0x80)];
  }

  /** The first whole number of blocks is reached after exactly that many zeros. */
  lemma PadTarget(len: nat, rate: nat, z: nat)
    requires rate > 0 && z <= ZeroCount(len, rate)
    ensures (len + 1 + z) % rate == 0 <==> z == ZeroCount(len, rate)
  {
    var q, r := len / rate, len % rate;
    assert len == rate * q + r;
    if z == ZeroCount(len, rate) {
      assert len + 1 + z == rate * (q + 1);
      MulMod(rate, q + 1, 0);
    } else {
      MulMod(rate, q, r + 1 + z);
    }
  }

  /** One squeeze loop: blocks until there are enough, a permutation between two of them. */
  method Squeeze(f: Permutation, start: State, rate: nat, outLen: nat, cnt: Tally) returns (out: seq<byte>)
    requires IsRate(rate)
    modifies cnt
    ensures |out| == outLen
    ensures var k := Ceil(outLen, rate); outLen <= rate * k && out == Stream(f, start, rate, k)[..outLen]
    ensures cnt.perm == old(cnt.perm) + if outLen == 0 then 0 else Ceil(outLen, rate) - 1
  {
    var st, buf := start, [];
    ghost var k := 0;
    while |buf| < outLen
      invariant buf == Stream(f, start, rate, k) && (k > 0 ==> rate * (k - 1) < outLen)
      invariant |buf| < outLen ==> st == Iterate(f, k, start)
      invariant cnt.perm == old(cnt.perm) + if |buf| < outLen then k else if k == 0 then 0 else k - 1
      decreases outLen - |buf|
    {
      buf := buf + st[..rate];
      k := k + 1;
      assert rate * k == rate * (k - 1) + rate;
      if |buf| < outLen {
        st := f(st);
        cnt.perm := cnt.perm + 1;
      }
    }
    CeilIs(outLen, rate, k);
    return buf[..outLen];
  }

  lemma CeilIs(n: nat, d: nat, k: nat)
    requires d > 0 && n <= d * k && (k > 0 ==> d * (k - 1) < n)
    ensures Ceil(n, d) == k
  {
    if k > 0 {
      var r := n + d - 1 - d * k;
      assert d * k == d * (k - 1) + d;
      assert 0 <= r < d;
      MulMod(d, k, r);
    } else {
      assert n == 0;
      MulMod(d, 0, d - 1);
    }
  }

  /** The absorbing loop shared by both forms. */
  method AbsorbCounted(f: Permutation, msg: seq<byte>, suffix: byte, rate: nat, cnt: Tally) returns (st: State)
    requires IsRate(rate)
    modifies cnt
    ensures st == Seeded(f, msg, suffix, rate)
    ensures cnt.perm == old(cnt.perm) + |msg| / rate + 1
  {
    hide Padded, Absorb, IsMultiple;
    var pad := PadMessage(msg, suffix, rate);
    st := AbsorbBlocks(f, pad, rate, |msg| / rate + 1, cnt);
  }

  method AbsorbBlocks(f: Permutation, pad: seq<byte>, rate: nat, ghost all: nat, cnt: Tally) returns (st: State)
    requires IsRate(rate) && IsMultiple(|pad|, rate, all)
    modifies cnt
    ensures st == Absorb(f, Zeros(200), pad, rate)
    ensures cnt.perm == old(cnt.perm) + all
  {
    st := Zeros(200);
    var off := 0;
    ghost var blocks := 0;
    ghost var goal := Absorb(f, st, pad, rate);
    assert pad[0..] == pad && IsMultiple(off, rate, blocks);
    hide Absorb, XorIn, IsMultiple;
    while off < |pad|
      invariant off <= |pad| && IsMultiple(off, rate, blocks)
      invariant Absorb(f, st, pad[off..], rate) == goal
      invariant cnt.perm == old(cnt.perm) + blocks
      decreases |pad| - off
    {
      NextMultiple(off, |pad|, rate, blocks, all);
      AbsorbStep(f, st, pad, off, rate);
      st := f(XorIn(st, pad[off..off + rate]));
      cnt.perm := cnt.perm + 1;
      off := off + rate;
      blocks := blocks + 1;
    }
    SameMultiple(off, rate, blocks, all);
    AbsorbNothing(f, st, pad[off..], rate);
  }

  ghost predicate IsMultiple(n: nat, d: nat, k: nat) {
    n == d * k
  }

  lemma NextMultiple(m: nat, n: nat, d: nat, j: nat, k: nat)
    requires IsMultiple(m, d, j) && IsMultiple(n, d, k) && m < n
    ensures m + d <= n && IsMultiple(m + d, d, j + 1)
  {
    assert d * (j + 1) == d * j + d;
    if j >= k {
      MulMonotone(d, k, j);
    } else {
      MulMonotone(d, j + 1, k);
    }
  }

  lemma SameMultiple(n: nat, d: nat, j: nat, k: nat)
    requires d > 0 && IsMultiple(n, d, j) && IsMultiple(n, d, k)
    ensures j == k
  {
    MulMod(d, j, 0);
    MulMod(d, k, 0);
  }

  lemma AbsorbStep(f: Permutation, st: State, p: seq<byte>, off: nat, rate: nat)
    requires IsRate(rate) && off + rate <= |p|
    ensures Absorb(f, st, p[off..], rate) == Absorb(f, f(XorIn(st, p[off..off + rate])), p[off + rate..], rate)
  {
    assert p[off..][..rate] == p[off..off + rate] && p[off..][rate..] == p[off + rate..];
  }

  lemma AbsorbNothing(f: Permutation, st: State, p: seq<byte>, rate: nat)
    requires IsRate(rate) && p == []
    ensures Absorb(f, st, p, rate) == st
  {
  }

  lemma {:induction false} MulMonotone(d: nat, j: nat, k: nat)
    requires j <= k
    ensures d * j <= d * k
    decreases k
  {
    if j < k {
      MulMonotone(d, j, k - 1);
      assert d * k == d * (k - 1) + d;
    }
  }

  /** The one-shot sponge: its output, and exactly how many permutations it costs. */
  method Sponge(f: Permutation, msg: seq<byte>, rate: nat, suffix: byte, outLen: nat, cnt: Tally)
    returns (out: seq<byte>)
    requires IsRate(rate)
    modifies cnt
    ensures |out| == outLen
    ensures var k := Ceil(outLen, rate);
            outLen <= rate * k && out == Stream(f, Seeded(f, msg, suffix, rate), rate, k)[..outLen]
    ensures cnt.perm == old(cnt.perm) + (|msg| / rate + 1) + if outLen == 0 then 0 else Ceil(outLen, rate) - 1
  {
    var st := AbsorbCounted(f, msg, suffix, rate, cnt);
    out := Squeeze(f, st, rate, outLen, cnt);
  }

  /** SHAKE with the output taken a block at a time. `given` blocks have been handed out so far. */
  class IncrementalShake {
    const f: Permutation
    const rate: nat
    ghost const start: State
    ghost var given: nat
    var state: State
    var buf: seq<byte>

    ghost predicate Valid()
      reads this
    {
      IsRate(rate) && given > 0 && state == Iterate(f, given - 1, start)
    }

    constructor (f: Permutation, data: seq<byte>, rate: nat, cnt: Tally)
      requires IsRate(rate)
      modifies cnt
      ensures Valid() && given == 1 && this.f == f && this.rate == rate
      ensures start == Seeded(f, data, 0x1F, rate) && buf == Stream(f, start, rate, 1)
      ensures cnt.perm == old(cnt.perm) + |data| / rate + 1
    {
      var st := AbsorbCounted(f, data, 0x1F, rate, cnt);
      this.f, this.rate, start, given := f, rate, st, 1;
      state := st;
      buf := st[..rate];
      assert Stream(f, st, rate, 1) == Stream(f, st, rate, 0) + Iterate(f, 0, st)[..rate];
    }

    /** One more block, for one permutation; together with the earlier ones it is the stream. */
    method SqueezeBlock(cnt: Tally) returns (blk: seq<byte>)
      requires Valid()
      modifies this`state, this`given, cnt
      ensures Valid() && given == old(given) + 1 && cnt.perm == old(cnt.perm) + 1
      ensures Stream(f, start, rate, given) == Stream(f, start, rate, old(given)) + blk
    {
      state := f(state);
      cnt.perm := cnt.perm + 1;
      given := given + 1;
      return state[..rate];
    }

    /** Blocks until `need` octets are there, no more than it takes. */
    method Refill(sofar: seq<byte>, need: nat, cnt: Tally) returns (buf: seq<byte>)
      requires Valid() && sofar == Stream(f, start, rate, given)
      modifies this`state, this`given, cnt
      ensures Valid() && old(given) <= given && buf == Stream(f, start, rate, given)
      ensures sofar <= buf && need <= |buf|
      ensures given == old(given) || rate * (given - 1) < need
      ensures cnt.perm == old(cnt.perm) + given - old(given)
    {
      hide Stream, Iterate;
      buf := sofar;
      while need > |buf|
        invariant Valid() && old(given) <= given && buf == Stream(f, start, rate, given)
        invariant sofar <= buf
        invariant given == old(given) || rate * (given - 1) < need
        invariant cnt.perm == old(cnt.perm) + given - old(given)
        decreases need - |buf|
      {
        var blk := SqueezeBlock(cnt);
        buf := buf + blk;
      }
    }
  }

  /** What the blocks add up to is the one-shot output of the same length, at the same cost. */
  method IncrementalEqualsSponge(f: Permutation, data: seq<byte>, rate: nat, blocks: nat)
    returns (whole: seq<byte>, pieces: seq<byte>, wholeCost: nat, piecesCost: nat)
    requires IsRate(rate) && blocks > 0
    ensures whole == pieces && wholeCost == piecesCost == |data| / rate + blocks
  {
    CeilIs(rate * blocks, rate, blocks);
    hide Stream, Seeded, Iterate, Ceil;
    var a := new Tally();
    whole := Sponge(f, data, rate, 0x1F, rate * blocks, a);
    wholeCost := a.perm;
    var b := new Tally();
    var x := new IncrementalShake(f, data, rate, b);
    pieces := x.buf;
    for k := 1 to blocks
      invariant x.Valid() && x.given == k && x.f == f && x.rate == rate
      invariant x.start == Seeded(f, data, 0x1F, rate)
      invariant pieces == Stream(f, x.start, rate, k)
      invariant b.perm == |data| / rate + k
    {
      var blk := x.SqueezeBlock(b);
      pieces := pieces + blk;
    }
    piecesCost := b.perm;
  }

  // ---- rejection sampling --------------------------------------------------------------------------------

  const Q := 3329
  const SHAKE128_RATE := 168

  /** The two 12-bit candidates of three octets that are below q. */
  function Candidates(b0: byte, b1: byte, b2: byte): (r: seq<nat>)
    ensures |r| <= 2 && forall d :: d in r ==> d < Q
  {
    var x: int, y: int, z: int := b0, b1, b2;
    var d1, d2 := x + 256 * (y % 16), y / 16 + 16 * z;
    (if d1 < Q then [d1] else []) + (if d2 < Q then [d2] else [])
  }

  /** The candidates are the two halves, low one first, of the three octets as one 24-bit little-endian
      number; each is dropped if it is not below q. */
  lemma CandidatesAre(b0: byte, b1: byte, b2: byte, d1: nat, d2: nat)
    requires d1 < 4096 && d2 < 4096
    requires var x: int, y: int, z: int := b0, b1, b2; d1 + 4096 * d2 == x + 256 * y + 65536 * z
    ensures Candidates(b0, b1, b2) == (if d1 < Q then [d1] else []) + (if d2 < Q then [d2] else [])
  {
    var x: int, y: int, z: int := b0, b1, b2;
    assert d1 == x + 256 * (y % 16) && d2 == y / 16 + 16 * z;
  }

  /** All candidates accepted from the first `t` triples of a stream. */
  function Accepted(buf: seq<byte>, t: nat): seq<nat>
    requires 3 * t <= |buf|
  {
    if t == 0 then [] else Accepted(buf, t - 1) + Candidates(buf[3 * t - 3], buf[3 * t - 2], buf[3 * t - 1])
  }

  lemma AcceptedNext(buf: seq<byte>, t: nat)
    requires 3 * t + 3 <= |buf|
    ensures Accepted(buf, t + 1) == Accepted(buf, t) + Candidates(buf[3 * t], buf[3 * t + 1], buf[3 * t + 2])
  {
    hide Candidates;
    var k := 3 * (t + 1);
    assert k - 3 == 3 * t && k - 2 == 3 * t + 1 && k - 1 == 3 * t + 2;
  }

  lemma {:induction false} AcceptedPrefix(a: seq<byte>, b: seq<byte>, t: nat)
    requires 3 * t <= |a| && a <= b
    ensures Accepted(a, t) == Accepted(b, t)
  {
    if t > 0 {
      AcceptedPrefix(a, b, t - 1);
    }
  }

  lemma {:induction false} AcceptedBound(buf: seq<byte>, t: nat)
    requires 3 * t <= |buf|
    ensures |Accepted(buf, t)| <= 2 * t
  {
    if t > 0 {
      AcceptedBound(buf, t - 1);
    }
  }

  function First256(s: seq<nat>): seq<nat> {
    if |s| <= 256 then s else s[..256]
  }

  /**
   * Algorithm 7 of FIPS 203 on the incremental stream. `fuel` bounds the number of triples read, since
   * nothing bounds how many a permutation may make it reject. `triples` is the number consumed.
   */
  method SampleNtt(f: Permutation, rho: seq<byte>, i: byte, j: byte, fuel: nat, cnt: Tally)
    returns (out: seq<nat>, finished: bool, triples: nat)
    modifies cnt
    ensures finished ==>
              var st := Seeded(f, rho + [i, j], 0x1F, SHAKE128_RATE);
              var blocks := Ceil(triples, 56);
              && triples >= 128
              && 3 * triples <= SHAKE128_RATE * blocks
              && |out| == 256 && out == First256(Accepted(Stream(f, st, SHAKE128_RATE, blocks), triples))
              && |Accepted(Stream(f, st, SHAKE128_RATE, blocks), triples - 1)| < 256
              && cnt.perm == old(cnt.perm) + (|rho| + 2) / SHAKE128_RATE + blocks
  {
    hide Stream, Seeded, Iterate, Accepted, First256;
    var xof := new IncrementalShake(f, rho + [i, j], SHAKE128_RATE, cnt);
    var buf := xof.buf;
    out, triples := [], 0;
    NoneAccepted(buf);
    while |out| < 256 && triples < fuel
      invariant xof.Valid() && xof.f == f && xof.rate == SHAKE128_RATE
      invariant xof.start == Seeded(f, rho + [i, j], 0x1F, SHAKE128_RATE)
      invariant buf == Stream(f, xof.start, SHAKE128_RATE, xof.given)
      invariant cnt.perm == old(cnt.perm) + (|rho| + 2) / SHAKE128_RATE + xof.given
      invariant 3 * triples <= |buf| == SHAKE128_RATE * xof.given
      invariant xof.given == 1 || SHAKE128_RATE * (xof.given - 1) < 3 * triples
      invariant out == First256(Accepted(buf, triples))
      invariant triples > 0 ==> |Accepted(buf, triples - 1)| < 256
      decreases fuel - triples
    {
      ghost var before := buf;
      buf := xof.Refill(buf, 3 * triples + 3, cnt);
      AcceptedPrefix(before, buf, triples);
      out := TakeTriple(buf, triples, out);
      triples := triples + 1;
    }
    AcceptedBound(buf, triples);
    finished := |out| == 256;
    assert finished ==> triples >= 128 && Ceil(triples, 56) == xof.given by {
      FirstBound(Accepted(buf, triples));
    }
  }

  lemma NoneAccepted(buf: seq<byte>)
    ensures First256(Accepted(buf, 0)) == []
  {
  }

  lemma FirstBound(s: seq<nat>)
    ensures |First256(s)| <= |s|
  {
  }

  /** The loop body of Algorithm 7: up to two values from the next three octets. */
  method TakeTriple(buf: seq<byte>, t: nat, sofar: seq<nat>) returns (out: seq<nat>)
    requires 3 * t + 3 <= |buf| && sofar == First256(Accepted(buf, t)) && |sofar| < 256
    ensures out == First256(Accepted(buf, t + 1)) && |Accepted(buf, t)| < 256
  {
    var pos := 3 * t;
    var b0: int, b1: int, b2: int := buf[pos], buf[pos + 1], buf[pos + 2];
    var d1: nat, d2: nat := b0 + 256 * (b1 % 16), b1 / 16 + 16 * b2;
    AcceptedNext(buf, t);
    assert Accepted(buf, t) == sofar;
    hide Accepted;
    out := sofar;
    if d1 < Q {
      out := out + [d1];
    }
    if d2 < Q && |out| < 256 {
      out := out + [d2];
    }
  }
}
