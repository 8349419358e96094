/**
 * The five block-cipher modes the daemon builds on a one-block hardware primitive.
 *
 * `Run` is one mode applied to a whole message; the lemmas after it state the recurrences of
 * SP 800-38A (sections 6.1 to 6.5) block by block, the CTR counter as a number modulo 2^128,
 * and that decryption inverts encryption. `SymCore.Crypt` is the loop over two buffers, which
 * may be one and the same buffer.
 */
module SymModes {
  import opened Bytes

  type Block = b: seq<byte> | |b| == 16 witness seq(16, _ => 0)

  datatype Cipher = Cipher(enc: Block -> Block, dec: Block -> Block) {
    ghost predicate DecInvertsEnc() {
      forall x: Block :: dec(enc(x)) == x
    }

    ghost predicate EncInvertsDec() {
      forall x: Block :: enc(dec(x)) == x
    }
  }

  const ECB := 0
  const CBC := 1
  const CTR := 2
  const CFB := 3
  const OFB := 4

  // ---- the counter -----------------------------------------------------------------------

  const POW128 := 0x1_0000_0000_0000_0000_0000_0000_0000_0000

  function Pow256(n: nat): (r: nat)
    ensures r > 0
  {
    if n == 0 then 1 else 256 * Pow256(n - 1)
  }

  lemma Pow256Of16()
    ensures Pow256(16) == POW128
  {
    assert Pow256(4) == 0x1_0000_0000;
    assert Pow256(8) == 0x1_0000_0000_0000_0000;
    assert Pow256(12) == 0x1_0000_0000_0000_0000_0000_0000;
  }

  /** A string of octets read as a big-endian number. */
  function Val(s: seq<byte>): (v: nat)
    ensures v < Pow256(|s|)
  {
    if s == [] then 0
    else
      var low: int := s[|s| - 1];
      256 * Val(s[..|s| - 1]) + low
  }

  /** Increment with carry from the last octet. */
  function Inc(s: seq<byte>): (r: seq<byte>)
    ensures |r| == |s|
  {
    if s == [] then []
    else
      var n := |s| - 1;
      if s[n] < 255 then s[..n] + [s[n] + 1] else Inc(s[..n]) + [0]
  }

  lemma {:induction false} IncIsPlusOne(s: seq<byte>)
    ensures Val(Inc(s)) == if Val(s) + 1 == Pow256(|s|) then 0 else Val(s) + 1
  {
    if s != [] {
      var n := |s| - 1;
      if s[n] < 255 {
        assert Inc(s)[..n] == s[..n];
      } else {
        assert Inc(s)[..n] == Inc(s[..n]);
        IncIsPlusOne(s[..n]);
      }
    }
  }

  /** The counter block `k` increments after `iv`. */
  function CounterBlock(iv: Block, k: nat): Block
    decreases k
  {
    if k == 0 then iv else CounterBlock(Inc(iv), k - 1)
  }

  /** CTR block k is (IV + k) modulo 2^128. */
  lemma {:induction false} CounterBlockValue(iv: Block, k: nat)
    ensures Val(CounterBlock(iv, k)) == (Val(iv) + k) % POW128
    decreases k
  {
    Pow256Of16();
    if k > 0 {
      IncIsPlusOne(iv);
      CounterBlockValue(Inc(iv), k - 1);
    }
  }

  /** Two counter blocks of one message differ as long as it is no longer than 2^128 blocks. */
  lemma CountersDistinct(iv: Block, j: nat, k: nat)
    requires j < k < j + POW128
    ensures CounterBlock(iv, j) != CounterBlock(iv, k)
  {
    hide Val, CounterBlock;
    CounterBlockValue(iv, j);
    CounterBlockValue(iv, k);
  }

  // ---- one mode over one message ------------------------------------------------------------

  /** One turn of the loop: what goes out for the piece `d`, and the next feedback block.
      ECB and CBC never meet a short piece; it is passed on unchanged here to keep `Step` total. */
  function Step(c: Cipher, mode: nat, dec: bool, fb: Block, d: seq<byte>): (r: (seq<byte>, Block))
    requires mode <= OFB && 0 < |d| <= 16
    ensures |r.0| == |d|
  {
    if |d| < 16 && (mode == ECB || mode == CBC) then (d, fb)
    else if mode == ECB then (if dec then c.dec(d) else c.enc(d), fb)
    else if mode == CBC then
      if dec then (XorSeq(c.dec(d), fb), d)
      else var y := c.enc(XorSeq(d, fb)); (y, y)
    else
      var ks := c.enc(fb);
      var y := XorSeq(d, ks);
      var next :=
        if mode == CTR then Inc(fb)
        else if mode == OFB then ks
        else
          var ct := if dec then d else y;
          if |d| == 16 then ct else fb;
      (y, next)
  }

  predicate Admissible(mode: nat, len: nat) {
    mode <= OFB && (mode == ECB || mode == CBC ==> len % 16 == 0)
  }

  function Run(c: Cipher, mode: nat, dec: bool, fb: Block, d: seq<byte>): (r: seq<byte>)
    requires mode <= OFB
    ensures |r| == |d|
    decreases |d|
  {
    if d == [] then []
    else
      var n := if |d| >= 16 then 16 else |d|;
      var (y, next) := Step(c, mode, dec, fb, d[..n]);
      y + Run(c, mode, dec, next, d[n..])
  }

  /** The feedback block after a whole number of blocks. */
  function Feedback(c: Cipher, mode: nat, dec: bool, fb: Block, d: seq<byte>): Block
    requires mode <= OFB
    decreases |d|
  {
    if |d| < 16 then fb
    else Feedback(c, mode, dec, Step(c, mode, dec, fb, d[..16]).1, d[16..])
  }

  /** A block in front of the rest. */
  lemma RunCons(c: Cipher, mode: nat, dec: bool, fb: Block, b: Block, rest: seq<byte>)
    requires mode <= OFB
    ensures var (y, next) := Step(c, mode, dec, fb, b);
            && Run(c, mode, dec, fb, b + rest) == y + Run(c, mode, dec, next, rest)
            && Feedback(c, mode, dec, fb, b + rest) == Feedback(c, mode, dec, next, rest)
  {
    hide Step;
    assert (b + rest)[..16] == b && (b + rest)[16..] == rest;
  }

  /** Splitting a message at a block boundary splits the work, the feedback carried over. */
  lemma {:induction false} RunAppend(c: Cipher, mode: nat, dec: bool, fb: Block, d: seq<byte>, e: seq<byte>)
    requires mode <= OFB && |d| % 16 == 0
    ensures Run(c, mode, dec, fb, d + e)
         == Run(c, mode, dec, fb, d) + Run(c, mode, dec, Feedback(c, mode, dec, fb, d), e)
    decreases |d|
  {
    if d == [] {
      assert d + e == e;
      assert Run(c, mode, dec, fb, d) == [];
    } else {
      hide *;
      var b, rest := d[..16], d[16..];
      assert d == b + rest && d + e == b + (rest + e);
      RunCons(c, mode, dec, fb, b, rest);
      RunCons(c, mode, dec, fb, b, rest + e);
      var (y, next) := Step(c, mode, dec, fb, b);
      RunAppend(c, mode, dec, next, rest, e);
      Assoc(y, Run(c, mode, dec, next, rest), Run(c, mode, dec, Feedback(c, mode, dec, next, rest), e));
    }
  }

  lemma Assoc(a: seq<byte>, b: seq<byte>, c: seq<byte>)
    ensures a + (b + c) == (a + b) + c
  {
  }

  /** In CBC the feedback after some blocks is the last ciphertext block. */
  lemma {:induction false} CbcFeedback(c: Cipher, dec: bool, fb: Block, d: seq<byte>)
    requires |d| % 16 == 0 && d != []
    ensures Feedback(c, CBC, dec, fb, d)
         == (if dec then d else Run(c, CBC, dec, fb, d))[|d| - 16..]
    decreases |d|
  {
    var (y, next) := Step(c, CBC, dec, fb, d[..16]);
    if |d| == 16 {
      assert d[..16] == d;
    } else {
      CbcFeedback(c, dec, next, d[16..]);
      assert Run(c, CBC, dec, fb, d)[|d| - 16..] == Run(c, CBC, dec, next, d[16..])[|d| - 32..];
    }
  }

  function BlockAt(s: seq<byte>, j: nat): seq<byte>
    requires 16 * j <= |s|
  {
    if 16 * j + 16 <= |s| then s[16 * j..16 * j + 16] else s[16 * j..]
  }

  /** Block j of the output is one step on block j of the input, from the feedback before it. */
  lemma RunBlock(c: Cipher, mode: nat, dec: bool, fb: Block, d: seq<byte>, j: nat)
    requires mode <= OFB && 16 * j < |d|
    ensures BlockAt(Run(c, mode, dec, fb, d), j)
         == Step(c, mode, dec, Feedback(c, mode, dec, fb, d[..16 * j]), BlockAt(d, j)).0
  {
    var pre, post := d[..16 * j], d[16 * j..];
    assert d == pre + post;
    RunAppend(c, mode, dec, fb, pre, post);
    var f := Feedback(c, mode, dec, fb, pre);
    var r := Run(c, mode, dec, fb, d);
    assert r[16 * j..] == Run(c, mode, dec, f, post);
    var n := if |post| >= 16 then 16 else |post|;
    assert BlockAt(d, j) == post[..n];
    assert BlockAt(r, j) == r[16 * j..][..n];
  }

  /** Section 6.1: every block on its own. */
  lemma EcbRecurrence(c: Cipher, dec: bool, iv: Block, d: seq<byte>, j: nat)
    requires |d| % 16 == 0 && 16 * j < |d|
    ensures BlockAt(Run(c, ECB, dec, iv, d), j) == if dec then c.dec(BlockAt(d, j)) else c.enc(BlockAt(d, j))
  {
    RunBlock(c, ECB, dec, iv, d, j);
  }

  /** Section 6.2: C_j = E(P_j xor C_(j-1)), P_j = D(C_j) xor C_(j-1), with C_(-1) the IV. */
  lemma CbcRecurrence(c: Cipher, iv: Block, d: seq<byte>, j: nat)
    requires |d| % 16 == 0 && 16 * j < |d|
    ensures var r := Run(c, CBC, false, iv, d);
            BlockAt(r, j) == c.enc(XorSeq(BlockAt(d, j), if j == 0 then iv else BlockAt(r, j - 1)))
    ensures BlockAt(Run(c, CBC, true, iv, d), j)
         == XorSeq(c.dec(BlockAt(d, j)), if j == 0 then iv else BlockAt(d, j - 1))
  {
    var pre := d[..16 * j];
    assert j == 0 ==> Feedback(c, CBC, false, iv, pre) == iv && Feedback(c, CBC, true, iv, pre) == iv;
    assert pre != [] <==> j > 0;
    hide Run, Feedback;
    RunBlock(c, CBC, false, iv, d, j);
    RunBlock(c, CBC, true, iv, d, j);
    if j > 0 {
      CbcFeedback(c, false, iv, pre);
      CbcFeedback(c, true, iv, pre);
      RunPrefix(c, CBC, false, iv, d, j);
    }
  }

  /** In CFB too the feedback after some blocks is the last ciphertext block. */
  lemma {:induction false} CfbFeedback(c: Cipher, dec: bool, fb: Block, d: seq<byte>)
    requires |d| % 16 == 0 && d != []
    ensures Feedback(c, CFB, dec, fb, d)
         == (if dec then d else Run(c, CFB, dec, fb, d))[|d| - 16..]
    decreases |d|
  {
    var (y, next) := Step(c, CFB, dec, fb, d[..16]);
    if |d| == 16 {
      assert d[..16] == d;
    } else {
      CfbFeedback(c, dec, next, d[16..]);
      assert Run(c, CFB, dec, fb, d)[|d| - 16..] == Run(c, CFB, dec, next, d[16..])[|d| - 32..];
    }
  }

  /** Section 6.3: C_j = P_j xor E(C_(j-1)) in both directions, a short last block cut. */
  lemma CfbRecurrence(c: Cipher, dec: bool, iv: Block, d: seq<byte>, j: nat)
    requires 16 * j < |d|
    ensures var r := Run(c, CFB, dec, iv, d);
            BlockAt(r, j) == XorSeq(BlockAt(d, j),
              c.enc(if j == 0 then iv else BlockAt(if dec then d else r, j - 1)))
  {
    var pre := d[..16 * j];
    assert j == 0 ==> Feedback(c, CFB, dec, iv, pre) == iv;
    assert pre != [] <==> j > 0;
    hide Run, Feedback;
    RunBlock(c, CFB, dec, iv, d, j);
    if j > 0 {
      CfbFeedback(c, dec, iv, pre);
      RunPrefix(c, CFB, dec, iv, d, j);
    }
  }

  /** The first j output blocks depend on the first j input blocks alone. */
  lemma RunPrefix(c: Cipher, mode: nat, dec: bool, iv: Block, d: seq<byte>, j: nat)
    requires mode <= OFB && 0 < 16 * j <= |d|
    ensures Run(c, mode, dec, iv, d)[..16 * j] == Run(c, mode, dec, iv, d[..16 * j])
    ensures BlockAt(Run(c, mode, dec, iv, d), j - 1) == Run(c, mode, dec, iv, d[..16 * j])[16 * j - 16..]
    ensures BlockAt(d, j - 1) == d[..16 * j][16 * j - 16..]
  {
    assert d == d[..16 * j] + d[16 * j..];
    RunAppend(c, mode, dec, iv, d[..16 * j], d[16 * j..]);
    var r := Run(c, mode, dec, iv, d);
    assert BlockAt(r, j - 1) == r[..16 * j][16 * j - 16..];
  }

  lemma {:induction false} FeedbackAppend(c: Cipher, mode: nat, dec: bool, fb: Block, d: seq<byte>, b: Block)
    requires mode <= OFB && |d| % 16 == 0
    ensures Feedback(c, mode, dec, fb, d + b)
         == Step(c, mode, dec, Feedback(c, mode, dec, fb, d), b).1
    decreases |d|
  {
    if d == [] {
      assert d + b == b && b[..16] == b && b[16..] == [];
    } else {
      assert (d + b)[..16] == d[..16] && (d + b)[16..] == d[16..] + b;
      FeedbackAppend(c, mode, dec, Step(c, mode, dec, fb, d[..16]).1, d[16..], b);
    }
  }

  /** The key stream block O_j of section 6.4: O_j = E(O_(j-1)), O_(-1) the IV. */
  function OfbKeyStream(c: Cipher, iv: Block, j: nat): Block {
    c.enc(if j == 0 then iv else OfbKeyStream(c, iv, j - 1))
  }

  lemma {:induction false} OfbFeedback(c: Cipher, dec: bool, iv: Block, d: seq<byte>)
    requires |d| % 16 == 0
    ensures Feedback(c, OFB, dec, iv, d)
         == if d == [] then iv else OfbKeyStream(c, iv, |d| / 16 - 1)
    decreases |d|
  {
    if d != [] {
      var pre, b := d[..|d| - 16], d[|d| - 16..];
      assert d == pre + b;
      OfbFeedback(c, dec, iv, pre);
      FeedbackAppend(c, OFB, dec, iv, pre, b);
    }
  }

  /** Section 6.4. */
  lemma OfbRecurrence(c: Cipher, dec: bool, iv: Block, d: seq<byte>, j: nat)
    requires 16 * j < |d|
    ensures BlockAt(Run(c, OFB, dec, iv, d), j) == XorSeq(BlockAt(d, j), OfbKeyStream(c, iv, j))
  {
    RunBlock(c, OFB, dec, iv, d, j);
    OfbFeedback(c, dec, iv, d[..16 * j]);
  }

  lemma {:induction false} CtrFeedback(c: Cipher, dec: bool, iv: Block, d: seq<byte>)
    requires |d| % 16 == 0
    ensures Feedback(c, CTR, dec, iv, d) == CounterBlock(iv, |d| / 16)
    decreases |d|
  {
    if d != [] {
      CtrFeedback(c, dec, Inc(iv), d[16..]);
    }
  }

  /** Section 6.5, with the full-width standard incrementing function. */
  lemma CtrRecurrence(c: Cipher, dec: bool, iv: Block, d: seq<byte>, j: nat)
    requires 16 * j < |d|
    ensures BlockAt(Run(c, CTR, dec, iv, d), j) == XorSeq(BlockAt(d, j), c.enc(CounterBlock(iv, j)))
    ensures Val(CounterBlock(iv, j)) == (Val(iv) + j) % POW128
  {
    hide Run, Feedback, Val, CounterBlock;
    RunBlock(c, CTR, dec, iv, d, j);
    CtrFeedback(c, dec, iv, d[..16 * j]);
    CounterBlockValue(iv, j);
  }

  /** Decryption undoes encryption in every mode, short last block included. */
  lemma {:induction false} DecryptInvertsEncrypt(c: Cipher, mode: nat, iv: Block, d: seq<byte>)
    requires Admissible(mode, |d|)
    requires c.DecInvertsEnc()
    ensures Run(c, mode, true, iv, Run(c, mode, false, iv, d)) == d
    decreases |d|
  {
    if |d| >= 16 {
      hide Run, Feedback, Step;
      var b, rest := d[..16], d[16..];
      assert d == b + rest;
      var (y, next) := Step(c, mode, false, iv, b);
      StepInverts(c, mode, iv, b);
      RunCons(c, mode, false, iv, b, rest);
      DecryptInvertsEncrypt(c, mode, next, rest);
      RunCons(c, mode, true, iv, y, Run(c, mode, false, next, rest));
    } else if d != [] {
      hide Run, Feedback, Step;
      StepInverts(c, mode, iv, d);
      RunShort(c, mode, false, iv, d);
      RunShort(c, mode, true, iv, Step(c, mode, false, iv, d).0);
    } else {
      assert Run(c, mode, false, iv, d) == d && Run(c, mode, true, iv, d) == d;
    }
  }

  lemma RunShort(c: Cipher, mode: nat, dec: bool, fb: Block, d: seq<byte>)
    requires mode <= OFB && 0 < |d| < 16
    ensures Run(c, mode, dec, fb, d) == Step(c, mode, dec, fb, d).0
  {
    hide Step;
    assert d[..|d|] == d;
  }

  lemma StepInverts(c: Cipher, mode: nat, fb: Block, p: seq<byte>)
    requires mode <= OFB && 0 < |p| <= 16
    requires mode == ECB || mode == CBC ==> |p| == 16
    requires c.DecInvertsEnc()
    ensures var (y, next) := Step(c, mode, false, fb, p);
            Step(c, mode, true, fb, y) == (p, next)
  {
    if mode == CBC {
      XorSeqInvolutive(p, fb);
    } else if mode != ECB {
      XorSeqInvolutive(p, c.enc(fb));
    }
  }

  /** The other order: in CBC every block-aligned string is the encryption of what it decrypts to. */
  lemma {:induction false} CbcEncryptInvertsDecrypt(c: Cipher, iv: Block, d: seq<byte>)
    requires |d| % 16 == 0
    requires c.EncInvertsDec()
    ensures Run(c, CBC, false, iv, Run(c, CBC, true, iv, d)) == d
    decreases |d|
  {
    if d != [] {
      hide Run, Feedback;
      var b, rest := d[..16], d[16..];
      assert d == b + rest;
      XorSeqInvolutive(c.dec(b), iv);
      RunCons(c, CBC, true, iv, b, rest);
      CbcEncryptInvertsDecrypt(c, b, rest);
      RunCons(c, CBC, false, iv, XorSeq(c.dec(b), iv), Run(c, CBC, true, b, rest));
    } else {
      assert Run(c, CBC, true, iv, d) == d && Run(c, CBC, false, iv, d) == d;
    }
  }

  // ---- the loops over buffers ------------------------------------------------------------------

  /** The counter increment, in place: carry from octet 15 until one does not wrap to zero. */
  method CtrInc(ctr: array<byte>)
    requires ctr.Length == 16
    modifies ctr
    ensures ctr[..] == Inc(old(ctr[..]))
  {
    hide Inc, Carrying;
    ghost var was := ctr[..];
    var i := 15;
    CarryStart(was);
    while i >= 0
      invariant -1 <= i <= 15
      invariant Carrying(was, ctr[..], i)
    {
      ghost var before := ctr[..];
      if ctr[i] < 255 {
        ctr[i] := ctr[i] + 1;
        assert ctr[..] == before[i := before[i] + 1];
        CarryStop(was, before, i);
        return;
      }
      ctr[i] := 0;
      assert ctr[..] == before[i := 0];
      CarryOn(was, before, i);
      i := i - 1;
    }
    CarryEnd(was, ctr[..]);
  }

  /** The octets above `i` have wrapped to zero; a carry into octet `i` is pending. */
  predicate Carrying(was: seq<byte>, s: seq<byte>, i: int) {
    && -1 <= i < |s| == |was|
    && s[..i + 1] == was[..i + 1]
    && Inc(was) == Inc(was[..i + 1]) + s[i + 1..]
  }

  lemma CarryStart(was: seq<byte>)
    requires was != []
    ensures Carrying(was, was, |was| - 1)
  {
    assert was[..|was|] == was;
  }

  lemma CarryStop(was: seq<byte>, s: seq<byte>, i: nat)
    requires Carrying(was, s, i) && s[i] < 255
    ensures s[i := s[i] + 1] == Inc(was)
  {
    var low, up: byte := was[..i + 1], s[i] + 1;
    assert low[..i] == s[..i] && low[i] == s[i];
    assert Inc(low) == s[..i] + [up];
    assert s[i := up] == s[..i] + [up] + s[i + 1..];
  }

  lemma CarryOn(was: seq<byte>, s: seq<byte>, i: nat)
    requires Carrying(was, s, i) && s[i] == 255
    ensures Carrying(was, s[i := 0], i - 1)
  {
    var low, t := was[..i + 1], s[i := 0];
    assert low[..i] == was[..i] && low[i] == s[i];
    assert Inc(low) == Inc(was[..i]) + [0];
    assert t[i..] == [0] + s[i + 1..];
    assert t[..i] == s[..i] == was[..i];
    assert (Inc(was[..i]) + [0]) + s[i + 1..] == Inc(was[..i]) + t[i..];
  }

  lemma CarryEnd(was: seq<byte>, s: seq<byte>)
    requires Carrying(was, s, -1)
    ensures s == Inc(was)
  {
    assert was[..0] == [];
    assert Inc([]) + s[0..] == s;
  }

  /** `out[at..at + n] = inp[from..from + n] xor ks`, octet by octet. */
  method XorInto(inp: array<byte>, from: nat, ks: seq<byte>, out: array<byte>, at: nat, n: nat)
    requires from + n <= inp.Length && at + n <= out.Length && n <= |ks|
    requires inp != out || from == at
    modifies out
    ensures out[..at] == old(out[..at]) && out[at + n..] == old(out[at + n..])
    ensures out[at..at + n] == XorSeq(old(inp[from..from + n]), ks)
  {
    ghost var src := inp[from..from + n];
    for i := 0 to n
      invariant forall k :: 0 <= k < at || at + i <= k < out.Length ==> out[k] == old(out[k])
      invariant forall k :: at <= k < at + i ==> out[k] == Xor(src[k - at], ks[k - at])
    {
      assert inp[from + i] == src[i];
      out[at + i] := Xor(inp[from + i], ks[i]);
    }
  }

  /** Copy `y` into the buffer at `at`. */
  method Store(out: array<byte>, at: nat, y: seq<byte>)
    requires at + |y| <= out.Length
    modifies out
    ensures out[..at] == old(out[..at]) && out[at + |y|..] == old(out[at + |y|..])
    ensures out[at..at + |y|] == y
  {
    for i := 0 to |y|
      invariant forall k :: 0 <= k < at || at + i <= k < out.Length ==> out[k] == old(out[k])
      invariant forall k :: at <= k < at + i ==> out[k] == y[k - at]
    {
      out[at + i] := y[i];
    }
  }

  /**
   * The hardware seen by the mode loop: one block transform per call, keyed by algorithm and
   * slot. A call may report failure; and once an access has failed (`hwFault`) whatever the call
   * returned is worthless, even when it reported success. `reliable`: neither ever happens, and
   * nothing on the way to the hardware fails.
   */
  class SymCore {
    const keyed: (nat, nat) -> Cipher
    const reliable: bool
    var hwFault: bool

    constructor (ciphers: (nat, nat) -> Cipher, sound: bool)
      ensures keyed == ciphers && reliable == sound && !hwFault
    {
      keyed, reliable := ciphers, sound;
      hwFault := false;
    }

    method BlockOp(alg: nat, slot: nat, dec: bool, x: Block) returns (rc: int, y: Block)
      modifies this
      ensures old(hwFault) ==> hwFault
      ensures rc == 0 && !hwFault ==>
                y == if dec then keyed(alg, slot).dec(x) else keyed(alg, slot).enc(x)
      ensures reliable ==> rc == 0 && hwFault == old(hwFault)
    {
      var fault: bool, refuse: bool, garbage: Block := *, *, *;
      hwFault := hwFault || (fault && !reliable);
      rc := if refuse && !reliable then -1 else 0;
      y := if hwFault then garbage else if dec then keyed(alg, slot).dec(x) else keyed(alg, slot).enc(x);
    }

    /** One turn of the mode switch on `n` octets; the feedback register is `fb`. */
    method OneBlock(alg: nat, slot: nat, dec: bool, mode: nat, fb: array<byte>,
                    inp: array<byte>, from: nat, out: array<byte>, at: nat, n: nat)
      returns (rc: int)
      requires fb.Length == 16 && fb != inp && fb != out
      requires from + n <= inp.Length && at + n <= out.Length && 0 < n <= 16
      requires inp != out || from == at
      requires mode <= OFB && (mode == ECB || mode == CBC ==> n == 16)
      modifies this, out, fb
      ensures old(hwFault) ==> hwFault
      ensures out[..at] == old(out[..at]) && out[at + n..] == old(out[at + n..])
      ensures rc == 0 && !hwFault ==>
                var (y, next) := Step(keyed(alg, slot), mode, dec, old(fb[..]), old(inp[from..from + n]));
                out[at..at + n] == y && fb[..] == next
      ensures reliable ==> rc == 0 && hwFault == old(hwFault)
    {
      var y: Block;
      if mode == ECB {
        rc, y := BlockOp(alg, slot, dec, inp[from..from + 16]);
        if rc != 0 { return; }
        Store(out, at, y);
      } else if mode == CBC && !dec {
        rc, y := BlockOp(alg, slot, false, XorSeq(inp[from..from + 16], fb[..]));
        if rc != 0 { return; }
        Store(out, at, y);
        Store(fb, 0, out[at..at + 16]);
      } else if mode == CBC {
        var prev := inp[from..from + 16];
        rc, y := BlockOp(alg, slot, true, prev);
        if rc != 0 { return; }
        Store(out, at, XorSeq(y, fb[..]));
        Store(fb, 0, prev);
      } else {
        rc, y := BlockOp(alg, slot, false, fb[..]);
        if rc != 0 { return; }
        var ct := if dec then inp[from..from + n] else XorSeq(inp[from..from + n], y);
        XorInto(inp, from, y, out, at, n);
        if mode == CTR {
          CtrInc(fb);
        } else if mode == OFB {
          Store(fb, 0, y);
        } else if n == 16 {
          Store(fb, 0, ct);
        }
      }
    }

    /** The loop body of `Crypt`: the next `n` octets of `task`. */
    method Advance(alg: nat, slot: nat, dec: bool, mode: nat, fb: array<byte>, inp: array<byte>, from: nat,
                   out: array<byte>, at: nat, off: nat, n: nat, ghost task: Task)
      returns (rc: int)
      requires mode <= OFB && (mode == ECB || mode == CBC ==> n == 16)
      requires fb.Length == 16 && fb != inp && fb != out && (inp != out || from == at)
      requires task.c == keyed(alg, slot) && task.mode == mode && task.dec == dec && task.from == from && task.at == at
      requires off < |task.src| && n == if |task.src| - off >= 16 then 16 else |task.src| - off
      requires task.Outside(out[..]) && task.Ahead(inp[..], off)
      requires hwFault || task.Behind(out[..], fb[..], off)
      modifies this, out, fb
      ensures old(hwFault) ==> hwFault
      ensures task.Outside(out[..])
      ensures rc == 0 ==> task.Ahead(inp[..], off + n)
      ensures rc == 0 ==> hwFault || task.Behind(out[..], fb[..], off + n)
      ensures reliable ==> rc == 0 && hwFault == old(hwFault)
    {
      hide Run, Step;
      ghost var in0, out0, held := inp[..], out[..], fb[..];
      rc := OneBlock(alg, slot, dec, mode, fb, inp, from + off, out, at + off, n);
      ghost var in1, out1, next := inp[..], out[..], fb[..];
      assert out1[..at + off] == out0[..at + off] && out1[at + off + n..] == out0[at + off + n..];
      task.KeepsOutside(out0, out1, off, n);
      if rc == 0 {
        task.KeepsAhead(in0, in1, out0, out1, off, n);
        if !hwFault {
          assert in0[from + off..from + off + n] == old(inp[from + off..from + off + n]);
          task.StepBehind(in0, out0, out1, held, next, off, n);
        }
      }
    }

    /**
     * One mode over `len` octets from `inp[from..]` to `out[at..]`; the two may be one buffer.
     * A result is claimed only for a call that reported success without a failed access, which is
     * what the serving loop hands out as a success.
     */
    method Crypt(alg: nat, slot: nat, dec: bool, mode: nat, iv: Block,
                 inp: array<byte>, from: nat, out: array<byte>, at: nat, len: nat)
      returns (rc: int)
      requires from + len <= inp.Length && at + len <= out.Length
      requires inp != out || from == at
      requires (mode == ECB || mode == CBC) ==> len % 16 == 0
      modifies this, out
      ensures old(hwFault) ==> hwFault
      ensures out[..at] == old(out[..at]) && out[at + len..] == old(out[at + len..])
      ensures mode > OFB && len > 0 ==> rc == -1
      ensures mode <= OFB && rc == 0 && !hwFault ==>
                out[at..at + len] == Run(keyed(alg, slot), mode, dec, iv, old(inp[from..from + len]))
      ensures reliable && mode <= OFB ==> rc == 0 && hwFault == old(hwFault)
    {
      if mode > OFB {
        return if len > 0 then -1 else 0;
      }
      ghost var task := Task(keyed(alg, slot), mode, dec, iv, inp[from..from + len], from, out[..], at);
      var fb := new byte[16];
      Store(fb, 0, iv);
      assert fb[..] == iv;
      task.Start(inp[..]);
      rc := AllBlocks(alg, slot, dec, mode, fb, inp, from, out, at, len, task);
      if rc == 0 && !hwFault {
        task.Finish(out[..], fb[..]);
      }
    }

    method AllBlocks(alg: nat, slot: nat, dec: bool, mode: nat, fb: array<byte>, inp: array<byte>, from: nat,
                     out: array<byte>, at: nat, len: nat, ghost task: Task)
      returns (rc: int)
      requires mode <= OFB && len == |task.src| && (mode == ECB || mode == CBC ==> len % 16 == 0)
      requires fb.Length == 16 && fb != inp && fb != out && (inp != out || from == at)
      requires task.c == keyed(alg, slot) && task.mode == mode && task.dec == dec && task.from == from && task.at == at
      requires task.Outside(out[..]) && task.Ahead(inp[..], 0) && task.Behind(out[..], fb[..], 0)
      modifies this, out, fb
      ensures old(hwFault) ==> hwFault
      ensures task.Outside(out[..])
      ensures rc == 0 ==> hwFault || task.Behind(out[..], fb[..], len)
      ensures reliable ==> rc == 0 && hwFault == old(hwFault)
    {
      hide Run, Step, Task.Outside, Task.Ahead, Task.Behind;
      var off := 0;
      while off < len
        invariant off <= len && (mode == ECB || mode == CBC ==> (len - off) % 16 == 0)
        invariant old(hwFault) ==> hwFault
        invariant reliable ==> hwFault == old(hwFault)
        invariant task.Outside(out[..]) && task.Ahead(inp[..], off)
        invariant hwFault || task.Behind(out[..], fb[..], off)
      {
        var n := if len - off >= 16 then 16 else len - off;
        rc := Advance(alg, slot, dec, mode, fb, inp, from, out, at, off, n, task);
        if rc != 0 {
          return;
        }
        off := off + n;
      }
      rc := 0;
    }
  }

  /** What one call of `Crypt` has to do: the message `src` found at `from`, to go to `at` of `out0`. */
  datatype Task = Task(c: Cipher, mode: nat, dec: bool, iv: Block, src: seq<byte>, from: nat,
                       out0: seq<byte>, at: nat) {

    ghost predicate Outside(o: seq<byte>)
    {
      |o| == |out0| && at + |src| <= |o| && o[..at] == out0[..at] && o[at + |src|..] == out0[at + |src|..]
    }

    /** The part of the message not yet read is still in the input buffer. */
    ghost predicate Ahead(i: seq<byte>, off: nat)
    {
      off <= |src| && from + |src| <= |i| && i[from + off..from + |src|] == src[off..]
    }

    /** What has been written so far, and the feedback register, are those of `Run`. */
    ghost predicate Behind(o: seq<byte>, fb: seq<byte>, off: nat)
    {
      && mode <= OFB && off <= |src| && |fb| == 16 && at + off <= |o|
      && Run(c, mode, dec, iv, src) == o[at..at + off] + Run(c, mode, dec, fb, src[off..])
    }

    lemma Start(i: seq<byte>)
      requires mode <= OFB && at + |src| <= |out0| && from + |src| <= |i| && i[from..from + |src|] == src
      ensures Outside(out0) && Ahead(i, 0) && Behind(out0, iv, 0)
    {
      assert src[0..] == src;
    }

    lemma Finish(o: seq<byte>, fb: seq<byte>)
      requires Behind(o, fb, |src|)
      ensures o[at..at + |src|] == Run(c, mode, dec, iv, src)
    {
      assert src[|src|..] == [];
    }

    lemma KeepsOutside(o: seq<byte>, o': seq<byte>, off: nat, n: nat)
      requires Outside(o) && |o'| == |o| && off + n <= |src|
      requires o[..at + off] == o'[..at + off] && o[at + off + n..] == o'[at + off + n..]
      ensures Outside(o')
    {
      assert o'[..at] == o'[..at + off][..at] == o[..at + off][..at];
      var k := |src| - off - n;
      assert o'[at + |src|..] == o'[at + off + n..][k..] == o[at + off + n..][k..];
    }

    lemma KeepsAhead(i: seq<byte>, i': seq<byte>, o: seq<byte>, o': seq<byte>, off: nat, n: nat)
      requires Ahead(i, off) && off + n <= |src|
      requires i' == i || (i == o && i' == o' && from == at)
      requires |o'| == |o| && at + |src| <= |o| && o[at + off + n..] == o'[at + off + n..]
      ensures Ahead(i', off + n)
    {
      var k := |src| - off - n;
      assert i[from + off + n..from + |src|] == i[from + off..from + |src|][n..] == src[off..][n..] == src[off + n..];
      if i' != i {
        assert o'[at + off + n..at + |src|] == o'[at + off + n..][..k] == o[at + off + n..][..k];
      }
    }

    lemma StepBehind(i: seq<byte>, o: seq<byte>, o': seq<byte>, held: seq<byte>, next: seq<byte>, off: nat, n: nat)
      requires Ahead(i, off) && Behind(o, held, off) && |o'| == |o| && |next| == 16
      requires off < |src| && n == (if |src| - off >= 16 then 16 else |src| - off)
      requires at + |src| <= |o| && o[..at + off] == o'[..at + off]
      requires Step(c, mode, dec, held, i[from + off..from + off + n]) == (o'[at + off..at + off + n], next)
      ensures Behind(o', next, off + n)
    {
      hide Run, Step;
      var sofar := o[at..at + off];
      var y := o'[at + off..at + off + n];
      assert i[from + off..from + off + n] == i[from + off..from + |src|][..n] == src[off..][..n] == src[off..off + n];
      RunResume(c, mode, dec, iv, src, off, sofar, held, y, next);
      assert o'[at..at + off] == o'[..at + off][at..] == o[..at + off][at..] == sofar;
      assert o'[at..at + off + n] == sofar + y;
    }
  }

  /** One more block done: where the loop stands in `Run` after it. */
  lemma RunResume(c: Cipher, mode: nat, dec: bool, iv: Block, src: seq<byte>, off: nat,
                  sofar: seq<byte>, held: Block, y: seq<byte>, next: Block)
    requires mode <= OFB && off < |src| && |y| == (if |src| - off >= 16 then 16 else |src| - off)
    requires Step(c, mode, dec, held, src[off..off + |y|]) == (y, next)
    requires Run(c, mode, dec, iv, src) == sofar + Run(c, mode, dec, held, src[off..])
    ensures Run(c, mode, dec, iv, src) == sofar + y + Run(c, mode, dec, next, src[off + |y|..])
  {
    hide Step;
    var rest := src[off..];
    assert rest[..|y|] == src[off..off + |y|] && rest[|y|..] == src[off + |y|..];
    assert Run(c, mode, dec, held, rest) == y + Run(c, mode, dec, next, rest[|y|..]);
  }
}
