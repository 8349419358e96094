/**
 * Encryption and decryption of whole messages: CBC with PKCS#7 padding (section 6.3 of RFC 5652),
 * sent to the daemon in pieces that fit one request and chained through the last ciphertext block.
 */
module HsmOps {
  import opened Bytes
  import opened SymModes
  import opened SymService
  import opened Wire

  const SYM_SLOT: byte := 3
  const CHUNK := 16368

  // ---- what a sealed message is --------------------------------------------------------------

  function PadLen(n: nat): (k: byte)
    ensures 1 <= k <= 16
  {
    16 - n % 16
  }

  function Pad(p: seq<byte>): (r: seq<byte>)
    ensures |r| % 16 == 0 && |r| > |p|
  {
    var k := PadLen(|p|);
    PadAligned(|p|);
    p + seq(k, _ => k)
  }

  lemma PadAligned(n: nat)
    ensures (n + (16 - n % 16)) % 16 == 0
  {
  }

  /** IV, then one CBC pass over the whole padded message. */
  function Sealed(c: Cipher, iv: Block, p: seq<byte>): seq<byte> {
    iv + Run(c, CBC, false, iv, Pad(p))
  }

  ghost predicate IsSealed(c: Cipher, s: seq<byte>, p: seq<byte>) {
    |s| >= 16 && s == Sealed(c, s[..16], p)
  }

  /** The trailing octets a receiver checks: the last one, from 1 to 16, repeated that many times. */
  predicate PadOk(d: seq<byte>) {
    |d| >= 16 && var k := d[|d| - 1]; 1 <= k <= 16 && forall i :: |d| - k <= i < |d| ==> d[i] == k
  }

  lemma PadInjective(p: seq<byte>, q: seq<byte>)
    requires Pad(p) == Pad(q)
    ensures p == q
  {
    var d, e := Pad(p), Pad(q);
    assert d[|d| - 1] == PadLen(|p|) && e[|e| - 1] == PadLen(|q|);
    assert |p| == |q|;
    assert p == d[..|p|] && q == e[..|q|];
  }

  /** Block-aligned data is a padded message exactly when its trailing octets check out. */
  lemma PadOkIff(d: seq<byte>)
    requires |d| % 16 == 0
    ensures PadOk(d) <==> exists p: seq<byte> :: d == Pad(p)
    ensures PadOk(d) ==> d == Pad(d[..|d| - d[|d| - 1]])
  {
    if PadOk(d) {
      var k := d[|d| - 1];
      var p := d[..|d| - k];
      assert |p| % 16 == (16 - k) % 16;
      assert PadLen(|p|) == k;
      assert d == p + seq(k, _ => k) == Pad(p);
    }
    if exists p: seq<byte> :: d == Pad(p) {
      var p: seq<byte> :| d == Pad(p);
      assert d[|d| - 1] == PadLen(|p|);
    }
  }

  /** A string seals at most one message, under whatever IVs. */
  lemma SealedUnique(c: Cipher, s: seq<byte>, p: seq<byte>, q: seq<byte>)
    requires c.DecInvertsEnc() && IsSealed(c, s, p) && IsSealed(c, s, q)
    ensures p == q
  {
    var iv := s[..16];
    assert s[16..] == Run(c, CBC, false, iv, Pad(p)) == Run(c, CBC, false, iv, Pad(q));
    DecryptInvertsEncrypt(c, CBC, iv, Pad(p));
    DecryptInvertsEncrypt(c, CBC, iv, Pad(q));
    PadInjective(p, q);
  }

  /** The receiver's view decides the question: CBC-decrypt, then look at the trailing octets. */
  lemma SealedIff(c: Cipher, s: seq<byte>)
    requires c.DecInvertsEnc() && c.EncInvertsDec()
    requires |s| >= 32 && |s| % 16 == 0
    ensures var d := Run(c, CBC, true, s[..16], s[16..]);
            (PadOk(d) <==> exists p: seq<byte> :: IsSealed(c, s, p)) &&
            (PadOk(d) ==> IsSealed(c, s, d[..|d| - d[|d| - 1]]))
  {
    var iv, body := s[..16], s[16..];
    var d := Run(c, CBC, true, iv, body);
    PadOkIff(d);
    if PadOk(d) {
      CbcEncryptInvertsDecrypt(c, iv, body);
      assert s == iv + body;
      assert IsSealed(c, s, d[..|d| - d[|d| - 1]]);
    }
    if exists p: seq<byte> :: IsSealed(c, s, p) {
      var p: seq<byte> :| IsSealed(c, s, p);
      assert body == Run(c, CBC, false, iv, Pad(p));
      DecryptInvertsEncrypt(c, CBC, iv, Pad(p));
    }
  }

  /** Every sealed string has the length the receiver insists on. */
  lemma SealedLength(c: Cipher, s: seq<byte>, p: seq<byte>)
    requires IsSealed(c, s, p)
    ensures |s| >= 32 && |s| % 16 == 0 && |s| == 16 + |p| + PadLen(|p|)
  {
  }

  // ---- pieces --------------------------------------------------------------------------------

  /** One more piece of a CBC pass, chained from the last ciphertext block before it. */
  lemma PieceChains(c: Cipher, dec: bool, iv: Block, d: seq<byte>, off: nat, n: nat)
    requires off % 16 == 0 && off + n <= |d|
    ensures var r := Run(c, CBC, dec, iv, d[..off]);
            var prev := if off == 0 then iv else (if dec then d[..off] else r)[off - 16..];
            Run(c, CBC, dec, iv, d[..off + n]) == r + Run(c, CBC, dec, prev, d[off..off + n])
  {
    assert d[..off + n] == d[..off] + d[off..off + n];
    RunAppend(c, CBC, dec, iv, d[..off], d[off..off + n]);
    if off > 0 {
      CbcFeedback(c, dec, iv, d[..off]);
    }
  }

  /** `Overrun`: a buffer came out too short for what is written to it, and nothing can be said of what
      happens then. */
  datatype Outcome = Done(buf: array<byte>, len: nat) | BadLength | BadPadding | Failed | Overrun | Rejected

  /** The two 32-bit sums that size the buffers are the true lengths exactly for these messages. The
      sixteen lengths just above them pad to a number that fits, and the second sum wraps to zero. */
  lemma RoomIff(n: nat)
    requires n < U32
    ensures var len := (n + PadLen(n)) % U32;
            len == n + PadLen(n) && (len + 16) % U32 == n + PadLen(n) + 16 <==> n + 32 < U32
    ensures U32 <= n + 32 < U32 + 16 ==> n + PadLen(n) < U32 && (n + PadLen(n) + 16) % U32 == 0
  {
    var q := n / 16;
    assert n + PadLen(n) == 16 * (q + 1);
    assert U32 == 16 * 0x1000_0000;
  }

  /**
   * Seal a message. `Failed` covers the key store, the TA, the random source, the connection and
   * the hardware; `Rejected` a request the library or the daemon found malformed, which no piece of
   * any message is. The IV of a success stands at the head of the result.
   */
  method Encrypt(core: SymCore, alg: byte, input: array<byte>) returns (r: Outcome)
    requires input.Length < U32
    modifies core
    ensures r.Done? || r.Failed? || r.Overrun? || r.Rejected?
    ensures alg <= 2 ==> !r.Rejected?
    ensures core.reliable && alg <= 2 && input.Length + 32 < U32 ==> r.Done?
    ensures r.Done? ==> input.Length + 32 < U32
    ensures r.Overrun? ==> input.Length + 32 >= U32
    ensures r.Done? ==> fresh(r.buf) && r.len == r.buf.Length
                        && IsSealed(core.keyed(alg, SYM_SLOT), r.buf[..], input[..])
  {
    var ready: bool, iv: Block := *, *;
    if !ready && !core.reliable {
      return Failed;
    }
    var n := input.Length;
    var pad := 16 - n % 16;
    var len := (n + pad) % U32;
    var total := (len + 16) % U32;
    RoomIff(n);
    if len < n + pad || total < 16 + len {
      return Overrun;
    }
    PadAligned(n);
    var src, dst := new byte[len], new byte[total];
    FillPadded(input, src, pad);
    hide Run, Pad;
    Store(dst, 0, iv);
    assert dst[..16] == iv;
    var rv := EncryptPieces(core, alg, iv, src, dst);
    if rv != SDR_OK {
      return if rv == SDR_INARGERR then Rejected else Failed;
    }
    assert dst[..] == dst[..16] + dst[16..];
    return Done(dst, len + 16);
  }

  /** The message and its padding. */
  method FillPadded(input: array<byte>, src: array<byte>, pad: nat)
    requires src != input && pad == PadLen(input.Length) && src.Length == input.Length + pad
    modifies src
    ensures src[..] == Pad(input[..])
  {
    var n := input.Length;
    Store(src, 0, input[..]);
    var i := 0;
    while i < pad
      invariant 0 <= i <= pad && src[..n] == input[..]
      invariant forall j :: n <= j < n + i ==> src[j] == pad
    {
      src[n + i] := pad;
      i := i + 1;
    }
  }

  /** The buffer after one more piece: IV and the CBC pass up to and including it. */
  lemma PieceSealed(c: Cipher, iv: Block, d: seq<byte>, off: nat, n: nat, a: seq<byte>, b: seq<byte>)
    requires off % 16 == 0 && off + n <= |d| && |a| == |b| == |d| + 16
    requires a[..16] == iv && a[16..16 + off] == Run(c, CBC, false, iv, d[..off])
    requires b[..16 + off] == a[..16 + off]
    requires b[16 + off..16 + off + n] == Run(c, CBC, false, a[off..off + 16], d[off..off + n])
    ensures b[..16] == iv && b[16..16 + off + n] == Run(c, CBC, false, iv, d[..off + n])
  {
    PieceChains(c, false, iv, d, off, n);
    assert off > 0 ==> a[off..off + 16] == a[16..16 + off][off - 16..];
    assert b[..16] == b[..16 + off][..16] && b[16..16 + off] == b[..16 + off][16..];
    assert b[16..16 + off + n] == b[16..16 + off] + b[16 + off..16 + off + n];
  }

  method EncryptPieces(core: SymCore, alg: byte, iv: Block, src: array<byte>, dst: array<byte>)
    returns (rv: nat)
    requires src != dst && dst.Length == src.Length + 16 && src.Length % 16 == 0 && dst[..16] == iv
    modifies core, dst
    ensures dst[..16] == iv
    ensures alg <= 2 ==> rv != SDR_INARGERR && (core.reliable ==> rv == SDR_OK)
    ensures rv == SDR_OK ==> dst[16..] == Run(core.keyed(alg, SYM_SLOT), CBC, false, iv, src[..])
  {
    ghost var c, d := core.keyed(alg, SYM_SLOT), src[..];
    hide *;
    var len, off := src.Length, 0;
    SealedNothing(c, iv, d, dst[..]);
    while off < len
      invariant off <= len && off % 16 == 0
      invariant dst[..16] == iv && SealedTo(c, iv, src[..], dst[..], off)
    {
      var n := if len - off > CHUNK then CHUNK else len - off;
      NextAligned(len, off);
      rv := EncryptPiece(core, alg, iv, src, dst, off, n);
      if rv != SDR_OK {
        return;
      }
      off := off + n;
    }
    SealedAll(c, iv, src[..], dst[..]);
    assert dst[16..] == dst[..][16..];
    return SDR_OK;
  }

  /** The loop body: one request, started from the IV or the last ciphertext block. */
  method EncryptPiece(core: SymCore, alg: byte, iv: Block, src: array<byte>, dst: array<byte>, off: nat, n: nat)
    returns (rv: nat)
    requires 0 < n && n + 16 <= MAXPAY && n % 16 == 0
    requires src != dst && dst.Length == src.Length + 16 && off % 16 == 0 && off + n <= src.Length
    requires dst[..16] == iv && SealedTo(core.keyed(alg, SYM_SLOT), iv, src[..], dst[..], off)
    modifies core, dst
    ensures dst[..16] == iv
    ensures alg <= 2 ==> rv != SDR_INARGERR && (core.reliable ==> rv == SDR_OK)
    ensures rv == SDR_OK ==> SealedTo(core.keyed(alg, SYM_SLOT), iv, src[..], dst[..], off + n)
  {
    ghost var c, d, before := core.keyed(alg, SYM_SLOT), src[..], dst[..];
    hide *;
    var prev: Block := if off > 0 then dst[off..off + 16] else iv;
    assert prev == before[off..off + 16];
    PieceServed(alg, n);
    rv := SymMode(core, alg, CBC, SYM_SLOT, false, prev, src, off, n, dst, 16 + off);
    ghost var after := dst[..];
    assert after[..16 + off] == dst[..16 + off] == before[..16 + off];
    assert dst[..16] == after[..16 + off][..16] == before[..16];
    if rv == SDR_OK {
      assert src[off..off + n] == d[off..off + n] && after[16 + off..16 + off + n] == dst[16 + off..16 + off + n];
      SealedMore(c, iv, d, before, after, off, n);
    }
  }

  /** The daemon turns down no piece. */
  lemma PieceServed(alg: byte, n: nat)
    requires 0 < n && n + 16 <= MAXPAY && n % 16 == 0
    ensures Served(alg, SYM_SLOT, CBC, n + 16) <==> alg <= 2
    ensures SDR_OK != SDR_INARGERR
  {
  }

  /** The output buffer holds the IV and the encryption up to `off`. */
  ghost predicate SealedTo(c: Cipher, iv: Block, d: seq<byte>, b: seq<byte>, off: nat) {
    && off <= |d| && |b| == |d| + 16 && b[..16] == iv
    && b[16..16 + off] == Run(c, CBC, false, iv, d[..off])
  }

  lemma SealedNothing(c: Cipher, iv: Block, d: seq<byte>, b: seq<byte>)
    requires |b| == |d| + 16 && b[..16] == iv
    ensures SealedTo(c, iv, d, b, 0)
  {
    assert d[..0] == [] && b[16..16] == [];
  }

  lemma SealedMore(c: Cipher, iv: Block, d: seq<byte>, a: seq<byte>, b: seq<byte>, off: nat, n: nat)
    requires SealedTo(c, iv, d, a, off) && off % 16 == 0 && off + n <= |d| && |b| == |a|
    requires b[..16 + off] == a[..16 + off]
    requires b[16 + off..16 + off + n] == Run(c, CBC, false, a[off..off + 16], d[off..off + n])
    ensures SealedTo(c, iv, d, b, off + n)
  {
    hide Run;
    PieceSealed(c, iv, d, off, n, a, b);
  }

  lemma SealedAll(c: Cipher, iv: Block, d: seq<byte>, b: seq<byte>)
    requires SealedTo(c, iv, d, b, |d|)
    ensures b[16..] == Run(c, CBC, false, iv, d)
  {
    hide Run;
    assert d[..|d|] == d && b[16..16 + |d|] == b[16..];
  }

  /**
   * Open a sealed message. The three refusals are told apart by their message in the source; only
   * `Failed` says nothing about the input.
   */
  method Decrypt(core: SymCore, alg: byte, input: array<byte>) returns (r: Outcome)
    requires input.Length < U32
    requires core.keyed(alg, SYM_SLOT).DecInvertsEnc() && core.keyed(alg, SYM_SLOT).EncInvertsDec()
    modifies core
    ensures !r.Overrun?
    ensures alg <= 2 ==> !r.Rejected?
    ensures core.reliable && alg <= 2 ==> !r.Failed?
    ensures r.Done? ==> fresh(r.buf) && r.len <= r.buf.Length
                        && IsSealed(core.keyed(alg, SYM_SLOT), input[..], r.buf[..r.len])
    ensures r.BadLength? || r.BadPadding? ==>
              !exists p: seq<byte> :: IsSealed(core.keyed(alg, SYM_SLOT), input[..], p)
  {
    ghost var c := core.keyed(alg, SYM_SLOT);
    var n := input.Length;
    if n < 32 || (n - 16) % 16 != 0 {
      forall p: seq<byte> | IsSealed(c, input[..], p)
        ensures false
      {
        SealedLength(c, input[..], p);
      }
      return BadLength;
    }
    var ready: bool := *;
    if !ready && !core.reliable {
      return Failed;
    }
    var len := n - 16;
    var dst := new byte[len];
    var rv := DecryptPieces(core, alg, input, dst);
    if rv != SDR_OK {
      return if rv == SDR_INARGERR then Rejected else Failed;
    }
    hide Run, Step;
    SealedIff(c, input[..]);
    assert input[..][..16] == input[..16] && input[..][16..] == input[16..];
    assert dst[..] == Run(c, CBC, true, input[..16], input[16..]);
    var pad := CheckPadding(dst);
    if pad == 0 {
      return BadPadding;
    }
    assert dst[..][..len - pad] == dst[..len - pad];
    return Done(dst, len - pad);
  }

  /** The length of the padding at the end of the buffer, zero if it is not one. */
  method CheckPadding(dst: array<byte>) returns (pad: nat)
    requires dst.Length >= 16
    ensures pad > 0 <==> PadOk(dst[..])
    ensures pad > 0 ==> pad == dst[dst.Length - 1] && pad <= 16
  {
    var len := dst.Length;
    var last: int := dst[len - 1];
    if last == 0 || last > 16 {
      return 0;
    }
    var i := 0;
    while i < last
      invariant 0 <= i <= last
      invariant forall j :: len - i <= j < len ==> dst[j] == last
    {
      if dst[len - 1 - i] != last {
        assert dst[..][len - 1 - i] != last;
        return 0;
      }
      i := i + 1;
    }
    return last;
  }

  /** A piece fits one request and is whole blocks, so the offset after it is at a block boundary. */
  lemma NextAligned(len: nat, off: nat)
    requires len % 16 == 0 && off % 16 == 0 && off < len
    ensures var n := if len - off > CHUNK then CHUNK else len - off;
            (off + n) % 16 == 0 && 0 < n && n + 16 <= MAXPAY && n % 16 == 0
  {
  }

  /** The plain text after one more piece. */
  lemma PieceOpened(c: Cipher, s: seq<byte>, off: nat, n: nat, a: seq<byte>, y: seq<byte>)
    requires 16 + off + n <= |s| && off % 16 == 0
    requires a == Run(c, CBC, true, s[..16], s[16..][..off])
    requires y == Run(c, CBC, true, s[off..off + 16], s[16 + off..16 + off + n])
    ensures a + y == Run(c, CBC, true, s[..16], s[16..][..off + n])
  {
    hide Run;
    ShiftedSlice(s, off, n);
    PieceChains(c, true, s[..16], s[16..], off, n);
  }

  lemma ShiftedSlice(s: seq<byte>, off: nat, n: nat)
    requires 16 + off + n <= |s|
    ensures s[16..][off..off + n] == s[16 + off..16 + off + n]
    ensures off >= 16 ==> s[16..][..off][off - 16..] == s[off..off + 16]
  {
  }

  /** The output buffer holds the decryption up to `off`. */
  ghost predicate OpenedTo(c: Cipher, s: seq<byte>, d: seq<byte>, off: nat) {
    off <= |d| && |s| == |d| + 16 && d[..off] == Run(c, CBC, true, s[..16], s[16..][..off])
  }

  lemma OpenedNothing(c: Cipher, s: seq<byte>, d: seq<byte>)
    requires |s| == |d| + 16
    ensures OpenedTo(c, s, d, 0)
  {
    assert s[16..][..0] == [] && d[..0] == [];
  }

  lemma OpenedMore(c: Cipher, s: seq<byte>, d: seq<byte>, d': seq<byte>, off: nat, n: nat)
    requires OpenedTo(c, s, d, off) && off % 16 == 0 && off + n <= |d| == |d'|
    requires d'[..off] == d[..off]
    requires d'[off..off + n] == Run(c, CBC, true, s[off..off + 16], s[16 + off..16 + off + n])
    ensures OpenedTo(c, s, d', off + n)
  {
    hide Run;
    PieceOpened(c, s, off, n, d[..off], d'[off..off + n]);
    assert d'[..off + n] == d'[..off] + d'[off..off + n];
  }

  lemma OpenedAll(c: Cipher, s: seq<byte>, d: seq<byte>)
    requires OpenedTo(c, s, d, |d|)
    ensures d == Run(c, CBC, true, s[..16], s[16..])
  {
    hide Run;
    assert s[16..][..|d|] == s[16..] && d[..|d|] == d;
  }

  method DecryptPieces(core: SymCore, alg: byte, input: array<byte>, dst: array<byte>) returns (rv: nat)
    requires input != dst && input.Length == dst.Length + 16 && dst.Length % 16 == 0
    modifies core, dst
    ensures alg <= 2 ==> rv != SDR_INARGERR && (core.reliable ==> rv == SDR_OK)
    ensures rv == SDR_OK ==> dst[..] == Run(core.keyed(alg, SYM_SLOT), CBC, true, input[..16], input[16..])
  {
    ghost var c, whole := core.keyed(alg, SYM_SLOT), input[..];
    hide *;
    var len, off := dst.Length, 0;
    OpenedNothing(c, whole, dst[..]);
    while off < len
      invariant off <= len && off % 16 == 0
      invariant OpenedTo(c, whole, dst[..], off)
    {
      var n := if len - off > CHUNK then CHUNK else len - off;
      NextAligned(len, off);
      rv := DecryptPiece(core, alg, input, dst, off, n);
      if rv != SDR_OK {
        return;
      }
      off := off + n;
    }
    OpenedAll(c, whole, dst[..]);
    assert whole[..16] == input[..16] && whole[16..] == input[16..];
    return SDR_OK;
  }

  /** The loop body: one request, started from the ciphertext block before the piece. */
  method DecryptPiece(core: SymCore, alg: byte, input: array<byte>, dst: array<byte>, off: nat, n: nat)
    returns (rv: nat)
    requires 0 < n && n + 16 <= MAXPAY && n % 16 == 0
    requires input != dst && input.Length == dst.Length + 16 && off % 16 == 0 && off + n <= dst.Length
    requires OpenedTo(core.keyed(alg, SYM_SLOT), input[..], dst[..], off)
    modifies core, dst
    ensures alg <= 2 ==> rv != SDR_INARGERR && (core.reliable ==> rv == SDR_OK)
    ensures rv == SDR_OK ==> OpenedTo(core.keyed(alg, SYM_SLOT), input[..], dst[..], off + n)
  {
    ghost var c, whole, before := core.keyed(alg, SYM_SLOT), input[..], dst[..];
    hide *;
    var prev: Block := input[off..off + 16];
    PieceServed(alg, n);
    rv := SymMode(core, alg, CBC, SYM_SLOT, true, prev, input, 16 + off, n, dst, off);
    if rv == SDR_OK {
      ghost var after := dst[..];
      assert prev == whole[off..off + 16] && input[16 + off..16 + off + n] == whole[16 + off..16 + off + n];
      assert after[..off] == dst[..off] == before[..off] && after[off..off + n] == dst[off..off + n];
      OpenedMore(c, whole, before, after, off, n);
    }
  }

  /** What was sealed comes back: the round trip over any message. */
  method RoundTrip(core: SymCore, alg: byte, input: array<byte>) returns (r: Outcome)
    requires input.Length < U32
    requires core.keyed(alg, SYM_SLOT).DecInvertsEnc() && core.keyed(alg, SYM_SLOT).EncInvertsDec()
    modifies core
    ensures r.Overrun? ==> input.Length + 32 >= U32
    ensures alg <= 2 ==> !r.Rejected?
    ensures core.reliable && alg <= 2 && input.Length + 32 < U32 ==> r.Done?
    ensures r.Failed? || r.Overrun? || r.Rejected? || (r.Done? && r.len <= r.buf.Length && r.buf[..r.len] == input[..])
  {
    var s := Encrypt(core, alg, input);
    if !s.Done? {
      return s;
    }
    ghost var c, sealed := core.keyed(alg, SYM_SLOT), s.buf[..];
    SealedLength(c, sealed, input[..]);
    r := Decrypt(core, alg, s.buf);
    assert IsSealed(c, sealed, input[..]) && sealed == s.buf[..];
    if r.Done? {
      SealedUnique(c, sealed, input[..], r.buf[..r.len]);
    }
  }
}
