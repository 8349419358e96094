/**
 * One SYM_CRYPT request on its way from the client library to the mode loop: packing the
 * operands, the guards on both sides, and the rule that a failed hardware access turns a success
 * into a hardware failure.
 */
module SymService {
  import opened Bytes
  import opened SymModes
  import opened Wire

  const SDR_OK := 0
  const SDR_COMMFAIL := 0x0100_0003
  const SDR_INARGERR := 0x0100_0004
  const SDR_HARDFAIL := 0x0100_0006

  /** The operand word a0: algorithm in octet 0, direction in bit 8, mode in octet 2. */
  function PackA0(alg: byte, dec: bool, mode: byte): nat {
    var a: int, m: int := alg, mode;
    a + (if dec then 256 else 0) + 65536 * m
  }

  function AlgOf(a0: nat): byte { a0 % 256 }

  predicate DecOf(a0: nat) { a0 / 256 % 2 == 1 }

  function ModeOf(a0: nat): byte { a0 / 65536 % 256 }

  function SlotOf(a1: nat): byte { a1 % 256 }

  lemma PackA0RoundTrip(alg: byte, dec: bool, mode: byte)
    ensures var a0 := PackA0(alg, dec, mode); AlgOf(a0) == alg && DecOf(a0) == dec && ModeOf(a0) == mode
  {
    var a: int, m: int := alg, mode;
    var d := if dec then 1 else 0;
    var a0 := PackA0(alg, dec, mode);
    assert a0 == a + 256 * (d + 256 * m);
    assert a0 / 256 == d + 256 * m;
  }

  /** The requests the daemon serves: known algorithm, slot and mode, an IV and some data, and
      whole blocks for the two modes that cannot cut one. */
  predicate Served(alg: nat, slot: nat, mode: nat, len: nat)
  {
    && alg <= 2 && slot <= 7 && 16 < len <= MAXPAY && Admissible(mode, len - 16)
  }

  /** The daemon's side. `core.hwFault` is cleared before the request and decides after it. */
  method SymCryptOp(core: SymCore, a0: nat, a1: nat, pay: array<byte>, len: nat, out: array<byte>)
    returns (status: nat, outLen: nat)
    requires pay.Length == MAXPAY == out.Length && pay != out && len <= MAXPAY
    modifies core, out
    ensures status == SDR_INARGERR <==> !Served(AlgOf(a0), SlotOf(a1), ModeOf(a0), len)
    ensures status == SDR_OK || status == SDR_INARGERR || status == SDR_HARDFAIL
    ensures status != SDR_OK ==> outLen == 0
    ensures status == SDR_OK ==>
              outLen == len - 16 &&
              out[..outLen] == Run(core.keyed(AlgOf(a0), SlotOf(a1)), ModeOf(a0), DecOf(a0),
                                   old(pay[..16]), old(pay[16..len]))
    ensures core.reliable ==> status != SDR_HARDFAIL
  {
    core.hwFault := false;
    outLen := 0;
    var alg, dec, mode, slot := AlgOf(a0), DecOf(a0), ModeOf(a0), SlotOf(a1);
    if alg > 2 || slot > 7 || mode > OFB || len < 16 {
      return SDR_INARGERR, 0;
    }
    var dlen := len - 16;
    if dlen == 0 || ((mode == ECB || mode == CBC) && dlen % 16 != 0) || dlen > MAXPAY {
      return SDR_INARGERR, 0;
    }
    assert pay[16..16 + dlen] == pay[16..len];
    var rc := core.Crypt(alg, slot, dec, mode, pay[..16], pay, 16, out, 0, dlen);
    if rc != 0 || core.hwFault {
      return SDR_HARDFAIL, 0;
    }
    assert out[0..0 + dlen] == out[..dlen];
    return SDR_OK, dlen;
  }

  /** The client library's side: IV and data in one payload, the answer copied out; the two buffers may
      be one. The connection may fail at any point (`SDR_COMMFAIL`). */
  method SymMode(core: SymCore, alg: byte, mode: byte, slot: byte, dec: bool, iv: Block,
                 inp: array<byte>, from: nat, len: nat, out: array<byte>, at: nat)
    returns (rv: nat)
    requires from + len <= inp.Length && at + len <= out.Length
    modifies core, out
    ensures out[..at] == old(out[..at]) && out[at + len..] == old(out[at + len..])
    ensures rv == SDR_OK || rv == SDR_INARGERR || rv == SDR_HARDFAIL || rv == SDR_COMMFAIL
    ensures rv == SDR_INARGERR ==> !Served(alg, slot, mode, len + 16)
    ensures rv == SDR_OK ==>
              && Served(alg, slot, mode, len + 16)
              && out[at..at + len] == Run(core.keyed(alg, slot), mode, dec, iv, old(inp[from..from + len]))
    ensures core.reliable ==> rv == if Served(alg, slot, mode, len + 16) then SDR_OK else SDR_INARGERR
  {
    if len == 0 || len + 16 > MAXPAY {
      return SDR_INARGERR;
    }
    var req, ans := new byte[MAXPAY], new byte[MAXPAY];
    Store(req, 0, iv);
    Store(req, 16, inp[from..from + len]);
    assert req[..16] == iv;
    assert req[16..len + 16] == inp[from..from + len];
    var down: bool := *;
    if down && !core.reliable {
      return SDR_COMMFAIL;
    }
    PackA0RoundTrip(alg, dec, mode);
    var s: nat := slot;
    var n: nat;
    rv, n := SymCryptOp(core, PackA0(alg, dec, mode), s, req, len + 16, ans);
    if rv == SDR_OK {
      Store(out, at, ans[..n]);
      assert out[at..at + len] == ans[..n];
    }
    var lost: bool := *;
    if lost && !core.reliable {
      return SDR_COMMFAIL;
    }
    // A success of another length (SDR_UNKNOWERR in the library) cannot come from this daemon.
    assert rv == SDR_OK ==> n == len;
  }
}
