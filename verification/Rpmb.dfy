/**
 * The eMMC replay-protected memory block used as an anti-rollback anchor.
 *
 * `Emmc` is the device together with everything that sits between it and this process: an ioctl
 * may be lost before or after the device acted on it, and may hand back any frame at all, except
 * that a frame carrying a valid MAC must have been seen on the bus before. Requests signed by the
 * host are such frames too; only the request/response code inside the MAC range tells them apart
 * from answers. Frames follow section 6.6.22 of JESD84-B51.
 */
module Rpmb {
  import opened Bytes
  import opened Options

  type Key = int
  type Nonce = int

  const REQ_READ_CNT := 0x0002
  const REQ_WRITE_DATA := 0x0003
  const RESP_READ_CNT := 0x0200
  const RESP_WRITE_DATA := 0x0300

  const RPMB_IO_RETRY := 8
  const COUNTER_MAX := U32 - 1

  const RESULT_AUTH_FAILURE := 2
  const RESULT_COUNTER_FAILURE := 3
  const RESULT_WRITE_FAILURE := 5

  /** The last 284 octets of a frame, which are what the MAC covers. */
  datatype Body = Body(data: seq<byte>, nonce: Nonce, counter: nat, addr: nat, blockCount: nat,
                       result: nat, reqResp: nat)

  /** A MAC is as good as a record of the key and the octets it was computed from. */
  datatype Tag = Mac(key: Key, body: Body) | Junk(bits: int)

  datatype Frame = Frame(keyMac: Tag, body: Body) {
    predicate Authentic(key: Key) {
      keyMac == Mac(key, body)
    }
  }

  /** The low three bits of the result field decide; bit 7 only says the counter has expired. */
  predicate ResultOk(result: nat) {
    result % 8 == 0
  }

  // ---- the device and the bus -----------------------------------------------------------------

  /** The device's key and counter, every frame that has been on the bus, in either direction, and every
      nonce ever put into a request. */
  datatype Device = Device(key: Key, counter: nat, seen: set<Frame>, nonces: set<Nonce>) {
    /** A frame on the bus that answers a read or a write was made by this device, carries a nonce
        some request had, and shows a counter value the device had reached by then. */
    predicate FrameOk(f: Frame) {
      && (f.keyMac.Mac? ==> f.keyMac.body == f.body)
      && (f.keyMac.Mac? && f.body.reqResp == RESP_READ_CNT ==>
            f.keyMac.key == key && f.body.nonce in nonces && f.body.counter <= counter)
      && (f.keyMac.Mac? && f.body.reqResp == RESP_WRITE_DATA ==>
            f.keyMac.key == key && f.body.counter <= counter
            && (ResultOk(f.body.result) ==> f.body.counter >= 1))
    }

    predicate Sound() {
      counter <= COUNTER_MAX && forall f :: f in seen ==> FrameOk(f)
    }

    /** What the bus can deliver: anything without a MAC, or a frame seen before. */
    predicate Deliverable(f: Frame) {
      f.keyMac.Mac? && f.keyMac.body == f.body ==> f in seen
    }
  }

  function ReadRequest(n: Nonce): Frame {
    Frame(Junk(0), Body([], n, 0, 0, 0, 0, REQ_READ_CNT))
  }

  function ReadAnswer(d: Device, n: Nonce): Frame {
    var answer := Body([], n, d.counter, 0, 0, 0, RESP_READ_CNT);
    Frame(Mac(d.key, answer), answer)
  }

  /** The device has answered the read request with nonce `n`. */
  function AnsweredRead(d: Device, n: Nonce): Device {
    d.(seen := d.seen + {ReadRequest(n), ReadAnswer(d, n)})
  }

  /** What the device makes of an authenticated write. `broken`: the flash itself fails. */
  function WriteResult(d: Device, req: Frame, broken: bool): nat
    requires req.keyMac.Mac?
  {
    if req.keyMac.key != d.key then RESULT_AUTH_FAILURE
    else if req.body.counter != d.counter then RESULT_COUNTER_FAILURE
    else if d.counter == COUNTER_MAX || broken then RESULT_WRITE_FAILURE
    else 0
  }

  function WriteAnswer(d: Device, req: Frame, broken: bool): Frame
    requires req.keyMac.Mac?
  {
    var result := WriteResult(d, req, broken);
    var counter := if result == 0 then d.counter + 1 else d.counter;
    var answer := Body([], 0, counter, req.body.addr, 0, result, RESP_WRITE_DATA);
    Frame(Mac(d.key, answer), answer)
  }

  /** The device has acted on an authenticated write and been asked for the result. */
  function ActedOnWrite(d: Device, req: Frame, broken: bool): Device
    requires req.keyMac.Mac?
  {
    var answer := WriteAnswer(d, req, broken);
    d.(counter := answer.body.counter, seen := d.seen + {req, answer})
  }

  /** A bus delivers anything it can, or nothing but frames it has carried before, or loses nothing
      and delivers every answer to its own request, random source and flash being in order too. */
  datatype Bus = Anything | Replays | Faithful

  predicate Delivers(bus: Bus, d: Device, f: Frame) {
    d.Deliverable(f) && (bus.Replays? ==> f in d.seen)
  }

  /** One read request put on the bus, its nonce already counted, and what the ioctl gave back. */
  predicate ReadSent(bus: Bus, d: Device, n: Nonce, d': Device, io: int, resp: Frame) {
    && (d' == d || d' == AnsweredRead(d, n))
    && (io == 0 ==> Delivers(bus, d', resp))
    && (bus.Faithful? ==> d' == AnsweredRead(d, n) && io == 0 && resp == ReadAnswer(d, n))
  }

  /** The same of a signed write: the device acted on it or not. */
  predicate WriteSent(bus: Bus, d: Device, req: Frame, d': Device, io: int, resp: Frame)
    requires req.keyMac.Mac?
  {
    && PutOnBus(d, req, d')
    && (io == 0 ==> Delivers(bus, d', resp))
    && (bus.Faithful? ==> d' == ActedOnWrite(d, req, false) && io == 0 && resp == WriteAnswer(d, req, false))
  }

  predicate PutOnBus(d: Device, req: Frame, d': Device)
    requires req.keyMac.Mac?
  {
    d' == d.(seen := d.seen + {req}) || d' == ActedOnWrite(d, req, false) || d' == ActedOnWrite(d, req, true)
  }

  /** The device as an object; `writeRequests` counts the authenticated writes put on the bus. */
  class Emmc {
    const key: Key
    const bus: Bus
    var counter: nat
    var seen: set<Frame>
    var nonces: set<Nonce>
    ghost var writeRequests: nat

    function Now(): Device
      reads this
    {
      Device(key, counter, seen, nonces)
    }

    predicate Valid()
      reads this
    {
      counter <= COUNTER_MAX && Now().Sound()
    }

    constructor (ownKey: Key, start: nat, line: Bus)
      requires start <= COUNTER_MAX
      ensures Valid() && Now() == Device(ownKey, start, {}, {}) && writeRequests == 0 && bus == line
    {
      key, counter, bus := ownKey, start, line;
      seen, nonces := {}, {};
      writeRequests := 0;
    }

    /** The random source: it may fail; when it does not, no request has carried this nonce. */
    method DrawNonce() returns (ok: bool, n: Nonce)
      modifies this`nonces
      ensures ok ==> n !in old(nonces)
      ensures bus.Faithful? ==> ok
      ensures nonces == old(nonces) + if ok then {n} else {}
    {
      ghost var unused := FreshNonce(nonces);
      n :| n !in nonces;
      ok := *;
      ok := ok || bus.Faithful?;
      if ok {
        nonces := nonces + {n};
      }
    }

    /** Reading the counter: one request, one answer, lost or not. */
    method ReadIoctl(req: Frame) returns (rc: int, resp: Frame)
      requires req == ReadRequest(req.body.nonce)
      modifies this`seen
      ensures ReadSent(bus, old(Now()), req.body.nonce, Now(), rc, resp)
    {
      var acted: bool := *;
      var answer := ReadAnswer(Now(), req.body.nonce);
      if acted || bus.Faithful? {
        seen := seen + {req, answer};
      }
      rc, resp := Deliver(answer);
    }

    /** An authenticated write and the request for its result. The counter moves by at most one, and
        only for the right key and the current counter. */
    method WriteIoctl(req: Frame) returns (rc: int, resp: Frame)
      requires req.keyMac.Mac? && req.keyMac.body == req.body
      modifies this`seen, this`counter, this`writeRequests
      ensures WriteSent(bus, old(Now()), req, Now(), rc, resp)
      ensures writeRequests == old(writeRequests) + 1
      ensures counter == old(counter) || counter == old(counter) + 1
      ensures counter != old(counter) ==> req.keyMac.key == key && req.body.counter == old(counter)
    {
      writeRequests := writeRequests + 1;
      var acted: bool, broken: bool := *, *;
      broken := broken && !bus.Faithful?;
      var answer := WriteAnswer(Now(), req, broken);
      if acted || bus.Faithful? {
        var after := ActedOnWrite(Now(), req, broken);
        counter, seen := after.counter, after.seen;
      } else {
        seen := seen + {req};
      }
      rc, resp := Deliver(answer);
    }

    /** The last leg of an ioctl: lost, or some deliverable frame; a faithful bus has the answer. */
    method Deliver(answer: Frame) returns (rc: int, resp: Frame)
      ensures rc == 0 ==> Delivers(bus, Now(), resp)
      ensures bus.Faithful? && answer in seen ==> rc == 0 && resp == answer
    {
      resp := *;
      resp := if bus.Faithful? then answer else resp;
      rc := if Delivers(bus, Now(), resp) then 0 else -2;
    }
  }

  // ---- the host side: reading the counter --------------------------------------------------------

  /** Return code, and what was written to the caller's variables, if anything. */
  datatype Outcome = Outcome(rc: int, counter: Option<nat>, result: Option<nat>)

  /** What the checks after the retry loop make of an accepted frame. */
  function JudgeRead(key: Option<Key>, sent: Nonce, resp: Frame): (rc: int) {
    if !ResultOk(resp.body.result) then -3
    else if key.Some? && !resp.Authentic(key.value) then -4
    else if key.Some? && sent != resp.body.nonce then -5
    else 0
  }

  /** One turn of the retry loop: a fresh nonce, a request, and what the ioctl gave back. */
  predicate Asked(bus: Bus, d: Device, n: Nonce, d': Device, io: int, resp: Frame) {
    && n !in d.nonces
    && ReadSent(bus, d.(nonces := d.nonces + {n}), n, d', io, resp)
  }

  /** Every way a read with `left` tries can end. */
  ghost predicate Reads(bus: Bus, d: Device, key: Option<Key>, left: nat, d': Device, out: Outcome)
    decreases left, 1
  {
    if left == 0 then d' == d && out == Outcome(-6, None, None)
    else
      || (!bus.Faithful? && d' == d && out == Outcome(-1, None, None))
      || exists n, mid, io, resp ::
           Asked(bus, d, n, mid, io, resp) && AskedEnds(bus, key, left, n, mid, io, resp, d', out)
  }

  ghost predicate AskedEnds(bus: Bus, key: Option<Key>, left: nat, n: Nonce, mid: Device, io: int, resp: Frame,
                            d': Device, out: Outcome)
    requires left > 0
    decreases left, 0
  {
    if io == 0 && resp.body.reqResp == RESP_READ_CNT then
      d' == mid && out == Outcome(JudgeRead(key, n, resp), Some(resp.body.counter), Some(resp.body.result))
    else Reads(bus, mid, key, left - 1, d', out)
  }

  /** A frame that carries the MAC of this device and answers a read. */
  predicate ReadAnswered(d: Device, f: Frame) {
    f.Authentic(d.key) && f.body.reqResp == RESP_READ_CNT
  }

  /** What a read does to the device, and what its codes say: only answers to reads are new on the
      bus; a keyed success tells the counter; a wrong nonce under a good MAC means the right key. */
  lemma {:induction false} ReadsTell(bus: Bus, d: Device, key: Option<Key>, left: nat, d': Device, out: Outcome)
    requires d.Sound() && Reads(bus, d, key, left, d', out)
    ensures d'.Sound() && d'.key == d.key && d'.counter == d.counter
    ensures d.seen <= d'.seen && d.nonces <= d'.nonces
    ensures forall f :: f in d'.seen - d.seen && f.keyMac.Mac? ==> f.body.reqResp == RESP_READ_CNT
    ensures out.rc in {0, -1, -3, -4, -5, -6}
    ensures out.rc == 0 && key.Some? ==> key.value == d.key && out.counter == Some(d.counter)
    ensures out.counter.Some? == out.result.Some? == (out.rc in {0, -3, -4, -5})
    ensures out.rc == -3 <==> out.result.Some? && !ResultOk(out.result.value)
    ensures out.rc == -5 ==> key == Some(d.key) && exists f :: f in d'.seen && ReadAnswered(d, f)
    decreases left
  {
    if left > 0 && !(!bus.Faithful? && d' == d && out == Outcome(-1, None, None)) {
      var n, mid, io, resp :| Asked(bus, d, n, mid, io, resp) && AskedEnds(bus, key, left, n, mid, io, resp, d', out);
      AskedSound(bus, d, n, mid, io, resp);
      if !(io == 0 && resp.body.reqResp == RESP_READ_CNT) {
        ReadsTell(bus, mid, key, left - 1, d', out);
      }
    }
  }

  /** A faithful bus brings the first answer: the counter, and -4 for a wrong key. */
  lemma FaithfulRead(d: Device, key: Option<Key>, left: nat, d': Device, out: Outcome)
    requires left > 0 && Reads(Faithful, d, key, left, d', out)
    ensures out == Outcome(if key.None? || key.value == d.key then 0 else -4, Some(d.counter), Some(0))
    ensures d'.key == d.key && d'.counter == d.counter
  {
    var n, mid, io, resp :|
      Asked(Faithful, d, n, mid, io, resp) && AskedEnds(Faithful, key, left, n, mid, io, resp, d', out);
  }

  /** Only the answer to this very request can carry its nonce. */
  lemma AskedSound(bus: Bus, d: Device, n: Nonce, d': Device, io: int, resp: Frame)
    requires d.Sound() && Asked(bus, d, n, d', io, resp)
    ensures d'.Sound() && d'.key == d.key && d'.counter == d.counter
    ensures d.seen <= d'.seen && d.nonces <= d'.nonces
    ensures forall f :: f in d'.seen - d.seen && f.keyMac.Mac? ==> f.body.reqResp == RESP_READ_CNT
    ensures io == 0 && resp.body.reqResp == RESP_READ_CNT && resp.keyMac.Mac? && resp.keyMac.body == resp.body ==>
              resp in d'.seen && resp.keyMac.key == d.key && (resp.body.nonce == n ==> resp.body.counter == d.counter)
  {
  }

  /**
   * Read the write counter, asking again after a lost ioctl or an answer to something else. `None`
   * for `counter` and `result` means the caller's variables were not written.
   */
  method ReadCounter(dev: Emmc, key: Option<Key>) returns (rc: int, counter: Option<nat>, result: Option<nat>)
    requires dev.Valid()
    modifies dev`seen, dev`nonces
    ensures Reads(dev.bus, old(dev.Now()), key, RPMB_IO_RETRY, dev.Now(), Outcome(rc, counter, result))
    ensures dev.Valid() && old(dev.seen) <= dev.seen && old(dev.nonces) <= dev.nonces
    ensures rc in {0, -1, -3, -4, -5, -6}
    ensures rc == 0 && key.Some? ==> key.value == dev.key && counter == Some(dev.counter)
    ensures counter.Some? == result.Some? == (rc in {0, -3, -4, -5})
    ensures rc == -3 <==> result.Some? && !ResultOk(result.value)
    ensures rc == -5 ==> key == Some(dev.key) && exists f :: f in dev.seen && ReadAnswered(dev.Now(), f)
  {
    ghost var start := dev.Now();
    rc, counter, result := AskForCounter(dev, key);
    ReadsTell(dev.bus, start, key, RPMB_IO_RETRY, dev.Now(), Outcome(rc, counter, result));
  }

  /** The loop itself, and the checks on the frame it accepts. */
  method AskForCounter(dev: Emmc, key: Option<Key>) returns (rc: int, counter: Option<nat>, result: Option<nat>)
    modifies dev`seen, dev`nonces
    ensures Reads(dev.bus, old(dev.Now()), key, RPMB_IO_RETRY, dev.Now(), Outcome(rc, counter, result))
  {
    ghost var start := dev.Now();
    var tries := 0;
    while tries < RPMB_IO_RETRY
      invariant 0 <= tries <= RPMB_IO_RETRY
      invariant forall d', out :: Reads(dev.bus, dev.Now(), key, RPMB_IO_RETRY - tries, d', out) ==>
                                    Reads(dev.bus, start, key, RPMB_IO_RETRY, d', out)
    {
      ghost var before, left := dev.Now(), RPMB_IO_RETRY - tries;
      var ok, nonce := dev.DrawNonce();
      if !ok {
        assert Reads(dev.bus, before, key, left, dev.Now(), Outcome(-1, None, None));
        return -1, None, None;
      }
      var io, resp := dev.ReadIoctl(ReadRequest(nonce));
      ghost var mid := dev.Now();
      assert Asked(dev.bus, before, nonce, mid, io, resp);
      if io == 0 && resp.body.reqResp == RESP_READ_CNT {
        rc, counter, result := JudgeRead(key, nonce, resp), Some(resp.body.counter), Some(resp.body.result);
        assert AskedEnds(dev.bus, key, left, nonce, mid, io, resp, mid, Outcome(rc, counter, result));
        assert Reads(dev.bus, before, key, left, mid, Outcome(rc, counter, result));
        return;
      }
      forall d', out | Reads(dev.bus, mid, key, left - 1, d', out)
        ensures Reads(dev.bus, before, key, left, d', out)
      {
        assert AskedEnds(dev.bus, key, left, nonce, mid, io, resp, d', out);
      }
      tries := tries + 1;
    }
    return -6, None, None;
  }

  // ---- the host side: writing -----------------------------------------------------------------------

  /** What `WriteBlock` makes of the frame it got back. The counter it sent plays no part. */
  function JudgeWrite(key: Key, resp: Frame): (rc: int) {
    if resp.body.reqResp != RESP_WRITE_DATA then -6
    else if !ResultOk(resp.body.result) then -4
    else if !resp.Authentic(key) then -5
    else 0
  }

  /** The data field of a request: at most 256 octets, the rest zero. */
  function DataField(data: seq<byte>): (r: seq<byte>)
    ensures |r| == 256
  {
    if |data| >= 256 then data[..256] else data + seq(256 - |data|, _ => 0)
  }

  function WriteRequest(key: Key, counter: nat, addr: nat, data: seq<byte>): Frame {
    var body := Body(DataField(data), 0, counter, addr, 1, 0, REQ_WRITE_DATA);
    Frame(Mac(key, body), body)
  }

  function WriteOutcome(key: Key, io: int, resp: Frame): Outcome {
    if io != 0 then Outcome(-3, None, None)
    else
      var rc := JudgeWrite(key, resp);
      Outcome(rc, if rc == 0 then Some(resp.body.counter) else None, if rc == -6 then None else Some(resp.body.result))
  }

  /** Every way a write can end after its read. */
  ghost predicate WriteFollows(bus: Bus, d: Device, read: Outcome, key: Key, addr: nat, data: seq<byte>,
                               d': Device, out: Outcome)
  {
    if read.rc != 0 || read.counter.None? then
      d' == d && out == Outcome(-2, None, Some(if read.result.Some? then read.result.value else 0))
    else
      exists io, resp ::
        && WriteSent(bus, d, WriteRequest(key, read.counter.value, addr, data), d', io, resp)
        && out == WriteOutcome(key, io, resp)
  }

  /** Every way a write can end. */
  ghost predicate Writes(bus: Bus, d: Device, key: Option<Key>, addr: nat, data: seq<byte>, d': Device, out: Outcome) {
    if key.None? then d' == d && out == Outcome(-1, None, None)
    else exists mid, read ::
           Reads(bus, d, key, RPMB_IO_RETRY, mid, read) && WriteFollows(bus, mid, read, key.value, addr, data, d', out)
  }

  /** The answer to a write that succeeded is on record. */
  ghost predicate EarlierAnswer(d: Device) {
    exists f :: f in d.seen && WriteAnswered(d, f)
  }

  predicate WriteAnswered(d: Device, f: Frame) {
    f.Authentic(d.key) && f.body.reqResp == RESP_WRITE_DATA && ResultOk(f.body.result)
  }

  lemma PutOnBusSound(d: Device, req: Frame, d': Device)
    requires req.keyMac.Mac? && req.keyMac.body == req.body && req.body.reqResp == REQ_WRITE_DATA
    requires d.Sound() && PutOnBus(d, req, d')
    ensures d'.Sound() && d'.key == d.key && d'.nonces == d.nonces && d.seen <= d'.seen
    ensures d'.counter == d.counter || (d'.counter == d.counter + 1 && req.keyMac.key == d.key)
    ensures forall f :: f in d'.seen - d.seen && WriteAnswered(d, f) ==>
                          d'.counter == d.counter + 1 && f.body.counter == d'.counter
  {
  }

  /** A signed answer to a successful write is an old one, or shows the counter this write moved. */
  lemma SentTells(bus: Bus, d: Device, req: Frame, d': Device, io: int, resp: Frame)
    requires req.keyMac.Mac? && req.keyMac.body == req.body && req.body.reqResp == REQ_WRITE_DATA
    requires d.Sound() && WriteSent(bus, d, req, d', io, resp)
    ensures d'.Sound() && d'.key == d.key
    ensures d'.counter == d.counter || (d'.counter == d.counter + 1 && req.keyMac.key == d.key)
    ensures io == 0 && WriteAnswered(d, resp) ==>
              && 1 <= resp.body.counter <= d'.counter
              && ((resp in d.seen && resp.body.counter <= d.counter)
                  || (d'.counter == d.counter + 1 && resp.body.counter == d'.counter))
  {
    PutOnBusSound(d, req, d');
    hide PutOnBus;
  }

  /** What a write does to the device, and what its codes say. */
  lemma WritesTell(bus: Bus, d: Device, key: Option<Key>, addr: nat, data: seq<byte>, d': Device, out: Outcome)
    requires d.Sound() && Writes(bus, d, key, addr, data, d', out)
    ensures d'.Sound() && d'.key == d.key
    ensures d.counter <= d'.counter <= d.counter + 1
    ensures out.rc in {0, -1, -2, -3, -4, -5, -6}
    ensures out.rc in {-1, -2} ==> d'.counter == d.counter
    ensures key != Some(d.key) ==> out.rc in {-1, -2}
    ensures out.counter.Some? <==> out.rc == 0
    ensures out.rc == 0 ==> 1 <= out.counter.value <= d'.counter
    ensures out.rc == 0 && out.counter.value == d.counter + 1 ==> d'.counter == d.counter + 1
    ensures out.rc == 0 && !EarlierAnswer(d) ==> d'.counter == d.counter + 1 && out.counter == Some(d'.counter)
  {
    if key.Some? {
      var mid, read :|
        Reads(bus, d, key, RPMB_IO_RETRY, mid, read) && WriteFollows(bus, mid, read, key.value, addr, data, d', out);
      ReadsTell(bus, d, key, RPMB_IO_RETRY, mid, read);
      hide Reads;
      if read.rc == 0 {
        var req := WriteRequest(key.value, read.counter.value, addr, data);
        var io, resp :| WriteSent(bus, mid, req, d', io, resp) && out == WriteOutcome(key.value, io, resp);
        hide WriteSent;
        SentTells(bus, mid, req, d', io, resp);
        if out.rc == 0 {
          assert WriteAnswered(d, resp);
          assert resp in mid.seen ==> resp in d.seen;
        }
      }
    }
  }

  /** On a faithful bus a write with the right key works until the counter is used up. */
  lemma FaithfulWrite(d: Device, addr: nat, data: seq<byte>, d': Device, out: Outcome)
    requires d.Sound() && Writes(Faithful, d, Some(d.key), addr, data, d', out)
    ensures if d.counter < COUNTER_MAX then d'.counter == d.counter + 1 && out == Outcome(0, Some(d'.counter), Some(0))
            else out.rc == -4
  {
    var mid, read :|
      && Reads(Faithful, d, Some(d.key), RPMB_IO_RETRY, mid, read)
      && WriteFollows(Faithful, mid, read, d.key, addr, data, d', out);
    FaithfulRead(d, Some(d.key), RPMB_IO_RETRY, mid, read);
    hide Reads;
  }

  /** One authenticated write, never repeated: a second one would move the counter again. */
  method WriteBlock(dev: Emmc, key: Option<Key>, addr: nat, data: seq<byte>)
    returns (rc: int, newCounter: Option<nat>, result: Option<nat>)
    requires dev.Valid()
    modifies dev
    ensures Writes(dev.bus, old(dev.Now()), key, addr, data, dev.Now(), Outcome(rc, newCounter, result))
    ensures dev.Valid()
    ensures rc in {0, -1, -2, -3, -4, -5, -6}
    // The counter moves by one at most, whatever is returned, and only for the right key.
    ensures old(dev.counter) <= dev.counter <= old(dev.counter) + 1
    ensures dev.writeRequests == old(dev.writeRequests) + if rc in {-1, -2} then 0 else 1
    ensures rc in {-1, -2} ==> dev.counter == old(dev.counter)
    ensures key != Some(dev.key) ==> rc in {-1, -2}
    // On success the reported value is one the counter had reached; a value one more than before
    // proves that this write moved it, and so does a bus without an earlier success answer.
    ensures newCounter.Some? <==> rc == 0
    ensures rc == 0 ==> 1 <= newCounter.value <= dev.counter
    ensures rc == 0 ==>
              (newCounter.value == old(dev.counter) + 1 <==>
               dev.counter == old(dev.counter) + 1 && newCounter.value == dev.counter)
    ensures rc == 0 && !EarlierAnswer(old(dev.Now())) ==>
              dev.counter == old(dev.counter) + 1 && newCounter == Some(dev.counter)
  {
    ghost var start := dev.Now();
    rc, newCounter, result := WriteOnce(dev, key, addr, data);
    WritesTell(dev.bus, start, key, addr, data, dev.Now(), Outcome(rc, newCounter, result));
  }

  method WriteOnce(dev: Emmc, key: Option<Key>, addr: nat, data: seq<byte>)
    returns (rc: int, newCounter: Option<nat>, result: Option<nat>)
    requires dev.Valid()
    modifies dev
    ensures Writes(dev.bus, old(dev.Now()), key, addr, data, dev.Now(), Outcome(rc, newCounter, result))
    ensures dev.writeRequests == old(dev.writeRequests) + if rc in {-1, -2} then 0 else 1
  {
    hide Reads;
    newCounter, result := None, None;
    if key.None? {
      return -1, None, None;
    }
    var cnt: Option<nat>, r: Option<nat>;
    rc, cnt, r := ReadCounter(dev, key);
    ghost var mid, read := dev.Now(), Outcome(rc, cnt, r);
    if rc != 0 {
      result := Some(if r.Some? then r.value else 0);
      assert WriteFollows(dev.bus, mid, read, key.value, addr, data, mid, Outcome(-2, None, result));
      return -2, None, result;
    }
    var io, resp := dev.WriteIoctl(WriteRequest(key.value, cnt.value, addr, data));
    var out := WriteOutcome(key.value, io, resp);
    assert WriteFollows(dev.bus, mid, read, key.value, addr, data, dev.Now(), out);
    return out.rc, out.counter, out.result;
  }

  // ---- what the codes do not say ---------------------------------------------------------------------

  /** Nonces do not run out. */
  lemma FreshNonce(used: set<Nonce>) returns (n: Nonce)
    ensures n !in used
  {
    n := AboveAll(used);
  }

  lemma {:induction false} AboveAll(used: set<Nonce>) returns (n: Nonce)
    ensures forall m :: m in used ==> m < n
    decreases |used|
  {
    if m :| m in used {
      var k := AboveAll(used - {m});
      n := if m < k then k else m + 1;
      assert forall x :: x in used ==> x == m || x in used - {m};
    } else {
      n := 0;
    }
  }

  /** With the right key a read can succeed in any state. */
  lemma ReadCanSucceed(bus: Bus, d: Device) returns (d': Device, out: Outcome)
    requires d.Sound()
    ensures Reads(bus, d, Some(d.key), RPMB_IO_RETRY, d', out) && out.rc == 0
    ensures d.seen <= d'.seen && d'.key == d.key && d'.counter == d.counter && out.counter == Some(d.counter)
  {
    var n := FreshNonce(d.nonces);
    d' := AnsweredRead(d.(nonces := d.nonces + {n}), n);
    var resp := ReadAnswer(d, n);
    out := Outcome(0, Some(d.counter), Some(0));
    assert Asked(bus, d, n, d', 0, resp);
    assert AskedEnds(bus, Some(d.key), RPMB_IO_RETRY, n, d', 0, resp, d', out);
  }

  /** A write with the right key that reports success has moved the counter, and reports its value, in
      every behaviour, if and only if the bus is faithful or no answer to an earlier success is on
      record. */
  lemma WriteMovesIff(bus: Bus, d: Device, addr: nat, data: seq<byte>)
    requires d.Sound()
    ensures (forall d', out :: Writes(bus, d, Some(d.key), addr, data, d', out) && out.rc == 0 ==>
                                 d'.counter == d.counter + 1 && out.counter == Some(d'.counter))
       <==> bus.Faithful? || !EarlierAnswer(d)
  {
    hide Writes;
    forall d', out |
      Writes(bus, d, Some(d.key), addr, data, d', out) && out.rc == 0 && (bus.Faithful? || !EarlierAnswer(d))
      ensures d'.counter == d.counter + 1 && out.counter == Some(d'.counter)
    {
      if bus.Faithful? {
        FaithfulWrite(d, addr, data, d', out);
      } else {
        WritesTell(bus, d, Some(d.key), addr, data, d', out);
      }
    }
    if EarlierAnswer(d) && !bus.Faithful? {
      var d', out := UnmovedWrite(bus, d, addr, data);
    }
  }

  /** The run behind it: the read succeeds, the write is lost, and the old answer comes back. */
  lemma UnmovedWrite(bus: Bus, d: Device, addr: nat, data: seq<byte>) returns (d': Device, out: Outcome)
    requires d.Sound() && EarlierAnswer(d) && !bus.Faithful?
    ensures Writes(bus, d, Some(d.key), addr, data, d', out) && out.rc == 0 && d'.counter == d.counter
  {
    var f :| f in d.seen && WriteAnswered(d, f);
    var mid, read := ReadCanSucceed(bus, d);
    hide Reads;
    var req := WriteRequest(d.key, d.counter, addr, data);
    d', out := mid.(seen := mid.seen + {req}), WriteOutcome(d.key, 0, f);
    assert WriteSent(bus, mid, req, d', 0, f);
    assert WriteFollows(bus, mid, read, d.key, addr, data, d', out);
  }

  /** -5 can happen in any state, within a single call, if and only if the key is the right one and the
      bus not faithful: the answer to the first try is lost and delivered to the second. */
  lemma NonceVerdictIff(bus: Bus, d: Device, key: Key)
    requires d.Sound()
    ensures (exists d', out :: Reads(bus, d, Some(key), RPMB_IO_RETRY, d', out) && out.rc == -5)
       <==> key == d.key && !bus.Faithful?
  {
    hide Reads;
    forall d', out | Reads(bus, d, Some(key), RPMB_IO_RETRY, d', out) && out.rc == -5
      ensures key == d.key && !bus.Faithful?
    {
      ReadsTell(bus, d, Some(key), RPMB_IO_RETRY, d', out);
      if bus.Faithful? {
        FaithfulRead(d, Some(key), RPMB_IO_RETRY, d', out);
      }
    }
    if key == d.key && !bus.Faithful? {
      var d', out := LateAnswer(bus, d);
      assert Reads(bus, d, Some(key), RPMB_IO_RETRY, d', out) && out.rc == -5;
    }
  }

  /** And -4 can happen in any state with any key, the right one included: an unsigned frame will do. */
  lemma MacVerdictAlways(d: Device, key: Key) returns (d': Device, out: Outcome)
    ensures Reads(Anything, d, Some(key), RPMB_IO_RETRY, d', out) && out.rc == -4
  {
    var n := FreshNonce(d.nonces);
    var resp := Frame(Junk(0), Body([], n, 0, 0, 0, 0, RESP_READ_CNT));
    d', out := d.(nonces := d.nonces + {n}), Outcome(-4, Some(0), Some(0));
    assert Asked(Anything, d, n, d', 0, resp);
    assert AskedEnds(Anything, Some(key), RPMB_IO_RETRY, n, d', 0, resp, d', out);
  }

  /** The device has never answered a read without signing the answer. */
  predicate Signs(d: Device) {
    forall f :: f in d.seen && f.body.reqResp == RESP_READ_CNT ==> f.keyMac.Mac?
  }

  /** A bus that only replays frames, of a device that signs, has no such frame: there -4 can happen if
      and only if the key is wrong, just as -5 can if and only if it is right. */
  lemma MacVerdictIff(d: Device, key: Key)
    requires d.Sound() && Signs(d)
    ensures (exists d', out :: Reads(Replays, d, Some(key), RPMB_IO_RETRY, d', out) && out.rc == -4) <==> key != d.key
  {
    hide Reads;
    forall d', out | Reads(Replays, d, Some(key), RPMB_IO_RETRY, d', out) && out.rc == -4 ensures key != d.key {
      MacVerdictTells(d, key, RPMB_IO_RETRY, d', out);
    }
    if key != d.key {
      var d', out := ForeignAnswer(d, key);
      assert Reads(Replays, d, Some(key), RPMB_IO_RETRY, d', out) && out.rc == -4;
    }
  }

  lemma {:induction false} MacVerdictTells(d: Device, key: Key, left: nat, d': Device, out: Outcome)
    requires d.Sound() && Signs(d) && Reads(Replays, d, Some(key), left, d', out) && out.rc == -4
    ensures key != d.key
    decreases left
  {
    if left > 0 {
      var n, mid, io, resp :|
        Asked(Replays, d, n, mid, io, resp) && AskedEnds(Replays, Some(key), left, n, mid, io, resp, d', out);
      AskedSound(Replays, d, n, mid, io, resp);
      if !(io == 0 && resp.body.reqResp == RESP_READ_CNT) {
        MacVerdictTells(mid, key, left - 1, d', out);
      }
    }
  }

  lemma ForeignAnswer(d: Device, key: Key) returns (d': Device, out: Outcome)
    requires key != d.key
    ensures Reads(Replays, d, Some(key), RPMB_IO_RETRY, d', out) && out.rc == -4
  {
    var n := FreshNonce(d.nonces);
    d' := AnsweredRead(d.(nonces := d.nonces + {n}), n);
    var resp := ReadAnswer(d, n);
    out := Outcome(-4, Some(d.counter), Some(0));
    assert Asked(Replays, d, n, d', 0, resp);
    assert AskedEnds(Replays, Some(key), RPMB_IO_RETRY, n, d', 0, resp, d', out);
  }

  lemma LateAnswer(bus: Bus, d: Device) returns (d': Device, out: Outcome)
    requires d.Sound() && !bus.Faithful?
    ensures Reads(bus, d, Some(d.key), RPMB_IO_RETRY, d', out) && out.rc == -5
  {
    var n1 := FreshNonce(d.nonces);
    var lost := ReadAnswer(d, n1);
    var mid := AnsweredRead(d.(nonces := d.nonces + {n1}), n1);
    var n2 := FreshNonce(mid.nonces);
    d' := mid.(nonces := mid.nonces + {n2});
    out := Outcome(-5, Some(d.counter), Some(0));
    assert Asked(bus, mid, n2, d', 0, lost);
    assert AskedEnds(bus, Some(d.key), RPMB_IO_RETRY - 1, n2, d', 0, lost, d', out);
    assert Reads(bus, mid, Some(d.key), RPMB_IO_RETRY - 1, d', out);
    assert Asked(bus, d, n1, mid, -2, lost);
    assert AskedEnds(bus, Some(d.key), RPMB_IO_RETRY, n1, mid, -2, lost, d', out);
  }

  // ---- the commands ------------------------------------------------------------------------------------

  /** Every way a bump can end: it succeeds exactly if read and write do and the value reported by the
      write is one more than the value read. */
  ghost predicate Bumps(bus: Bus, d: Device, keyFile: Option<Key>, d': Device, rc: int) {
    if keyFile.None? then d' == d && rc == 1
    else
      exists mid, read ::
        Reads(bus, d, keyFile, RPMB_IO_RETRY, mid, read) && BumpFollows(bus, mid, keyFile, read, d', rc)
  }

  ghost predicate BumpFollows(bus: Bus, d: Device, keyFile: Option<Key>, read: Outcome, d': Device, rc: int) {
    if read.rc != 0 || read.counter.None? then d' == d && rc == 1
    else
      exists out ::
        && Writes(bus, d, keyFile, 0, [], d', out)
        && rc == if out.rc == 0 && out.counter == Some((read.counter.value + 1) % U32) then 0 else 1
  }

  /** Advance the anchor by one. */
  method CmdBump(dev: Emmc, keyFile: Option<Key>) returns (rc: int)
    requires dev.Valid()
    modifies dev
    ensures Bumps(dev.bus, old(dev.Now()), keyFile, dev.Now(), rc)
    ensures dev.Valid()
    ensures rc in {0, 1}
    ensures rc == 0 ==> dev.counter == old(dev.counter) + 1
    ensures old(dev.counter) <= dev.counter <= old(dev.counter) + 1
    ensures dev.bus.Faithful? && keyFile == Some(dev.key) && old(dev.counter) < COUNTER_MAX ==> rc == 0
  {
    hide Reads, Writes, EarlierAnswer, Device.Sound;
    if keyFile.None? {
      return 1;
    }
    var before, after, res;
    rc, before, res := ReadCounter(dev, keyFile);
    ghost var mid, read := dev.Now(), Outcome(rc, before, res);
    if dev.bus.Faithful? {
      FaithfulRead(old(dev.Now()), keyFile, RPMB_IO_RETRY, mid, read);
    }
    if rc != 0 {
      assert BumpFollows(dev.bus, mid, keyFile, read, mid, 1);
      return 1;
    }
    rc, after, res := WriteBlock(dev, keyFile, 0, []);
    ghost var out := Outcome(rc, after, res);
    if dev.bus.Faithful? && keyFile == Some(mid.key) {
      FaithfulWrite(mid, 0, [], dev.Now(), out);
    }
    rc := if rc == 0 && after.value == (before.value + 1) % U32 then 0 else 1;
    assert Writes(dev.bus, mid, keyFile, 0, [], dev.Now(), out);
    assert BumpFollows(dev.bus, mid, keyFile, read, dev.Now(), rc);
  }

  /** Every way some writes in a row can end, `fails` having gone wrong before: the last reported value,
      none if a write fails, and how many did not report one more than the value before. */
  ghost predicate Rounds(bus: Bus, d: Device, key: Option<Key>, left: nat, c0: nat, fails: nat,
                         d': Device, last: Option<nat>, total: nat)
    decreases left, 1
  {
    if left == 0 then d' == d && last == Some(c0) && total == fails
    else
      exists mid, out ::
        Writes(bus, d, key, 0, [], mid, out) && RoundEnds(bus, mid, key, left, c0, fails, out, d', last, total)
  }

  ghost predicate RoundEnds(bus: Bus, d: Device, key: Option<Key>, left: nat, c0: nat, fails: nat, out: Outcome,
                            d': Device, last: Option<nat>, total: nat)
    requires left > 0
    decreases left, 0
  {
    if out.rc != 0 || out.counter.None? then d' == d && last == None && total == fails
    else
      var c1 := out.counter.value;
      Rounds(bus, d, key, left - 1, c1, if c1 == (c0 + 1) % U32 then fails else fails + 1, d', last, total)
  }

  /** Every way the self test can end: it passes exactly if three writes count up one by one, the write
      with the wrong key fails, and the counter read at last is no smaller. */
  ghost predicate Selftests(bus: Bus, d: Device, keyFile: Option<Key>, bad: Key, d': Device, rc: int) {
    if keyFile.None? then d' == d && rc == 1
    else
      exists mid, read ::
        && Reads(bus, d, keyFile, RPMB_IO_RETRY, mid, read)
        && if read.rc != 0 || read.counter.None? then d' == mid && rc == 1
           else SelftestFollows(bus, mid, keyFile, bad, read.counter.value, d', rc)
  }

  ghost predicate SelftestFollows(bus: Bus, d: Device, keyFile: Option<Key>, bad: Key, c0: nat, d': Device, rc: int) {
    exists mid, last, fails ::
      && Rounds(bus, d, keyFile, 3, c0, 0, mid, last, fails)
      && if last.None? then d' == mid && rc == 1 else SelftestEnds(bus, mid, keyFile, bad, last.value, fails, d', rc)
  }

  ghost predicate SelftestEnds(bus: Bus, d: Device, keyFile: Option<Key>, bad: Key, last: nat, fails: nat,
                               d': Device, rc: int)
  {
    exists mid, out, read ::
      && Writes(bus, d, Some(bad), 0, [], mid, out)
      && Reads(bus, mid, keyFile, RPMB_IO_RETRY, d', read)
      && rc == if fails == 0 && out.rc != 0 && read.rc == 0 && read.counter.Some? && read.counter.value >= last
               then 0 else 1
  }

  /** Three writes, a write with a key that differs from the right one, a final read. Passing means
      the counter went up by exactly three; and the wrong-key write never got as far as the device. */
  method CmdSelftest(dev: Emmc, keyFile: Option<Key>, bad: Key) returns (rc: int)
    requires dev.Valid() && keyFile != Some(bad)
    modifies dev
    ensures Selftests(dev.bus, old(dev.Now()), keyFile, bad, dev.Now(), rc)
    ensures dev.Valid()
    ensures rc in {0, 1}
    ensures old(dev.counter) <= dev.counter <= old(dev.counter) + 3
    ensures rc == 0 ==> dev.counter == old(dev.counter) + 3
    ensures rc == 0 ==> dev.writeRequests == old(dev.writeRequests) + 3
    ensures dev.counter != old(dev.counter) ==> keyFile == Some(dev.key)
    ensures dev.bus.Faithful? && keyFile == Some(dev.key) && old(dev.counter) + 3 <= COUNTER_MAX ==> rc == 0
  {
    hide Reads, Writes, EarlierAnswer, Device.Sound, Rounds, SelftestFollows, SelftestEnds;
    if keyFile.None? {
      return 1;
    }
    var first, res;
    rc, first, res := ReadCounter(dev, keyFile);
    ghost var mid := dev.Now();
    assert Reads(dev.bus, old(dev.Now()), keyFile, RPMB_IO_RETRY, mid, Outcome(rc, first, res));
    if dev.bus.Faithful? {
      FaithfulRead(old(dev.Now()), keyFile, RPMB_IO_RETRY, mid, Outcome(rc, first, res));
    }
    if rc != 0 {
      return 1;
    }
    var last, fails := WriteRounds(dev, keyFile, first.value);
    ghost var after := dev.Now();
    if last.None? {
      rc := 1;
      EndsEarly(dev.bus, mid, keyFile, bad, first.value, after, fails);
      return;
    }
    rc := CheckWrongKey(dev, keyFile, bad, last.value, fails);
    EndsLate(dev.bus, mid, keyFile, bad, first.value, after, last.value, fails, dev.Now(), rc);
  }

  lemma EndsEarly(bus: Bus, d: Device, keyFile: Option<Key>, bad: Key, c0: nat, mid: Device, fails: nat)
    requires Rounds(bus, d, keyFile, 3, c0, 0, mid, None, fails)
    ensures SelftestFollows(bus, d, keyFile, bad, c0, mid, 1)
  {
    hide Rounds;
  }

  lemma EndsLate(bus: Bus, d: Device, keyFile: Option<Key>, bad: Key, c0: nat, mid: Device, last: nat, fails: nat,
                 d': Device, rc: int)
    requires Rounds(bus, d, keyFile, 3, c0, 0, mid, Some(last), fails)
    requires SelftestEnds(bus, mid, keyFile, bad, last, fails, d', rc)
    ensures SelftestFollows(bus, d, keyFile, bad, c0, d', rc)
  {
    hide Rounds, SelftestEnds;
  }

  /** Three writes, counted up one by one. */
  method WriteRounds(dev: Emmc, keyFile: Option<Key>, first: nat) returns (last: Option<nat>, fails: nat)
    requires dev.Valid() && keyFile == Some(dev.key) && first == dev.counter
    modifies dev
    ensures Rounds(dev.bus, old(dev.Now()), keyFile, 3, first, 0, dev.Now(), last, fails)
    ensures dev.Valid()
    ensures old(dev.counter) <= dev.counter <= old(dev.counter) + 3
    ensures dev.writeRequests <= old(dev.writeRequests) + 3
    ensures last.Some? && fails == 0 ==>
              && last.value == dev.counter == old(dev.counter) + 3
              && dev.writeRequests == old(dev.writeRequests) + 3
    ensures dev.bus.Faithful? && first + 3 <= COUNTER_MAX ==> last.Some? && fails == 0
  {
    hide Reads, Writes, EarlierAnswer, Device.Sound, Rounds, RoundEnds;
    ghost var start := dev.Now();
    var c0: nat, i := first, 0;
    fails := 0;
    RoundsBegin(dev.bus, start, keyFile, first);
    while i < 3
      invariant 0 <= i <= 3
      invariant dev.Valid()
      invariant old(dev.counter) <= dev.counter <= old(dev.counter) + i
      invariant dev.writeRequests <= old(dev.writeRequests) + i
      invariant fails == 0 ==> c0 == dev.counter == old(dev.counter) + i
      invariant fails == 0 ==> dev.writeRequests == old(dev.writeRequests) + i
      invariant dev.bus.Faithful? && first + 3 <= COUNTER_MAX ==> fails == 0
      invariant RoundsOn(dev.bus, start, keyFile, first, dev.Now(), 3 - i, c0, fails)
    {
      ghost var before := dev.Now();
      var rc, c1, res := WriteBlock(dev, keyFile, 0, []);
      if dev.bus.Faithful? {
        FaithfulWrite(before, 0, [], dev.Now(), Outcome(rc, c1, res));
      }
      if rc != 0 {
        RoundFails(dev.bus, start, keyFile, first, before, 3 - i, c0, fails, dev.Now(), Outcome(rc, c1, res));
        return None, fails;
      }
      RoundWorks(dev.bus, start, keyFile, first, before, 3 - i, c0, fails, dev.Now(), Outcome(rc, c1, res));
      if c1.value != (c0 + 1) % U32 {
        fails := fails + 1;
      }
      c0 := c1.value;
      i := i + 1;
    }
    RoundsEnd(dev.bus, start, keyFile, first, dev.Now(), c0, fails);
    return Some(c0), fails;
  }

  /** How the rest ends from here is how all of it ends. */
  ghost predicate RoundsOn(bus: Bus, d: Device, key: Option<Key>, c: nat, d1: Device, left: nat, c1: nat, fails: nat) {
    forall d', last, total ::
      Rounds(bus, d1, key, left, c1, fails, d', last, total) ==> Rounds(bus, d, key, 3, c, 0, d', last, total)
  }

  lemma RoundsBegin(bus: Bus, d: Device, key: Option<Key>, c: nat)
    ensures RoundsOn(bus, d, key, c, d, 3, c, 0)
  {
    hide Rounds;
  }

  lemma RoundFails(bus: Bus, d: Device, key: Option<Key>, c: nat, d1: Device, left: nat, c1: nat, fails: nat,
                   d2: Device, out: Outcome)
    requires left > 0 && RoundsOn(bus, d, key, c, d1, left, c1, fails)
    requires Writes(bus, d1, key, 0, [], d2, out) && out.rc != 0
    ensures Rounds(bus, d, key, 3, c, 0, d2, None, fails)
  {
    hide Writes;
    assert RoundEnds(bus, d2, key, left, c1, fails, out, d2, None, fails);
    assert Rounds(bus, d1, key, left, c1, fails, d2, None, fails);
  }

  lemma RoundWorks(bus: Bus, d: Device, key: Option<Key>, c: nat, d1: Device, left: nat, c1: nat, fails: nat,
                   d2: Device, out: Outcome)
    requires left > 0 && RoundsOn(bus, d, key, c, d1, left, c1, fails)
    requires Writes(bus, d1, key, 0, [], d2, out) && out.rc == 0 && out.counter.Some?
    ensures var c2 := out.counter.value;
            RoundsOn(bus, d, key, c, d2, left - 1, c2, if c2 == (c1 + 1) % U32 then fails else fails + 1)
  {
    hide Writes;
    var c2 := out.counter.value;
    var fails2, rest: nat := if c2 == (c1 + 1) % U32 then fails else fails + 1, left - 1;
    forall d', last, total | Rounds(bus, d2, key, rest, c2, fails2, d', last, total)
      ensures Rounds(bus, d, key, 3, c, 0, d', last, total)
    {
      assert RoundEnds(bus, d2, key, left, c1, fails, out, d', last, total);
      assert Rounds(bus, d1, key, left, c1, fails, d', last, total);
    }
  }

  lemma RoundsEnd(bus: Bus, d: Device, key: Option<Key>, c: nat, d1: Device, c1: nat, fails: nat)
    requires RoundsOn(bus, d, key, c, d1, 0, c1, fails)
    ensures Rounds(bus, d, key, 3, c, 0, d1, Some(c1), fails)
  {
    assert Rounds(bus, d1, key, 0, c1, fails, d1, Some(c1), fails);
  }

  /** The write with the wrong key, and the read after it. */
  method CheckWrongKey(dev: Emmc, keyFile: Option<Key>, bad: Key, last: nat, fails: nat) returns (rc: int)
    requires dev.Valid() && keyFile == Some(dev.key) && bad != dev.key
    modifies dev
    ensures SelftestEnds(dev.bus, old(dev.Now()), keyFile, bad, last, fails, dev.Now(), rc)
    ensures dev.Valid() && dev.counter == old(dev.counter) && dev.writeRequests == old(dev.writeRequests)
    ensures rc in {0, 1} && (rc == 0 ==> fails == 0)
    ensures dev.bus.Faithful? && fails == 0 && last <= dev.counter ==> rc == 0
  {
    hide Reads, Writes, EarlierAnswer, Device.Sound;
    var c2, res;
    var wrong: int := fails;
    rc, c2, res := WriteBlock(dev, Some(bad), 0, []);
    ghost var mid, out := dev.Now(), Outcome(rc, c2, res);
    if rc == 0 {
      wrong := wrong + 1;
    }
    rc, c2, res := ReadCounter(dev, keyFile);
    ghost var read := Outcome(rc, c2, res);
    if dev.bus.Faithful? {
      FaithfulRead(mid, keyFile, RPMB_IO_RETRY, dev.Now(), read);
    }
    if rc != 0 || c2.value < last {
      wrong := wrong + 1;
    }
    rc := if wrong > 0 then 1 else 0;
    assert Writes(dev.bus, old(dev.Now()), Some(bad), 0, [], mid, out);
    assert Reads(dev.bus, mid, keyFile, RPMB_IO_RETRY, dev.Now(), read);
  }

  // ---- whole runs ------------------------------------------------------------------------------------

  datatype Op =
    | Read(key: Option<Key>)
    | Write(key: Option<Key>, addr: nat, data: seq<byte>)
    | Bump(keyFile: Option<Key>)
    | Selftest(keyFile: Option<Key>, bad: Key)

  ghost predicate Nondecreasing(s: seq<nat>) {
    forall i, j :: 0 <= i < j < |s| ==> s[i] <= s[j]
  }

  /**
   * Any number of commands, with any keys, against a device that misbehaves in every way it can:
   * the values reported by successful keyed reads never decrease, none exceeds the counter, and the
   * counter itself never goes back.
   */
  method Run(dev: Emmc, ops: seq<Op>) returns (values: seq<nat>)
    requires dev.Valid()
    modifies dev
    ensures dev.Valid() && old(dev.counter) <= dev.counter
    ensures Nondecreasing(values) && forall v :: v in values ==> old(dev.counter) <= v <= dev.counter
  {
    hide Reads, Writes, EarlierAnswer, Device.Sound;
    values := [];
    for i := 0 to |ops|
      invariant dev.Valid() && old(dev.counter) <= dev.counter
      invariant Nondecreasing(values) && forall v :: v in values ==> old(dev.counter) <= v <= dev.counter
    {
      match ops[i] {
        case Read(key) =>
          var rc, c, r := ReadCounter(dev, key);
          if rc == 0 && key.Some? {
            assert forall k :: 0 <= k < |values| ==> values[k] in values;
            values := values + [c.value];
          }
        case Write(key, addr, data) =>
          var _, _, _ := WriteBlock(dev, key, addr, data);
        case Bump(keyFile) =>
          var _ := CmdBump(dev, keyFile);
        case Selftest(keyFile, bad) =>
          if keyFile != Some(bad) {
            var _ := CmdSelftest(dev, keyFile, bad);
          }
      }
    }
  }
}
