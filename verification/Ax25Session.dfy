/** The data-transfer part of an AX.25 session: the send buffer with its window, and the receive
    side with its buffer for frames that arrive out of order. Each method of the class is proved
    against a function on the sending or the receiving half of the session's state. */
module Ax25Session {
  import opened Bits

  type Data = seq<byte>

  datatype Packet = Packet(data: Data, ns: nat, nr: nat, sent: bool)

  datatype Kind = RR | RNR | REJ

  datatype Frame = Info(ns: nat, nr: nat, data: Data, poll: bool) | Supervisory(kind: Kind, nr: nat)

  /** A frame waiting in the receive buffer, with its time of arrival. */
  datatype Entry = Entry(data: Data, time: int)

  const ENTRY_LIFETIME := 30000

  datatype Sender = Sender(sendSeq: nat, remoteSeq: nat, remoteBusy: bool, gotRej: int, buffer: seq<Packet>)

  datatype Receiver = Receiver(recvSeq: nat, sentRej: bool, held: map<nat, Entry>)

  /** The window size and the modulus of the sequence numbers. */
  datatype Limits = Limits(maxFrames: nat, modulus: nat) {
    predicate Ok() { modulus > 0 }

    function Next(k: nat): (n: nat)
      requires Ok()
      ensures n < modulus
      ensures k < modulus ==> n == if k + 1 == modulus then 0 else k + 1
    {
      assert k + 1 == modulus ==> (k + 1) % modulus == 0;
      (k + 1) % modulus
    }
  }

  function Distance(leader: int, follower: int, modulus: int): int {
    if leader < follower then leader + (modulus - follower) else leader - follower
  }

  // ----- send

  function Chunks(info: Data, length: nat): (c: seq<Data>)
    requires length > 0
    ensures forall k | 0 <= k < |c| :: 0 < |c[k]| <= length
  {
    if info == [] then []
    else if |info| <= length then [info]
    else [info[..length]] + Chunks(info[length..], length)
  }

  function Flat(chunks: seq<Data>): Data {
    if chunks == [] then [] else chunks[0] + Flat(chunks[1..])
  }

  lemma {:induction false} ChunksFlat(info: Data, length: nat)
    requires length > 0
    ensures Flat(Chunks(info, length)) == info
  {
    if info == [] {
    } else if |info| <= length {
      assert Chunks(info, length)[1..] == [];
    } else {
      ChunksFlat(info[length..], length);
      assert Chunks(info, length)[1..] == Chunks(info[length..], length);
      assert info == info[..length] + info[length..];
    }
  }

  function Packets(chunks: seq<Data>): (p: seq<Packet>)
    ensures |p| == |chunks|
  {
    seq(|chunks|, k requires 0 <= k < |chunks| => Packet(chunks[k], 0, 0, false))
  }

  // ----- acknowledgements

  predicate Acks(limits: Limits, nr: nat, p: Packet) {
    p.sent && p.ns != nr && Distance(nr, p.ns, limits.modulus) <= limits.maxFrames
  }

  function Unacked(limits: Limits, nr: nat, buffer: seq<Packet>): seq<Packet> {
    if buffer == [] then []
    else
      var rest := Unacked(limits, nr, buffer[1..]);
      if Acks(limits, nr, buffer[0]) then rest else [buffer[0]] + rest
  }

  function Acknowledged(limits: Limits, snd: Sender, nr: nat): Sender {
    snd.(buffer := Unacked(limits, nr, snd.buffer), remoteSeq := nr)
  }

  // ----- draining

  datatype Drained = Drained(buffer: seq<Packet>, sendSeq: nat, out: seq<Frame>)

  /** The loop of the drain over the rest of the buffer; seqNum is what it counts the window with. */
  function DrainLoop(limits: Limits, buffer: seq<Packet>, sendSeq: nat, seqNum: nat, remoteSeq: nat, nr: nat,
                     resent: bool): (d: Drained)
    requires limits.Ok()
    ensures |d.buffer| == |buffer|
  {
    if buffer == [] then Drained([], sendSeq, [])
    else
      var p := buffer[0];
      if p.sent then
        var d := DrainLoop(limits, buffer[1..], sendSeq, seqNum, remoteSeq, nr, resent);
        Drained([p.(nr := nr)] + d.buffer, d.sendSeq,
                (if resent then [Info(p.ns, nr, p.data, false)] else []) + d.out)
      else if Distance(seqNum, remoteSeq, limits.modulus) < limits.maxFrames then
        var d := DrainLoop(limits, buffer[1..], limits.Next(sendSeq), limits.Next(seqNum), remoteSeq, nr, resent);
        Drained([Packet(p.data, sendSeq, nr, true)] + d.buffer, d.sendSeq, [Info(sendSeq, nr, p.data, false)] + d.out)
      else
        var d := DrainLoop(limits, buffer[1..], sendSeq, seqNum, remoteSeq, nr, resent);
        Drained([p] + d.buffer, d.sendSeq, d.out)
  }

  /** Where the drain starts counting: at a REJ's number if one other than zero has come in. */
  function CountFrom(snd: Sender): nat {
    if snd.gotRej > 0 then snd.gotRej else snd.sendSeq
  }

  /** _drain, with the receive sequence number nr; `quiet` says that the clock suppresses an RR. */
  function AfterDrain(limits: Limits, snd: Sender, nr: nat, resent: bool, quiet: bool): (Sender, seq<Frame>)
    requires limits.Ok()
  {
    if snd.remoteBusy then (snd, [])
    else
      var d := DrainLoop(limits, snd.buffer, snd.sendSeq, CountFrom(snd), snd.remoteSeq, nr, resent);
      (snd.(sendSeq := d.sendSeq, buffer := d.buffer, gotRej := -1),
       if snd.gotRej < 0 && d.out == [] && !quiet then [Supervisory(RR, nr)] else d.out)
  }

  // ----- receiving

  /** What is passed on for one packet. */
  function Passed(data: Data): seq<Data> {
    if |data| > 0 then [data] else []
  }

  datatype Released = Released(held: map<nat, Entry>, recvSeq: nat, delivered: seq<Data>)

  /** Frames held back are passed on in order until there is a gap. */
  function Release(limits: Limits, held: map<nat, Entry>, recvSeq: nat): Released
    requires limits.Ok()
    decreases |held|
  {
    if recvSeq in held then
      assert |held.Keys - {recvSeq}| < |held.Keys|;
      var rest := Release(limits, held - {recvSeq}, limits.Next(recvSeq));
      rest.(delivered := Passed(held[recvSeq].data) + rest.delivered)
    else Released(held, recvSeq, [])
  }

  function Stored(held: map<nat, Entry>, ns: nat, data: Data, now: int): map<nat, Entry> {
    var all := held[ns := Entry(data, now)];
    map k | k in all && now - all[k].time <= ENTRY_LIFETIME :: all[k]
  }

  datatype Reception = Reception(rcv: Receiver, delivered: seq<Data>, reject: bool)

  /** An I-frame arrives: it is passed on with what it releases, or held back, or refused. A REJ
      goes out only for a refused frame with the poll bit, once per gap. */
  function ReceiveInfo(limits: Limits, rcv: Receiver, ns: nat, data: Data, poll: bool, now: int): Reception
    requires limits.Ok()
  {
    if ns == rcv.recvSeq then
      var rel := Release(limits, rcv.held, limits.Next(rcv.recvSeq));
      Reception(Receiver(rel.recvSeq, false, rel.held), Passed(data) + rel.delivered, false)
    else
      var d := Distance(ns, rcv.recvSeq, limits.modulus);
      if d <= limits.maxFrames && d > 0 then
        Reception(rcv.(held := Stored(rcv.held, ns, data, now)), [], false)
      else
        Reception(rcv.(sentRej := true), [], poll && !rcv.sentRej)
  }

  function ReceiveSupervisory(limits: Limits, snd: Sender, kind: Kind, nr: nat): Sender {
    var snd' := Acknowledged(limits, snd.(remoteBusy := kind == RNR), nr);
    if kind == REJ then snd'.(gotRej := nr) else snd'
  }

  // ----- the session object

  class Session {
    const limits: Limits
    const packetLength: nat
    var sendSequence: nat
    var receiveSequence: nat
    var remoteReceiveSequence: nat
    var remoteBusy: bool
    var sentREJ: bool
    var gotREJSequenceNum: int
    var sendBuffer: seq<Packet>
    var receiveBuffer: map<nat, Entry>

    predicate Allocated() { limits.Ok() && packetLength > 0 }

    function Sending(): Sender
      reads this
    {
      Sender(sendSequence, remoteReceiveSequence, remoteBusy, gotREJSequenceNum, sendBuffer)
    }

    function Receiving(): Receiver
      reads this
    {
      Receiver(receiveSequence, sentREJ, receiveBuffer)
    }

    /** A session as it enters the connected state. */
    constructor (limits: Limits, packetLength: nat)
      ensures this.limits == limits && this.packetLength == packetLength
      ensures Sending() == Sender(0, 0, false, -1, []) && Receiving() == Receiver(0, false, map[])
    {
      this.limits := limits;
      this.packetLength := packetLength;
      sendSequence, receiveSequence, remoteReceiveSequence := 0, 0, 0;
      remoteBusy, sentREJ, gotREJSequenceNum := false, false, -1;
      sendBuffer, receiveBuffer := [], map[];
    }

    method Send(info: Data)
      requires Allocated()
      modifies this`sendBuffer
      ensures sendBuffer == old(sendBuffer) + Packets(Chunks(info, packetLength))
    {
      var i := 0;
      ghost var rest := info;
      while i < |info|
        invariant 0 <= i && rest == if i < |info| then info[i..] else []
        invariant old(sendBuffer) + Packets(Chunks(info, packetLength)) ==
                  sendBuffer + Packets(Chunks(rest, packetLength))
      {
        var length := if packetLength < |info| - i then packetLength else |info| - i;
        ChunkTaken(rest, packetLength, length);
        assert info[i..i + length] == rest[..length];
        sendBuffer := sendBuffer + [Packet(info[i..i + length], 0, 0, false)];
        rest := if packetLength < |rest| then rest[packetLength..] else [];
        i := i + packetLength;
      }
    }

    method ReceiveAcknowledgement(nr: nat)
      modifies this`sendBuffer, this`remoteReceiveSequence
      ensures Sending() == Acknowledged(limits, old(Sending()), nr)
    {
      var p := 0;
      while p < |sendBuffer|
        invariant 0 <= p <= |sendBuffer|
        invariant Unacked(limits, nr, old(sendBuffer)) == sendBuffer[..p] + Unacked(limits, nr, sendBuffer[p..])
        decreases |sendBuffer| - p
      {
        ghost var before := sendBuffer;
        if Acks(limits, nr, sendBuffer[p]) {
          sendBuffer := sendBuffer[..p] + sendBuffer[p + 1..];
          assert sendBuffer[p..] == before[p..][1..] && sendBuffer[..p] == before[..p];
        } else {
          p := p + 1;
          assert sendBuffer[p..] == before[p - 1..][1..];
        }
      }
      assert sendBuffer[p..] == [] && sendBuffer[..p] == sendBuffer;
      remoteReceiveSequence := nr;
    }

    /** One packet of the drain's loop. */
    method DrainPacket(i: nat, sequenceNum: nat, resent: bool) returns (sequenceNum': nat, out: seq<Frame>)
      requires Allocated() && i < |sendBuffer|
      modifies this`sendSequence, this`sendBuffer
      ensures |sendBuffer| == |old(sendBuffer)| && sendBuffer[..i] == old(sendBuffer[..i])
      ensures sendBuffer[i + 1..] == old(sendBuffer[i + 1..])
      ensures var d := DrainLoop(limits, sendBuffer[i + 1..], sendSequence, sequenceNum', remoteReceiveSequence,
                                 receiveSequence, resent);
              old(DrainLoop(limits, sendBuffer[i..], sendSequence, sequenceNum, remoteReceiveSequence,
                            receiveSequence, resent)) ==
              Drained([sendBuffer[i]] + d.buffer, d.sendSeq, out + d.out)
    {
      out, sequenceNum' := [], sequenceNum;
      var dst := Distance(sequenceNum, remoteReceiveSequence, limits.modulus);
      var p := sendBuffer[i];
      assert sendBuffer[i..][1..] == sendBuffer[i + 1..];
      if p.sent || dst < limits.maxFrames {
        var emit := true;
        if !p.sent {
          sendBuffer := sendBuffer[i := Packet(p.data, sendSequence, receiveSequence, true)];
          sendSequence := limits.Next(sendSequence);
          sequenceNum' := limits.Next(sequenceNum);
        } else {
          sendBuffer := sendBuffer[i := p.(nr := receiveSequence)];
          emit := resent;
        }
        if emit { out := [Info(sendBuffer[i].ns, sendBuffer[i].nr, sendBuffer[i].data, false)]; }
      }
    }

    method DrainBuffer(resent: bool) returns (out: seq<Frame>)
      requires Allocated()
      modifies this`sendSequence, this`sendBuffer
      ensures Drained(sendBuffer, sendSequence, out) ==
              old(DrainLoop(limits, sendBuffer, sendSequence, CountFrom(Sending()), remoteReceiveSequence,
                            receiveSequence, resent))
    {
      out := [];
      var sequenceNum: nat := sendSequence;
      if gotREJSequenceNum > 0 { sequenceNum := gotREJSequenceNum; }
      ghost var all := DrainLoop(limits, sendBuffer, sendSequence, sequenceNum, remoteReceiveSequence,
                                 receiveSequence, resent);
      assert sendBuffer[0..] == sendBuffer;
      var i := 0;
      while i < |sendBuffer|
        invariant 0 <= i <= |sendBuffer|
        invariant var d := DrainLoop(limits, sendBuffer[i..], sendSequence, sequenceNum, remoteReceiveSequence,
                                     receiveSequence, resent);
                  all == Drained(sendBuffer[..i] + d.buffer, d.sendSeq, out + d.out)
        decreases |sendBuffer| - i
      {
        ghost var done, out0, d0 := sendBuffer[..i], out, DrainLoop(limits, sendBuffer[i..], sendSequence,
          sequenceNum, remoteReceiveSequence, receiveSequence, resent);
        var more;
        sequenceNum, more := DrainPacket(i, sequenceNum, resent);
        out := out + more;
        ghost var d := DrainLoop(limits, sendBuffer[i + 1..], sendSequence, sequenceNum, remoteReceiveSequence,
                                 receiveSequence, resent);
        DrainedSoFar(done, sendBuffer[i], d.buffer, out0, more, d.out);
        assert sendBuffer[..i + 1] == done + [sendBuffer[i]];
        i := i + 1;
      }
      assert sendBuffer[..i] == sendBuffer;
    }

    method Drain(resent: bool, quiet: bool) returns (out: seq<Frame>)
      requires Allocated()
      modifies this`sendSequence, this`sendBuffer, this`gotREJSequenceNum
      ensures (Sending(), out) == AfterDrain(limits, old(Sending()), receiveSequence, resent, quiet)
    {
      if remoteBusy { return []; }
      out := DrainBuffer(resent);
      if gotREJSequenceNum < 0 && out == [] && !quiet {
        out := [Supervisory(RR, receiveSequence)];
      }
      gotREJSequenceNum := -1;
    }

    method ProcessBufferedPackets() returns (delivered: seq<Data>, packetsProcessed: nat)
      requires Allocated()
      modifies this`receiveSequence, this`receiveBuffer
      ensures Released(receiveBuffer, receiveSequence, delivered) ==
              Release(limits, old(receiveBuffer), old(receiveSequence))
    {
      ghost var all := Release(limits, receiveBuffer, receiveSequence);
      delivered, packetsProcessed := [], 0;
      var expectedSeq := receiveSequence;
      while expectedSeq in receiveBuffer
        invariant expectedSeq == receiveSequence
        invariant var rest := Release(limits, receiveBuffer, receiveSequence);
                  all == rest.(delivered := delivered + rest.delivered)
        decreases |receiveBuffer|
      {
        var entry := receiveBuffer[expectedSeq];
        assert |receiveBuffer.Keys - {expectedSeq}| < |receiveBuffer.Keys|;
        delivered := delivered + Passed(entry.data);
        receiveBuffer := receiveBuffer - {expectedSeq};
        receiveSequence := limits.Next(receiveSequence);
        expectedSeq := limits.Next(expectedSeq);
        packetsProcessed := packetsProcessed + 1;
      }
    }

    method StoreOutOfOrderPacket(ns: nat, data: Data, now: int)
      modifies this`receiveBuffer
      ensures receiveBuffer == Stored(old(receiveBuffer), ns, data, now)
    {
      receiveBuffer := receiveBuffer[ns := Entry(data, now)];
      ghost var all := receiveBuffer;
      var keys := receiveBuffer.Keys;
      while keys != {}
        invariant keys <= all.Keys
        invariant receiveBuffer == map k | k in all && (k in keys || now - all[k].time <= ENTRY_LIFETIME) :: all[k]
        decreases keys
      {
        var k :| k in keys;
        if now - receiveBuffer[k].time > ENTRY_LIFETIME { receiveBuffer := receiveBuffer - {k}; }
        keys := keys - {k};
      }
    }

    /** The I-frame branch of receive. */
    method TakeInfo(ns: nat, nr: nat, data: Data, poll: bool, now: int)
      returns (delivered: seq<Data>, reject: bool)
      requires Allocated()
      modifies this
      ensures Reception(Receiving(), delivered, reject) ==
              ReceiveInfo(limits, old(Receiving()), ns, data, poll, now)
      ensures Sending() == Acknowledged(limits, old(Sending()), nr)
    {
      delivered, reject := [], false;
      if ns == receiveSequence {
        sentREJ := false;
        receiveSequence := limits.Next(receiveSequence);
        delivered := Passed(data);
        var more, _ := ProcessBufferedPackets();
        delivered := delivered + more;
      } else {
        var distance := Distance(ns, receiveSequence, limits.modulus);
        if distance <= limits.maxFrames && distance > 0 {
          StoreOutOfOrderPacket(ns, data, now);
        } else if !sentREJ {
          reject := poll;
          sentREJ := true;
        }
      }
      ReceiveAcknowledgement(nr);
    }

    /** The RR, RNR and REJ branches of receive. */
    method TakeSupervisory(kind: Kind, nr: nat)
      modifies this
      ensures Sending() == ReceiveSupervisory(limits, old(Sending()), kind, nr)
      ensures Receiving() == old(Receiving())
    {
      remoteBusy := kind == RNR;
      ReceiveAcknowledgement(nr);
      if kind == REJ { gotREJSequenceNum := nr; }
    }
  }

  lemma DrainedSoFar(a: seq<Packet>, p: Packet, b: seq<Packet>, x: seq<Frame>, y: seq<Frame>, z: seq<Frame>)
    ensures a + ([p] + b) == (a + [p]) + b && x + (y + z) == (x + y) + z
  {
  }

  lemma ChunkTaken(rest: Data, packetLength: nat, length: nat)
    requires packetLength > 0 && rest != [] && length == if packetLength < |rest| then packetLength else |rest|
    ensures Packets(Chunks(rest, packetLength)) ==
            [Packet(rest[..length], 0, 0, false)] +
            Packets(Chunks(if packetLength < |rest| then rest[packetLength..] else [], packetLength))
  {
    var more := Chunks(if packetLength < |rest| then rest[packetLength..] else [], packetLength);
    assert rest[..|rest|] == rest;
    assert Chunks(rest, packetLength) == [rest[..length]] + more;
  }
}
