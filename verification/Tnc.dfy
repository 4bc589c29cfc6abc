/** Frames on the radio's data link: cut into numbered fragments on the way out, put together again
    on the way in, and sent one fragment at a time from a queue. */
module Tnc {
  import opened Bits

  const MAX_MTU := 50
  const FRAGMENT_IDS := 64

  datatype Fragment = Fragment(final: bool, id: nat, data: seq<byte>, channel: byte)

  // ----- fragments on the way out

  function FragmentsFrom(data: seq<byte>, channel: byte, offset: nat, id: nat): (f: seq<Fragment>)
    requires offset <= |data|
    ensures |f| == (|data| - offset + MAX_MTU - 1) / MAX_MTU
    decreases |data| - offset
  {
    if offset == |data| then []
    else
      var n := if |data| - offset < MAX_MTU then |data| - offset else MAX_MTU;
      [Fragment(offset + n >= |data|, id % FRAGMENT_IDS, data[offset..offset + n], channel)] +
      FragmentsFrom(data, channel, offset + n, id + 1)
  }

  /** sendTncFrame's fragments of a frame. */
  function Fragments(data: seq<byte>, channel: byte): seq<Fragment> { FragmentsFrom(data, channel, 0, 0) }

  /** A fragment as a packet: flags, data, channel. */
  function Packed(f: Fragment): seq<byte>
    requires f.id < FRAGMENT_IDS
  {
    [f.id + (if f.final then 0x80 else 0) + 0x40] + f.data + [f.channel]
  }

  /** What the receiver reads from such a packet; without a channel it takes the current one. */
  function Unpacked(value: seq<byte>, current: byte): (f: Fragment)
    requires |value| >= 1
  {
    var withChannel := (value[0] / 0x40) % 2 == 1 && |value| > 1;
    Fragment(value[0] / 0x80 == 1, value[0] % 0x40,
             if withChannel then value[1..|value| - 1] else value[1..],
             if withChannel then value[|value| - 1] else current)
  }

  lemma PackedUnpacks(f: Fragment, current: byte)
    requires f.id < FRAGMENT_IDS
    ensures Unpacked(Packed(f), current) == f
  {
    assert Packed(f)[1..|Packed(f)| - 1] == f.data;
  }

  // ----- fragments on the way in

  datatype Accumulator = Nothing | Partly(data: seq<byte>, channel: byte, expected: nat)

  datatype Received = Received(acc: Accumulator, frames: seq<(seq<byte>, byte)>)

  /** One fragment arrives. */
  function Receive(acc: Accumulator, f: Fragment): Received {
    var next :=
      if acc.Partly? && f.id == acc.expected then Partly(acc.data + f.data, f.channel, acc.expected + 1)
      else if f.id == 0 then Partly(f.data, f.channel, 1)
      else Nothing;
    if next.Partly? && f.final then Received(Nothing, [(next.data, next.channel)]) else Received(next, [])
  }

  function ReceiveAll(acc: Accumulator, fs: seq<Fragment>): Received
    decreases |fs|
  {
    if fs == [] then Received(acc, [])
    else
      var first := Receive(acc, fs[0]);
      var rest := ReceiveAll(first.acc, fs[1..]);
      Received(rest.acc, first.frames + rest.frames)
  }

  /** An accumulator that fragments can lead to. */
  ghost predicate Reachable(acc: Accumulator) {
    acc.Partly? ==> 1 <= acc.expected <= FRAGMENT_IDS
  }

  /** The accumulator is reachable after any fragments. */
  lemma {:induction false} AlwaysReachable(acc: Accumulator, fs: seq<Fragment>)
    requires Reachable(acc) && forall k | 0 <= k < |fs| :: fs[k].id < FRAGMENT_IDS
    ensures Reachable(ReceiveAll(acc, fs).acc)
    decreases |fs|
  {
    if fs != [] { AlwaysReachable(Receive(acc, fs[0]).acc, fs[1..]); }
  }

  /** The rest of a frame's fragments completes what has been put together of it. */
  lemma {:induction false} RestArrives(data: seq<byte>, channel: byte, acc: Accumulator, offset: nat, id: nat)
    requires offset < |data| && offset == MAX_MTU * id && |data| <= MAX_MTU * FRAGMENT_IDS
    requires if id == 0 then Reachable(acc) else acc == Partly(data[..offset], channel, id)
    ensures ReceiveAll(acc, FragmentsFrom(data, channel, offset, id)) == Received(Nothing, [(data, channel)])
    decreases |data| - offset
  {
    var n := if |data| - offset < MAX_MTU then |data| - offset else MAX_MTU;
    var f := Fragment(offset + n >= |data|, id % FRAGMENT_IDS, data[offset..offset + n], channel);
    var rest := FragmentsFrom(data, channel, offset + n, id + 1);
    var fs := FragmentsFrom(data, channel, offset, id);
    assert fs[0] == f && fs[1..] == rest;
    assert id < FRAGMENT_IDS;
    assert data[..offset] + f.data == data[..offset + n];
    if offset + n < |data| {
      RestArrives(data, channel, Receive(acc, f).acc, offset + n, id + 1);
    } else {
      assert data[..offset + n] == data && rest == [];
    }
  }

  /** Whatever was received before, all fragments of a frame of 1 to 3200 bytes yield that frame. */
  lemma FrameArrives(data: seq<byte>, channel: byte, acc: Accumulator)
    requires 0 < |data| <= MAX_MTU * FRAGMENT_IDS && Reachable(acc)
    ensures ReceiveAll(acc, Fragments(data, channel)) == Received(Nothing, [(data, channel)])
  {
    RestArrives(data, channel, acc, 0, 0);
  }

  /** A received frame never has more than 3200 bytes, so a longer one does not arrive. */
  ghost predicate Bounded(acc: Accumulator) {
    acc.Partly? ==> acc.expected <= FRAGMENT_IDS && |acc.data| <= MAX_MTU * acc.expected
  }

  lemma {:induction false} ReceivedBounded(acc: Accumulator, fs: seq<Fragment>)
    requires Bounded(acc) && forall f | f in fs :: f.id < FRAGMENT_IDS && |f.data| <= MAX_MTU
    ensures forall frame | frame in ReceiveAll(acc, fs).frames :: |frame.0| <= MAX_MTU * FRAGMENT_IDS
    decreases |fs|
  {
    if fs != [] {
      assert fs[0] in fs;
      ReceivedBounded(Receive(acc, fs[0]).acc, fs[1..]);
    }
  }

  lemma {:induction false} FragmentsBounded(data: seq<byte>, channel: byte, offset: nat, id: nat)
    requires offset <= |data|
    ensures forall f | f in FragmentsFrom(data, channel, offset, id) :: f.id < FRAGMENT_IDS && |f.data| <= MAX_MTU
    decreases |data| - offset
  {
    if offset < |data| {
      FragmentsBounded(data, channel, offset + if |data| - offset < MAX_MTU then |data| - offset else MAX_MTU, id + 1);
    }
  }

  /** The first fragment of a frame starts anew. */
  lemma FirstStarts(data: seq<byte>, channel: byte, acc: Accumulator)
    requires Reachable(acc) && |data| > MAX_MTU
    ensures var fs := Fragments(data, channel);
            fs != [] && Receive(acc, fs[0]) == Received(Partly(fs[0].data, channel, 1), []) && |fs[0].data| <= MAX_MTU
  {
    var f := Fragment(false, 0, data[0..MAX_MTU], channel);
    assert Fragments(data, channel) == [f] + FragmentsFrom(data, channel, MAX_MTU, 1);
  }

  /** A frame arrives exactly if it has 1 to 3200 bytes. */
  lemma ArrivesExactly(data: seq<byte>, channel: byte, acc: Accumulator)
    requires Reachable(acc)
    ensures (data, channel) in ReceiveAll(acc, Fragments(data, channel)).frames <==>
            0 < |data| <= MAX_MTU * FRAGMENT_IDS
  {
    if 0 < |data| <= MAX_MTU * FRAGMENT_IDS {
      FrameArrives(data, channel, acc);
    } else if |data| > 0 {
      var fs := Fragments(data, channel);
      FragmentsBounded(data, channel, 0, 0);
      FirstStarts(data, channel, acc);
      var first := Receive(acc, fs[0]);
      ReceivedBounded(first.acc, fs[1..]);
      assert [] + ReceiveAll(first.acc, fs[1..]).frames == ReceiveAll(first.acc, fs[1..]).frames;
    }
  }

  /** And so it does whatever fragments have come before. */
  lemma ArrivesAfterAll(data: seq<byte>, channel: byte, before: seq<Fragment>)
    requires forall k | 0 <= k < |before| :: before[k].id < FRAGMENT_IDS
    ensures (data, channel) in ReceiveAll(ReceiveAll(Nothing, before).acc, Fragments(data, channel)).frames <==>
            0 < |data| <= MAX_MTU * FRAGMENT_IDS
  {
    AlwaysReachable(Nothing, before);
    ArrivesExactly(data, channel, ReceiveAll(Nothing, before).acc);
  }

  // ----- several frames

  datatype Outgoing = Outgoing(data: seq<byte>, channel: byte)

  function AllFragments(frames: seq<Outgoing>): seq<Fragment> {
    if frames == [] then [] else Fragments(frames[0].data, frames[0].channel) + AllFragments(frames[1..])
  }

  function AsReceived(frames: seq<Outgoing>): (r: seq<(seq<byte>, byte)>)
    ensures |r| == |frames|
  {
    seq(|frames|, k requires 0 <= k < |frames| => (frames[k].data, frames[k].channel))
  }

  lemma {:induction false} ReceiveInTwo(acc: Accumulator, a: seq<Fragment>, b: seq<Fragment>)
    ensures var first := ReceiveAll(acc, a);
            var second := ReceiveAll(first.acc, b);
            ReceiveAll(acc, a + b) == Received(second.acc, first.frames + second.frames)
    decreases |a|
  {
    if a == [] {
      assert a + b == b;
      assert [] + ReceiveAll(acc, b).frames == ReceiveAll(acc, b).frames;
    } else {
      assert (a + b)[1..] == a[1..] + b;
      var one := Receive(acc, a[0]);
      ReceiveInTwo(one.acc, a[1..], b);
      var first := ReceiveAll(one.acc, a[1..]);
      var second := ReceiveAll(first.acc, b);
      assert one.frames + (first.frames + second.frames) == (one.frames + first.frames) + second.frames;
    }
  }

  /** Frames sent one after another arrive in that order, whatever was received before. */
  lemma {:induction false} FramesArrive(frames: seq<Outgoing>, acc: Accumulator)
    requires Reachable(acc) && forall k | 0 <= k < |frames| :: 0 < |frames[k].data| <= MAX_MTU * FRAGMENT_IDS
    ensures ReceiveAll(acc, AllFragments(frames)).frames == AsReceived(frames)
    decreases |frames|
  {
    if frames != [] {
      var first, rest := Fragments(frames[0].data, frames[0].channel), AllFragments(frames[1..]);
      FrameArrives(frames[0].data, frames[0].channel, acc);
      FramesArrive(frames[1..], Nothing);
      ReceiveInTwo(acc, first, rest);
      assert AsReceived(frames) == [(frames[0].data, frames[0].channel)] + AsReceived(frames[1..]);
    }
  }

  /** What has arrived when only some of the fragments have is a prefix of the frames. */
  lemma FramesArriveSoFar(frames: seq<Outgoing>, acc: Accumulator, some: seq<Fragment>)
    requires Reachable(acc) && forall k | 0 <= k < |frames| :: 0 < |frames[k].data| <= MAX_MTU * FRAGMENT_IDS
    requires some <= AllFragments(frames)
    ensures ReceiveAll(acc, some).frames <= AsReceived(frames)
  {
    FramesArrive(frames, acc);
    var rest := AllFragments(frames)[|some|..];
    assert some + rest == AllFragments(frames);
    ReceiveInTwo(acc, some, rest);
  }

  // ----- the queue

  datatype Pending = NonePending | Sent(f: Fragment)

  datatype Queue = Queue(waiting: seq<Fragment>, pending: Pending, sending: bool)

  datatype Answer = Success | IncorrectState | OtherError

  /** _processTncQueue: the head of the queue is sent if nothing is under way and the radio is free. */
  function Processed(q: Queue, free: bool): (Queue, seq<Fragment>) {
    if q.sending || q.pending.Sent? || q.waiting == [] || !free then (q, [])
    else (Queue(q.waiting, Sent(q.waiting[0]), true), [q.waiting[0]])
  }

  /** The radio's answer: what it has accepted or refused for good leaves the queue. */
  function Answered(q: Queue, answer: Answer): (Queue, seq<Fragment>) {
    if answer == IncorrectState then (Queue(q.waiting, NonePending, false), [])
    else if q.pending.Sent? && |q.waiting| > 0 then (Queue(q.waiting[1..], NonePending, false), [q.waiting[0]])
    else (q.(sending := false), [])
  }

  /** A queue with what has been put into it, what has left it, and what was sent to the radio;
      `turns` says which fragment each transmission carried. */
  datatype Log = Log(q: Queue, enqueued: seq<Fragment>, done: seq<Fragment>, transmitted: seq<Fragment>,
                     turns: seq<nat>)

  datatype Event = Send(data: seq<byte>, channel: byte) | Poll(free: bool) | Reply(answer: Answer)

  function Next(log: Log, e: Event): Log {
    match e
    case Send(data, channel) =>
      var fs := Fragments(data, channel);
      log.(q := log.q.(waiting := log.q.waiting + fs), enqueued := log.enqueued + fs)
    case Poll(free) =>
      var (q, out) := Processed(log.q, free);
      log.(q := q, transmitted := log.transmitted + out, turns := log.turns + if out == [] then [] else [|log.done|])
    case Reply(answer) =>
      var (q, gone) := Answered(log.q, answer);
      log.(q := q, done := log.done + gone)
  }

  /** Fragments are transmitted in order, each at least once, and again only right away. */
  ghost predicate InTurn(turns: seq<nat>) {
    (turns != [] ==> turns[0] == 0) &&
    forall k | 0 < k < |turns| :: turns[k - 1] <= turns[k] <= turns[k - 1] + 1
  }

  /** The queue holds what has been put in and has not left, and at most its head is under way. */
  ghost predicate QueueOk(log: Log) {
    match log case Log(q, enqueued, done, _, _) =>
      enqueued == done + q.waiting && (q.sending <==> q.pending.Sent?) &&
      (q.pending.Sent? ==> q.waiting != [] && q.pending.f == q.waiting[0])
  }

  ghost predicate TransmissionsOk(log: Log) {
    match log case Log(q, enqueued, done, transmitted, turns) =>
      |turns| == |transmitted| && InTurn(turns) &&
      (forall k | 0 <= k < |turns| :: turns[k] < |enqueued| && transmitted[k] == enqueued[turns[k]]) &&
      (if turns == [] then done == [] else |done| - 1 <= turns[|turns| - 1] <= |done|) &&
      (q.pending.Sent? ==> turns != [] && turns[|turns| - 1] == |done|)
  }

  ghost predicate LogOk(log: Log) { QueueOk(log) && TransmissionsOk(log) }

  lemma SendOk(log: Log, data: seq<byte>, channel: byte)
    requires LogOk(log)
    ensures LogOk(Next(log, Send(data, channel)))
  {
    var log', fs := Next(log, Send(data, channel)), Fragments(data, channel);
    assert log.done + (log.q.waiting + fs) == log.enqueued + fs;
    forall k | 0 <= k < |log'.turns|
      ensures log'.turns[k] < |log'.enqueued| && log'.transmitted[k] == log'.enqueued[log'.turns[k]]
    {
    }
  }

  lemma PollOk(log: Log, free: bool)
    requires LogOk(log)
    ensures LogOk(Next(log, Poll(free)))
  {
    var (q, out) := Processed(log.q, free);
    if out == [] {
      assert log.transmitted + [] == log.transmitted && log.turns + [] == log.turns;
    } else {
      assert log.enqueued[|log.done|] == log.q.waiting[0];
      TurnTaken(log.turns, log.transmitted, log.enqueued, |log.done|);
    }
  }

  /** The fragment after those that have left is transmitted. */
  lemma TurnTaken(turns: seq<nat>, transmitted: seq<Fragment>, enqueued: seq<Fragment>, n: nat)
    requires |turns| == |transmitted| && InTurn(turns) && n < |enqueued|
    requires forall k | 0 <= k < |turns| :: turns[k] < |enqueued| && transmitted[k] == enqueued[turns[k]]
    requires if turns == [] then n == 0 else n - 1 <= turns[|turns| - 1] <= n
    ensures var turns', transmitted' := turns + [n], transmitted + [enqueued[n]];
            InTurn(turns') &&
            forall k | 0 <= k < |turns'| :: turns'[k] < |enqueued| && transmitted'[k] == enqueued[turns'[k]]
  {
  }

  lemma ReplyOk(log: Log, answer: Answer)
    requires LogOk(log)
    ensures LogOk(Next(log, Reply(answer)))
  {
    var (q, gone) := Answered(log.q, answer);
    if gone == [] {
      assert log.done + [] == log.done;
    } else {
      assert log.done + log.q.waiting == (log.done + [log.q.waiting[0]]) + log.q.waiting[1..];
    }
  }

  lemma NextOk(log: Log, e: Event)
    requires LogOk(log)
    ensures LogOk(Next(log, e))
  {
    match e
    case Send(data, channel) => SendOk(log, data, channel);
    case Poll(free) => PollOk(log, free);
    case Reply(answer) => ReplyOk(log, answer);
  }

  function Run(log: Log, es: seq<Event>): Log
    decreases |es|
  {
    if es == [] then log else Run(Next(log, es[0]), es[1..])
  }

  function Start(): Log { Log(Queue([], NonePending, false), [], [], [], []) }

  /** In every run: what was put in is what has left, in order, followed by what still waits; at most
      the head is under way; and transmissions follow the order of the queue. */
  lemma {:induction false} RunOk(log: Log, es: seq<Event>)
    requires LogOk(log)
    ensures LogOk(Run(log, es))
    decreases |es|
  {
    if es != [] {
      NextOk(log, es[0]);
      RunOk(Next(log, es[0]), es[1..]);
    }
  }

  /** So it does from the beginning. */
  lemma RunFromStart(es: seq<Event>)
    ensures LogOk(Run(Start(), es))
  {
    RunOk(Start(), es);
  }

  // ----- the radio object

  class Radio {
    var tncOutboundQueue: seq<Fragment>
    var tncSending: bool
    var tncPendingPacket: Pending
    var tncFrameAccumulator: Accumulator

    function OutQueue(): Queue
      reads this
    {
      Queue(tncOutboundQueue, tncPendingPacket, tncSending)
    }

    constructor ()
      ensures OutQueue() == Start().q && tncFrameAccumulator == Nothing
    {
      tncOutboundQueue, tncSending, tncPendingPacket, tncFrameAccumulator := [], false, NonePending, Nothing;
    }

    /** sendTncFrame, up to the processing of the queue that follows. */
    method SendTncFrame(data: seq<byte>, channel: byte)
      modifies this`tncOutboundQueue
      ensures tncOutboundQueue == old(tncOutboundQueue) + Fragments(data, channel)
    {
      var offset, fragmentId := 0, 0;
      while offset < |data|
        invariant 0 <= offset <= |data| && fragmentId >= 0
        invariant old(tncOutboundQueue) + Fragments(data, channel) ==
                  tncOutboundQueue + FragmentsFrom(data, channel, offset, fragmentId)
      {
        var remaining := |data| - offset;
        var fragLen := if remaining < MAX_MTU then remaining else MAX_MTU;
        var f := Fragment(offset + fragLen >= |data|, fragmentId % FRAGMENT_IDS, data[offset..offset + fragLen], channel);
        tncOutboundQueue := tncOutboundQueue + [f];
        offset := offset + fragLen;
        fragmentId := fragmentId + 1;
      }
    }

    method ProcessTncQueue(free: bool) returns (sent: seq<Fragment>)
      modifies this`tncSending, this`tncPendingPacket
      ensures (OutQueue(), sent) == Processed(old(OutQueue()), free)
    {
      sent := [];
      if tncSending || tncPendingPacket.Sent? || |tncOutboundQueue| == 0 { return; }
      if !free { return; }
      tncSending := true;
      tncPendingPacket := Sent(tncOutboundQueue[0]);
      sent := [tncOutboundQueue[0]];
    }

    /** The answer to HT_SEND_DATA. */
    method OnSendData(answer: Answer) returns (gone: seq<Fragment>)
      modifies this`tncOutboundQueue, this`tncSending, this`tncPendingPacket
      ensures (OutQueue(), gone) == Answered(old(OutQueue()), answer)
    {
      gone := [];
      match answer {
        case IncorrectState =>
          tncPendingPacket := NonePending;
          tncSending := false;
        case _ =>
          if tncPendingPacket.Sent? && |tncOutboundQueue| > 0 {
            gone := [tncOutboundQueue[0]];
            tncOutboundQueue := tncOutboundQueue[1..];
            tncPendingPacket := NonePending;
          }
          tncSending := false;
      }
    }

    /** A DATA_RXD notification. */
    method OnDataReceived(f: Fragment) returns (frames: seq<(seq<byte>, byte)>)
      modifies this`tncFrameAccumulator
      ensures Received(tncFrameAccumulator, frames) == Receive(old(tncFrameAccumulator), f)
    {
      match tncFrameAccumulator {
        case Nothing =>
          tncFrameAccumulator := if f.id == 0 then Partly(f.data, f.channel, 1) else Nothing;
        case Partly(data, channel, expected) =>
          if f.id != expected {
            tncFrameAccumulator := if f.id == 0 then Partly(f.data, f.channel, 1) else Nothing;
          } else {
            tncFrameAccumulator := Partly(data + f.data, f.channel, expected + 1);
          }
      }
      frames := [];
      if tncFrameAccumulator.Partly? && f.final {
        frames := [(tncFrameAccumulator.data, tncFrameAccumulator.channel)];
        tncFrameAccumulator := Nothing;
      }
    }
  }
}
