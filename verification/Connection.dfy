/** Runs of two connected sessions, and what holds in every one of them. */
module Connection {
  import opened Ax25Session
  import opened SlidingWindow

  datatype Station = Station(snd: Sender, rcv: Receiver, queued: seq<Data>, delivered: seq<Data>)

  datatype System = System(a: Station, b: Station, ab: seq<Flight>, ba: seq<Flight>) {
    function Mirror(): System { System(b, a, ba, ab) }

    /** The direction from a to b. */
    function Out(): Way { Way(a.snd, b.rcv, ab, ba, a.queued, b.delivered) }

    /** The direction from b to a. */
    function Back(): Way { Way(b.snd, a.rcv, ba, ab, b.queued, a.delivered) }
  }

  function Connected(): Station {
    Station(Sender(0, 0, false, -1, []), Receiver(0, false, map[]), [], [])
  }

  function Start(): System { System(Connected(), Connected(), [], []) }

  /** What can happen at a station: data is given to it, it drains its buffer (because data was given
      to it or a timer expired), it sends a supervisory frame (in reply, or because a timer expired),
      the next frame on the link to it arrives, or a frame on the link from it is lost. */
  datatype Action =
    | Submit(info: Data, packetLength: nat)
    | Drains(resent: bool, quiet: bool)
    | Reply(kind: Kind)
    | Take(now: int)
    | Lose(k: nat)

  // ----- one action

  function Tag(f: Frame, i: nat, s: nat, ack: nat): Flight {
    Flight(f, i, if f.Info? && i >= s then i + 1 else s, ack)
  }

  /** The frames a drain puts on the link, of which the first carries packet i. */
  function Tagged(out: seq<Frame>, i: nat, s: nat, ack: nat): (t: seq<Flight>)
    ensures |t| == |out|
  {
    seq(|out|, k requires 0 <= k < |out| => Tag(out[k], i + k, s, ack))
  }

  /** How many of its packets a station has seen acknowledged, and how many it has sent. */
  function AckedSoFar(st: Station): nat {
    if |st.snd.buffer| <= |st.queued| then |st.queued| - |st.snd.buffer| else 0
  }

  function SentSoFar(st: Station): nat { AckedSoFar(st) + Leading(st.snd.buffer) }

  function TakeFrame(limits: Limits, st: Station, f: Frame, now: int): Station
    requires limits.Ok()
  {
    match f
    case Info(ns, nr, data, poll) =>
      var rec := ReceiveInfo(limits, st.rcv, ns, data, poll, now);
      Station(Acknowledged(limits, st.snd, nr), rec.rcv, st.queued, st.delivered + rec.delivered)
    case Supervisory(kind, nr) =>
      st.(snd := ReceiveSupervisory(limits, st.snd, kind, nr))
  }

  /** An action at station a. */
  function Apply(limits: Limits, sys: System, act: Action): System
    requires limits.Ok() && Possible(limits, sys, act)
  {
    var st := sys.a;
    match act
    case Submit(info, packetLength) =>
      var chunks := Chunks(info, packetLength);
      sys.(a := st.(snd := st.snd.(buffer := st.snd.buffer + Packets(chunks)), queued := st.queued + chunks))
    case Drains(resent, quiet) =>
      var (snd, out) := AfterDrain(limits, st.snd, st.rcv.recvSeq, resent, quiet);
      sys.(a := st.(snd := snd),
           ab := sys.ab + Tagged(out, if resent then AckedSoFar(st) else SentSoFar(st), SentSoFar(st), |st.delivered|))
    case Reply(kind) =>
      sys.(ab := sys.ab + [Flight(Supervisory(kind, st.rcv.recvSeq), 0, SentSoFar(st), |st.delivered|)])
    case Take(now) =>
      sys.(a := TakeFrame(limits, st, sys.ba[0].frame, now), ba := sys.ba[1..])
    case Lose(k) =>
      sys.(ab := Without(sys.ab, k))
  }

  /** Which actions a run may take. A drain has to keep to the window; DrainKeepsWindow says when. */
  predicate Possible(limits: Limits, sys: System, act: Action) {
    match act
    case Submit(_, packetLength) => packetLength > 0
    case Drains(_, _) => KeepsWindow(limits, sys.a.snd)
    case Reply(_) => true
    case Take(_) => sys.ba != []
    case Lose(k) => k < |sys.ab|
  }

  /** How many packets a drain sends for the first time. */
  function FirstTime(limits: Limits, snd: Sender): (n: nat)
    ensures n <= |snd.buffer| - Leading(snd.buffer)
  {
    if snd.remoteBusy then 0
    else Least(Room(limits, CountFrom(snd), snd.remoteSeq), |snd.buffer| - Leading(snd.buffer))
  }

  predicate KeepsWindow(limits: Limits, snd: Sender) {
    Leading(snd.buffer) + FirstTime(limits, snd) <= limits.maxFrames
  }

  // ----- the drain

  /** The packets a drain leaves in the buffer. */
  lemma DrainSender(limits: Limits, snd: Sender, queued: seq<Data>, a: nat, s: nat, nr: nat, resent: bool, quiet: bool)
    requires limits.Ok() && limits.maxFrames < limits.modulus && SenderOk(limits, snd, queued, a, s)
    requires KeepsWindow(limits, snd)
    ensures var n := FirstTime(limits, snd);
            SenderOk(limits, AfterDrain(limits, snd, nr, resent, quiet).0, queued, a, s + n)
  {
    LeadingIs(limits, snd, queued, a, s);
    if !snd.remoteBusy {
      var from := CountFrom(snd);
      DrainFrom(limits, snd.buffer, queued, a, s, snd.sendSeq, from, snd.remoteSeq, nr, resent);
      var d := DrainLoop(limits, snd.buffer, snd.sendSeq, from, snd.remoteSeq, nr, resent);
      DrainedPackets(limits, snd.buffer, d, queued, a, s, FirstTime(limits, snd), nr, resent);
    }
  }

  lemma DrainedPackets(limits: Limits, buffer: seq<Packet>, d: Drained, queued: seq<Data>, a: nat, s: nat, n: nat,
                       nr: nat, resent: bool)
    requires limits.Ok() && SentOn(limits, buffer, d, a, s, n, nr, resent)
    requires forall k: nat | k < |buffer| :: PacketOk(limits, buffer[k], queued, a + k, s)
    ensures forall k: nat | k < |buffer| :: PacketOk(limits, d.buffer[k], queued, a + k, s + n)
  {
    forall k: nat | k < |buffer| ensures PacketOk(limits, d.buffer[k], queued, a + k, s + n) {
      assert PacketOk(limits, buffer[k], queued, a + k, s);
    }
  }

  /** Frames for the link that carry sent packets, and tell how far the station has received. */
  ghost predicate Outgoing(limits: Limits, more: seq<Flight>, queued: seq<Data>, s: nat, top: nat, ack: nat, nr: nat)
    requires limits.Ok()
  {
    match limits
    case Limits(_, _) =>
      ForwardOk(limits, more, queued, top) &&
      forall k | 0 <= k < |more| :: s <= more[k].top && more[k].ack == ack && more[k].frame.nr == nr
  }

  lemma ReplyOut(limits: Limits, queued: seq<Data>, i: nat, s: nat, top: nat, ack: nat, nr: nat)
    requires limits.Ok() && s <= top <= |queued|
    ensures Outgoing(limits, Tagged([Supervisory(RR, nr)], i, s, ack), queued, s, top, ack, nr)
    ensures Outgoing(limits, Tagged([], i, s, ack), queued, s, top, ack, nr)
  {
  }

  /** The frames a drain puts on the link carry packets of the window, in order, and nothing else. */
  lemma DrainFlights(limits: Limits, snd: Sender, queued: seq<Data>, a: nat, s: nat, out: seq<Frame>, nr: nat, ack: nat,
                     resent: bool, quiet: bool)
    requires limits.Ok() && limits.maxFrames < limits.modulus && SenderOk(limits, snd, queued, a, s)
    requires KeepsWindow(limits, snd) && out == AfterDrain(limits, snd, nr, resent, quiet).1
    ensures Outgoing(limits, Tagged(out, if resent then a else s, s, ack), queued, s, s + FirstTime(limits, snd), ack, nr)
  {
    var n := FirstTime(limits, snd);
    LeadingIs(limits, snd, queued, a, s);
    ReplyOut(limits, queued, if resent then a else s, s, s + n, ack, nr);
    if !snd.remoteBusy {
      var d := DrainLoop(limits, snd.buffer, snd.sendSeq, CountFrom(snd), snd.remoteSeq, nr, resent);
      DrainFrom(limits, snd.buffer, queued, a, s, snd.sendSeq, CountFrom(snd), snd.remoteSeq, nr, resent);
      DrainedFlights(limits, snd.buffer, d, queued, a, s, n, nr, ack, resent);
      assert out == d.out || out == [Supervisory(RR, nr)];
    }
  }

  lemma DrainedFlights(limits: Limits, buffer: seq<Packet>, d: Drained, queued: seq<Data>, a: nat, s: nat, n: nat,
                       nr: nat, ack: nat, resent: bool)
    requires limits.Ok() && SentOn(limits, buffer, d, a, s, n, nr, resent)
    requires |queued| == a + |buffer| && s + n <= a + limits.maxFrames
    requires forall k: nat | k < |buffer| :: PacketOk(limits, buffer[k], queued, a + k, s)
    ensures Outgoing(limits, Tagged(d.out, if resent then a else s, s, ack), queued, s, s + n, ack, nr)
  {
    var base := if resent then a else s;
    var more := Tagged(d.out, base, s, ack);
    forall k: nat | k < |more|
      ensures FlightOk(limits, more[k], queued, s + n) && s <= more[k].top && more[k].ack == ack && more[k].frame.nr == nr
    {
      var j := base - a + k;
      assert PacketOk(limits, buffer[j], queued, a + j, s);
      assert d.out[k] == InfoOf(d.buffer[j]) && d.buffer[j] == Stamped(limits, buffer[j].data, a + j, nr);
    }
  }

  // ----- the invariant

  /** WayOk, kept whole. */
  ghost predicate Holds(limits: Limits, w: Way, a: nat, s: nat, r: nat) {
    match w case Way(_, _, _, _, _, _) => WayOk(limits, w, a, s, r)
  }

  ghost predicate OneWayOk(limits: Limits, w: Way, from: Station, to: Station) {
    match w case Way(_, _, _, _, _, _) => WayOk(limits, w, AckedSoFar(from), SentSoFar(from), |to.delivered|)
  }

  ghost predicate Inv(limits: Limits, sys: System) {
    OneWayOk(limits, sys.Out(), sys.a, sys.b) && OneWayOk(limits, sys.Back(), sys.b, sys.a)
  }

  /** A direction whose sender has seen packets below a acknowledged and has sent those below s. */
  lemma CountsAre(limits: Limits, w: Way, from: Station, to: Station, a: nat, s: nat, r: nat)
    requires Holds(limits, w, a, s, r) && w.snd == from.snd && w.queued == from.queued && w.delivered == to.delivered
    ensures OneWayOk(limits, w, from, to)
  {
    LeadingIs(limits, w.snd, w.queued, a, s);
  }

  lemma StartInv(limits: Limits)
    requires limits.Ok() && 2 * limits.maxFrames < limits.modulus
    ensures Inv(limits, Start())
  {
  }

  lemma SubmitInv(limits: Limits, sys: System, info: Data, packetLength: nat)
    requires limits.Ok() && Inv(limits, sys) && packetLength > 0
    ensures Inv(limits, Apply(limits, sys, Submit(info, packetLength)))
  {
    var sys' := Apply(limits, sys, Submit(info, packetLength));
    var a, s, r := AckedSoFar(sys.a), SentSoFar(sys.a), |sys.b.delivered|;
    SubmitOk(limits, sys.Out(), a, s, r, Chunks(info, packetLength));
    CountsAre(limits, sys'.Out(), sys'.a, sys'.b, a, s, r);
    assert sys'.Back() == sys.Back();
  }

  lemma Forwarded(limits: Limits, w: Way, a: nat, s: nat, r: nat, snd: Sender, more: seq<Flight>, s': nat, ack: nat, nr: nat)
    requires Holds(limits, w, a, s, r) && SenderOk(limits, snd, w.queued, a, s') && s <= s' && limits.Ok()
    requires Outgoing(limits, more, w.queued, s, s', ack, nr)
    ensures Holds(limits, w.(snd := snd, fwd := w.fwd + more), a, s', r)
  {
    ForwardMore(limits, w, a, s, r, snd, more, s');
  }

  ghost predicate DrainGives(limits: Limits, snd: Sender, nr: nat, resent: bool, quiet: bool, snd': Sender, out: seq<Frame>)
    requires limits.Ok()
  {
    match snd case Sender(_, _, _, _, _) => AfterDrain(limits, snd, nr, resent, quiet) == (snd', out)
  }

  lemma DrainBoth(limits: Limits, snd: Sender, queued: seq<Data>, a: nat, s: nat, s': nat, snd': Sender, out: seq<Frame>,
                  nr: nat, ack: nat, resent: bool, quiet: bool)
    requires limits.Ok() && limits.maxFrames < limits.modulus && SenderOk(limits, snd, queued, a, s)
    requires KeepsWindow(limits, snd) && s' == s + FirstTime(limits, snd)
    requires DrainGives(limits, snd, nr, resent, quiet, snd', out)
    ensures SenderOk(limits, snd', queued, a, s')
    ensures Outgoing(limits, Tagged(out, if resent then a else s, s, ack), queued, s, s', ack, nr)
  {
    DrainSender(limits, snd, queued, a, s, nr, resent, quiet);
    DrainFlights(limits, snd, queued, a, s, out, nr, ack, resent, quiet);
  }

  /** The direction out of a draining station. */
  lemma DrainOut(limits: Limits, w: Way, a: nat, s: nat, r: nat, s': nat, snd: Sender, out: seq<Frame>, nr: nat, ack: nat,
                 resent: bool, quiet: bool)
    requires limits.Ok() && Holds(limits, w, a, s, r) && KeepsWindow(limits, w.snd) && s' == s + FirstTime(limits, w.snd)
    requires DrainGives(limits, w.snd, nr, resent, quiet, snd, out)
    ensures var more := Tagged(out, if resent then a else s, s, ack);
            Holds(limits, w.(snd := snd, fwd := w.fwd + more), a, s', r) &&
            Outgoing(limits, more, w.queued, s, s', ack, nr)
  {
    DrainBoth(limits, w.snd, w.queued, a, s, s', snd, out, nr, ack, resent, quiet);
    Forwarded(limits, w, a, s, r, snd, Tagged(out, if resent then a else s, s, ack), s', ack, nr);
  }

  /** The frames a station sends tell how far it has received. */
  lemma BackKept(limits: Limits, sys: System, a: Station, more: seq<Flight>)
    requires OneWayOk(limits, sys.Back(), sys.b, sys.a) && a.rcv == sys.a.rcv && a.delivered == sys.a.delivered
    requires forall k | 0 <= k < |more| :: more[k].ack == |a.delivered| && more[k].frame.nr == a.rcv.recvSeq
    ensures OneWayOk(limits, sys.(a := a, ab := sys.ab + more).Back(), sys.b, a)
  {
    BackMore(limits, sys.Back(), AckedSoFar(sys.b), SentSoFar(sys.b), |a.delivered|, more);
  }

  lemma DrainKept(limits: Limits, sys: System, a: Station, out: seq<Frame>, more: seq<Flight>, resent: bool, quiet: bool)
    requires limits.Ok() && OneWayOk(limits, sys.Out(), sys.a, sys.b) && KeepsWindow(limits, sys.a.snd)
    requires DrainGives(limits, sys.a.snd, sys.a.rcv.recvSeq, resent, quiet, a.snd, out) && a == sys.a.(snd := a.snd)
    requires more == Tagged(out, if resent then AckedSoFar(sys.a) else SentSoFar(sys.a), SentSoFar(sys.a), |sys.a.delivered|)
    ensures OneWayOk(limits, sys.(a := a, ab := sys.ab + more).Out(), a, sys.b)
    ensures forall k | 0 <= k < |more| :: more[k].ack == |a.delivered| && more[k].frame.nr == a.rcv.recvSeq
  {
    var acked, sent, r := AckedSoFar(sys.a), SentSoFar(sys.a), |sys.b.delivered|;
    var s' := sent + FirstTime(limits, sys.a.snd);
    DrainOut(limits, sys.Out(), acked, sent, r, s', a.snd, out, a.rcv.recvSeq, |a.delivered|, resent, quiet);
    CountsAre(limits, sys.(a := a, ab := sys.ab + more).Out(), a, sys.b, acked, s', r);
  }

  lemma DrainsInv(limits: Limits, sys: System, resent: bool, quiet: bool)
    requires limits.Ok() && Inv(limits, sys) && KeepsWindow(limits, sys.a.snd)
    ensures Inv(limits, Apply(limits, sys, Drains(resent, quiet)))
  {
    var (snd, out) := AfterDrain(limits, sys.a.snd, sys.a.rcv.recvSeq, resent, quiet);
    var a := sys.a.(snd := snd);
    var more := Tagged(out, if resent then AckedSoFar(sys.a) else SentSoFar(sys.a), SentSoFar(sys.a), |sys.a.delivered|);
    assert Apply(limits, sys, Drains(resent, quiet)) == sys.(a := a, ab := sys.ab + more);
    DrainKept(limits, sys, a, out, more, resent, quiet);
    BackKept(limits, sys, a, more);
  }

  lemma ReplyInv(limits: Limits, sys: System, kind: Kind)
    requires limits.Ok() && Inv(limits, sys)
    ensures Inv(limits, Apply(limits, sys, Reply(kind)))
  {
    var sys' := Apply(limits, sys, Reply(kind));
    var a, s, r := AckedSoFar(sys.a), SentSoFar(sys.a), |sys.b.delivered|;
    var more := [Flight(Supervisory(kind, sys.a.rcv.recvSeq), 0, s, |sys.a.delivered|)];
    ForwardMore(limits, sys.Out(), a, s, r, sys.a.snd, more, s);
    CountsAre(limits, sys'.Out(), sys'.a, sys'.b, a, s, r);
    BackMore(limits, sys.Back(), AckedSoFar(sys.b), SentSoFar(sys.b), |sys.a.delivered|, more);
  }

  /** Flow control and a REJ's number are no part of the direction's invariant. */
  lemma SupervisoryOk(limits: Limits, w: Way, a: nat, s: nat, r: nat, snd: Sender)
    requires WayOk(limits, w, a, s, r) && -1 <= snd.gotRej < limits.modulus
    requires snd == w.snd.(remoteBusy := snd.remoteBusy, gotRej := snd.gotRej)
    ensures WayOk(limits, w.(snd := snd), a, s, r)
  {
  }

  lemma TakeInv(limits: Limits, sys: System, now: int)
    requires limits.Ok() && Inv(limits, sys) && sys.ba != []
    ensures Inv(limits, Apply(limits, sys, Take(now)))
  {
    var sys' := Apply(limits, sys, Take(now));
    var a, s, r := AckedSoFar(sys.a), SentSoFar(sys.a), |sys.b.delivered|;
    AcknowledgeOk(limits, sys.Out(), a, s, r);
    var w := sys.Out();
    var acked := w.(snd := Acknowledged(limits, w.snd, sys.ba[0].frame.nr), back := sys.ba[1..]);
    SupervisoryOk(limits, acked, sys.ba[0].ack, s, r, sys'.a.snd);
    CountsAre(limits, sys'.Out(), sys'.a, sys'.b, sys.ba[0].ack, s, r);
    var r' := ArriveOk(limits, sys.Back(), AckedSoFar(sys.b), SentSoFar(sys.b), |sys.a.delivered|, now);
    CountsAre(limits, sys'.Back(), sys'.b, sys'.a, AckedSoFar(sys.b), SentSoFar(sys.b), r');
  }

  lemma LoseInv(limits: Limits, sys: System, k: nat)
    requires limits.Ok() && Inv(limits, sys) && k < |sys.ab|
    ensures Inv(limits, Apply(limits, sys, Lose(k)))
  {
    ForwardLess(limits, sys.Out(), AckedSoFar(sys.a), SentSoFar(sys.a), |sys.b.delivered|, k);
    BackLess(limits, sys.Back(), AckedSoFar(sys.b), SentSoFar(sys.b), |sys.a.delivered|, k);
  }

  lemma ApplyInv(limits: Limits, sys: System, act: Action)
    requires limits.Ok() && Inv(limits, sys) && Possible(limits, sys, act)
    ensures Inv(limits, Apply(limits, sys, act))
  {
    match act
    case Submit(info, packetLength) => SubmitInv(limits, sys, info, packetLength);
    case Drains(resent, quiet) => DrainsInv(limits, sys, resent, quiet);
    case Reply(kind) => ReplyInv(limits, sys, kind);
    case Take(now) => TakeInv(limits, sys, now);
    case Lose(k) => LoseInv(limits, sys, k);
  }

  // ----- runs

  datatype Move = Move(atB: bool, act: Action)

  predicate Allowed(limits: Limits, sys: System, move: Move) {
    Possible(limits, if move.atB then sys.Mirror() else sys, move.act)
  }

  function Step(limits: Limits, sys: System, move: Move): System
    requires limits.Ok() && Allowed(limits, sys, move)
  {
    if move.atB then Apply(limits, sys.Mirror(), move.act).Mirror() else Apply(limits, sys, move.act)
  }

  lemma StepInv(limits: Limits, sys: System, move: Move)
    requires limits.Ok() && Inv(limits, sys) && Allowed(limits, sys, move)
    ensures Inv(limits, Step(limits, sys, move))
  {
    ApplyInv(limits, if move.atB then sys.Mirror() else sys, move.act);
  }

  /** Every step of the run is allowed where it is taken. */
  predicate RunOk(limits: Limits, sys: System, moves: seq<Move>)
    requires limits.Ok()
    decreases |moves|
  {
    moves == [] || (Allowed(limits, sys, moves[0]) && RunOk(limits, Step(limits, sys, moves[0]), moves[1..]))
  }

  function Run(limits: Limits, sys: System, moves: seq<Move>): System
    requires limits.Ok() && RunOk(limits, sys, moves)
    decreases |moves|
  {
    if moves == [] then sys else Run(limits, Step(limits, sys, moves[0]), moves[1..])
  }

  lemma {:induction false} RunInv(limits: Limits, sys: System, moves: seq<Move>)
    requires limits.Ok() && Inv(limits, sys) && RunOk(limits, sys, moves)
    ensures Inv(limits, Run(limits, sys, moves))
    decreases |moves|
  {
    if moves != [] {
      var move := moves[0];
      StepInv(limits, sys, move);
      RunInv(limits, Step(limits, sys, move), moves[1..]);
    }
  }

  /** What a user of one direction relies on: what has been delivered is the data given to the sender
      up to some packet, in order and once; everything the sender has dropped from its buffer has been
      delivered; what it has sent and not dropped is at most maxFrames packets, the next ones, under
      consecutive numbers. */
  ghost predicate Safe(limits: Limits, from: Station, to: Station)
    requires limits.Ok()
  {
    to.delivered <= from.queued && AckedSoFar(from) <= |to.delivered| <= SentSoFar(from) &&
    Leading(from.snd.buffer) <= limits.maxFrames &&
    |from.snd.buffer| <= |from.queued| &&
    forall k | 0 <= k < |from.snd.buffer| ::
      var p, i := from.snd.buffer[k], AckedSoFar(from) + k;
      p.data == from.queued[i] && (p.sent <==> k < Leading(from.snd.buffer)) &&
      (p.sent ==> p.ns == Number(i, limits.modulus))
  }

  lemma SafeWay(limits: Limits, w: Way, from: Station, to: Station)
    requires OneWayOk(limits, w, from, to)
    requires w.snd == from.snd && w.queued == from.queued && w.delivered == to.delivered
    ensures limits.Ok() && Safe(limits, from, to)
  {
    var a, s := AckedSoFar(from), SentSoFar(from);
    HorizonBelow(limits, w.fwd, w.queued, s);
    forall k: nat | k < |from.snd.buffer|
      ensures var p, i := from.snd.buffer[k], a + k;
              p.data == from.queued[i] && (p.sent <==> k < Leading(from.snd.buffer)) &&
              (p.sent ==> p.ns == Number(i, limits.modulus))
    {
      assert PacketOk(limits, w.snd.buffer[k], w.queued, a + k, s);
    }
  }

  /** Both directions of every run are safe, provided that twice the window is less than the modulus. */
  lemma RunSafe(limits: Limits, moves: seq<Move>)
    requires limits.Ok() && 2 * limits.maxFrames < limits.modulus && RunOk(limits, Start(), moves)
    ensures var sys := Run(limits, Start(), moves);
            Safe(limits, sys.a, sys.b) && Safe(limits, sys.b, sys.a)
  {
    StartInv(limits);
    RunInv(limits, Start(), moves);
    var sys := Run(limits, Start(), moves);
    SafeWay(limits, sys.Out(), sys.a, sys.b);
    SafeWay(limits, sys.Back(), sys.b, sys.a);
  }

  lemma {:induction false} FlatPrefix(a: seq<Data>, b: seq<Data>)
    requires a <= b
    ensures Flat(a) <= Flat(b)
  {
    if a != [] {
      assert a[0] == b[0] && a[1..] <= b[1..];
      FlatPrefix(a[1..], b[1..]);
    }
  }

  /** In bytes: what has been passed on is a prefix of what was given to the sender. */
  lemma RunBytes(limits: Limits, moves: seq<Move>)
    requires limits.Ok() && 2 * limits.maxFrames < limits.modulus && RunOk(limits, Start(), moves)
    ensures var sys := Run(limits, Start(), moves);
            Flat(sys.b.delivered) <= Flat(sys.a.queued) && Flat(sys.a.delivered) <= Flat(sys.b.queued)
  {
    RunSafe(limits, moves);
    var sys := Run(limits, Start(), moves);
    FlatPrefix(sys.b.delivered, sys.a.queued);
    FlatPrefix(sys.a.delivered, sys.b.queued);
  }
}
