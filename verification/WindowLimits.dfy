/** What the two hypotheses of the sliding window's safety are worth: when a drain keeps to the
    window, and why twice the window has to be less than the modulus. */
module WindowLimits {
  import opened Ax25Session
  import opened SlidingWindow
  import opened Connection

  // ----- the drain

  /** A drain leaves at most maxFrames packets outstanding exactly if KeepsWindow held before it. */
  lemma DrainedWindow(limits: Limits, snd: Sender, queued: seq<Data>, a: nat, s: nat, nr: nat, resent: bool, quiet: bool)
    requires limits.Ok() && limits.maxFrames < limits.modulus && SenderOk(limits, snd, queued, a, s)
    ensures var snd' := AfterDrain(limits, snd, nr, resent, quiet).0;
            Leading(snd'.buffer) == Leading(snd.buffer) + FirstTime(limits, snd) &&
            (Leading(snd'.buffer) <= limits.maxFrames <==> KeepsWindow(limits, snd))
  {
    LeadingIs(limits, snd, queued, a, s);
    if !snd.remoteBusy {
      var from := CountFrom(snd);
      DrainFrom(limits, snd.buffer, queued, a, s, snd.sendSeq, from, snd.remoteSeq, nr, resent);
      var d := DrainLoop(limits, snd.buffer, snd.sendSeq, from, snd.remoteSeq, nr, resent);
      DrainedPackets(limits, snd.buffer, d, queued, a, s, FirstTime(limits, snd), nr, resent);
      LeadingAt(limits, d.buffer, queued, a, s + FirstTime(limits, snd));
    }
  }

  /** It always did if the drain is not steered by the number of a REJ. */
  lemma UnsteeredKeepsWindow(limits: Limits, snd: Sender, queued: seq<Data>, a: nat, s: nat)
    requires limits.Ok() && limits.maxFrames < limits.modulus && SenderOk(limits, snd, queued, a, s)
    requires snd.gotRej <= 0
    ensures KeepsWindow(limits, snd)
  {
    LeadingIs(limits, snd, queued, a, s);
    DistanceAhead(s, a, limits.modulus);
  }

  /** Three of six packets have gone out. */
  lemma ThreeOut(sys: System) returns (moves: seq<Move>, sys': System)
    requires sys == Start()
    ensures RunOk(Limits(3, 8), sys, moves) && sys' == Run(Limits(3, 8), sys, moves)
    ensures sys'.b == Connected() && sys'.ba == [] && |sys'.a.queued| == |sys'.a.snd.buffer| == 6 && Leading(sys'.a.snd.buffer) == 3
    ensures sys'.a.snd.gotRej == -1 && sys'.a.snd.remoteSeq == 0 && !sys'.a.snd.remoteBusy && sys'.a.delivered == []
    ensures sys'.ab != [] && sys'.ab[0].frame == Info(0, 0, [0], false)
  {
    var limits, info: Data := Limits(3, 8), [0, 0, 0, 0, 0, 0];
    var submit, drain := Move(false, Submit(info, 1)), Move(false, Drains(false, true));
    OneByOne(info);
    var mid := Step(limits, sys, submit);
    assert mid.a.snd.buffer[0] == Packet([0], 0, 0, false);
    StartInv(limits);
    StepInv(limits, sys, submit);
    DrainedWindow(limits, mid.a.snd, mid.a.queued, 0, 0, 0, false, true);
    RunTwo(limits, sys, submit, drain);
    moves := [submit, drain];
    sys' := Step(limits, mid, drain);
  }

  /** The first arrives, and the second is asked for again. */
  lemma AskedAgain(sys: System) returns (moves: seq<Move>, sys': System)
    requires Inv(Limits(3, 8), sys) && sys.b == Connected() && sys.ba == []
    requires |sys.a.queued| == |sys.a.snd.buffer| == 6 && Leading(sys.a.snd.buffer) == 3
    requires sys.a.snd.gotRej == -1 && sys.a.snd.remoteSeq == 0 && !sys.a.snd.remoteBusy && sys.a.delivered == []
    requires sys.ab != [] && sys.ab[0].frame == Info(0, 0, [0], false)
    ensures RunOk(Limits(3, 8), sys, moves) && sys' == Run(Limits(3, 8), sys, moves)
    ensures var snd := sys'.a.snd;
            snd.gotRej == 1 && snd.remoteSeq == 1 && !snd.remoteBusy && |snd.buffer| == 5 && Leading(snd.buffer) == 2
  {
    var limits := Limits(3, 8);
    var arrive, reject, take := Move(true, Take(0)), Move(true, Reply(REJ)), Move(false, Take(0));
    var s1 := Step(limits, sys, arrive);
    assert s1.b.rcv.recvSeq == 1 && s1.a == sys.a;
    var s2 := Step(limits, s1, reject);
    assert s2.a == sys.a && s2.ba[0].frame == Supervisory(REJ, 1);
    UnackedIs(limits, sys.a.snd.buffer, sys.a.queued, 0, 3, 1);
    sys' := Step(limits, s2, take);
    assert sys'.a.snd.buffer == sys.a.snd.buffer[1..];
    moves := [arrive, reject, take];
    assert moves[1..] == [reject, take];
    RunTwo(limits, s1, reject, take);
  }

  /** A steered one need not. A run leads there: a station that has a window of three and two packets
      outstanding, has been asked for the first of them again and has three more to send has five
      outstanding after its next drain. */
  lemma SteeredRun() returns (moves: seq<Move>)
    ensures var limits := Limits(3, 8);
            RunOk(limits, Start(), moves) &&
            var snd := Run(limits, Start(), moves).a.snd;
            Leading(snd.buffer) == 2 && !KeepsWindow(limits, snd) && Leading(AfterDrain(limits, snd, 0, false, true).0.buffer) == 5
  {
    var limits := Limits(3, 8);
    var first, s1 := ThreeOut(Start());
    StartInv(limits);
    RunInv(limits, Start(), first);
    var second, s2 := AskedAgain(s1);
    RunInv(limits, s1, second);
    moves := Then(limits, Start(), first, s1, second, s2);
    DrainedWindow(limits, s2.a.snd, s2.a.queued, AckedSoFar(s2.a), SentSoFar(s2.a), 0, false, true);
  }

  // ----- two stations of this kind never steer each other

  ghost predicate NoRej(f: Frame) {
    match f case Info(_, _, _, poll) => !poll case Supervisory(kind, _) => kind != REJ
  }

  /** No REJ has been seen, and none is under way. */
  ghost predicate Unsteered(sys: System) {
    sys.a.snd.gotRej == -1 && sys.b.snd.gotRej == -1 &&
    (forall k | 0 <= k < |sys.ab| :: NoRej(sys.ab[k].frame)) && (forall k | 0 <= k < |sys.ba| :: NoRej(sys.ba[k].frame))
  }

  lemma {:induction false} DrainNoRej(limits: Limits, buffer: seq<Packet>, sendSeq: nat, seqNum: nat, remoteSeq: nat,
                                      nr: nat, resent: bool)
    requires limits.Ok()
    ensures forall f | f in DrainLoop(limits, buffer, sendSeq, seqNum, remoteSeq, nr, resent).out :: NoRej(f)
  {
    if buffer != [] {
      DrainNoRej(limits, buffer[1..], sendSeq, seqNum, remoteSeq, nr, resent);
      DrainNoRej(limits, buffer[1..], limits.Next(sendSeq), limits.Next(seqNum), remoteSeq, nr, resent);
    }
  }

  /** No station asks for a REJ to be sent, and every drain keeps to the window. */
  lemma NoneSteered(limits: Limits, sys: System, now: int)
    requires Inv(limits, sys) && Unsteered(sys)
    ensures KeepsWindow(limits, sys.a.snd)
    ensures sys.ba != [] && sys.ba[0].frame.Info? ==>
              var f := sys.ba[0].frame;
              !ReceiveInfo(limits, sys.a.rcv, f.ns, f.data, f.poll, now).reject
  {
    UnsteeredKeepsWindow(limits, sys.a.snd, sys.a.queued, AckedSoFar(sys.a), SentSoFar(sys.a));
    if sys.ba != [] { assert NoRej(sys.ba[0].frame); }
  }

  lemma StaysUnsteered(limits: Limits, sys: System, act: Action)
    requires limits.Ok() && Unsteered(sys) && Possible(limits, sys, act) && act != Reply(REJ)
    ensures Unsteered(Apply(limits, sys, act))
  {
    var sys' := Apply(limits, sys, act);
    var snd := sys.a.snd;
    DrainNoRej(limits, snd.buffer, snd.sendSeq, CountFrom(snd), snd.remoteSeq, sys.a.rcv.recvSeq,
               act.Drains? && act.resent);
    if act.Take? { assert NoRej(sys.ba[0].frame); }
    forall k: nat | k < |sys'.ab| ensures NoRej(sys'.ab[k].frame) {
      if k >= |sys.ab| && act.Drains? {
        var out := AfterDrain(limits, snd, sys.a.rcv.recvSeq, act.resent, act.quiet).1;
        assert sys'.ab[k].frame == out[k - |sys.ab|];
        assert out[k - |sys.ab|] in out;
      }
    }
  }

  /** What can happen at a station, whatever its window. */
  predicate Feasible(sys: System, act: Action) {
    match act
    case Submit(_, packetLength) => packetLength > 0
    case Drains(_, _) => true
    case Reply(kind) => kind != REJ
    case Take(_) => sys.ba != []
    case Lose(k) => k < |sys.ab|
  }

  /** A run in which no REJ is sent; nothing is asked of its drains. */
  predicate Plain(limits: Limits, sys: System, moves: seq<Move>)
    requires limits.Ok()
    decreases |moves|
  {
    moves == [] ||
    (Feasible(if moves[0].atB then sys.Mirror() else sys, moves[0].act) &&
     (Allowed(limits, sys, moves[0]) ==> Plain(limits, Step(limits, sys, moves[0]), moves[1..])))
  }

  lemma PlainAllowed(limits: Limits, sys: System, move: Move)
    requires limits.Ok() && Inv(limits, sys) && Unsteered(sys)
    requires Feasible(if move.atB then sys.Mirror() else sys, move.act)
    ensures Allowed(limits, sys, move) && Unsteered(Step(limits, sys, move))
  {
    var here := if move.atB then sys.Mirror() else sys;
    NoneSteered(limits, here, 0);
    StaysUnsteered(limits, here, move.act);
  }

  lemma {:induction false} PlainOk(limits: Limits, sys: System, moves: seq<Move>)
    requires limits.Ok() && Inv(limits, sys) && Unsteered(sys) && Plain(limits, sys, moves)
    ensures RunOk(limits, sys, moves)
    decreases |moves|
  {
    if moves != [] {
      PlainAllowed(limits, sys, moves[0]);
      StepInv(limits, sys, moves[0]);
      PlainOk(limits, Step(limits, sys, moves[0]), moves[1..]);
    }
  }

  /** Every run in which no REJ is sent keeps the window by itself, and is safe. */
  lemma PlainSafe(limits: Limits, moves: seq<Move>)
    requires limits.Ok() && 2 * limits.maxFrames < limits.modulus && Plain(limits, Start(), moves)
    ensures RunOk(limits, Start(), moves)
    ensures var sys := Run(limits, Start(), moves); Safe(limits, sys.a, sys.b) && Safe(limits, sys.b, sys.a)
  {
    StartInv(limits);
    PlainOk(limits, Start(), moves);
    RunSafe(limits, moves);
  }

  // ----- too large a window

  lemma {:induction false} RunConcat(limits: Limits, sys: System, first: seq<Move>, second: seq<Move>)
    requires limits.Ok() && RunOk(limits, sys, first) && RunOk(limits, Run(limits, sys, first), second)
    ensures RunOk(limits, sys, first + second)
    ensures Run(limits, sys, first + second) == Run(limits, Run(limits, sys, first), second)
    decreases |first|
  {
    if first == [] {
      assert first + second == second;
    } else {
      assert (first + second)[1..] == first[1..] + second;
      RunConcat(limits, Step(limits, sys, first[0]), first[1..], second);
    }
  }

  lemma RunOne(limits: Limits, sys: System, move: Move)
    requires limits.Ok() && Allowed(limits, sys, move)
    ensures RunOk(limits, sys, [move]) && Run(limits, sys, [move]) == Step(limits, sys, move)
  {
    assert [move][1..] == [];
  }

  /** Station a was given n packets, and has sent those below k, of which the ones below base are
      acknowledged; b, which was given nothing, has received packets below r. */
  ghost predicate Served(limits: Limits, sys: System, n: nat, base: nat, k: nat, r: nat, held: map<nat, Entry>)
    requires limits.Ok()
  {
    match sys case System(a, b, ab, ba) =>
      ba == [] && a.queued == seq(n, _ => [0]) && SenderOk(limits, a.snd, a.queued, base, k) &&
      !a.snd.remoteBusy && a.snd.gotRej == -1 && a.rcv == Receiver(0, false, map[]) && a.delivered == [] &&
      b.snd == Sender(0, 0, false, -1, []) && b.queued == [] &&
      b.rcv.recvSeq == Number(r, limits.modulus) && b.rcv.held == held && |b.delivered| == r
  }

  lemma GiveOne(limits: Limits, sys: System, base: nat, k: nat, held: map<nat, Entry>) returns (sys': System)
    requires limits.Ok() && Served(limits, sys, k, base, k, k, held) && sys.ab == []
    ensures Allowed(limits, sys, Move(false, Submit([0], 1)))
    ensures sys' == Step(limits, sys, Move(false, Submit([0], 1)))
    ensures Served(limits, sys', k + 1, base, k, k, held) && sys'.ab == []
  {
    sys' := Step(limits, sys, Move(false, Submit([0], 1)));
    assert Chunks([0], 1) == [[0]];
    var buffer, queued := sys'.a.snd.buffer, sys'.a.queued;
    forall i: nat | i < |buffer| ensures PacketOk(limits, buffer[i], queued, base + i, k) {
      if i < |sys.a.snd.buffer| { assert PacketOk(limits, sys.a.snd.buffer[i], sys.a.queued, base + i, k); }
    }
  }

  /** A drain that has one packet to send. */
  lemma DrainsOne(limits: Limits, snd: Sender, queued: seq<Data>, base: nat, k: nat)
    requires limits.Ok() && limits.maxFrames < limits.modulus && k < base + limits.maxFrames
    requires SenderOk(limits, snd, queued, base, k) && !snd.remoteBusy && snd.gotRej == -1 && queued == seq(k + 1, _ => [0])
    ensures KeepsWindow(limits, snd)
    ensures var (snd', frames) := AfterDrain(limits, snd, 0, false, true);
            SenderOk(limits, snd', queued, base, k + 1) && !snd'.remoteBusy && snd'.gotRej == -1 &&
            frames == [Info(Number(k, limits.modulus), 0, [0], false)]
  {
    OneFirst(limits, snd, queued, base, k);
    DrainSender(limits, snd, queued, base, k, 0, false, true);
    SendsOne(limits, snd, queued, base, k);
  }

  lemma OneFirst(limits: Limits, snd: Sender, queued: seq<Data>, base: nat, k: nat)
    requires limits.Ok() && limits.maxFrames < limits.modulus && k < base + limits.maxFrames
    requires SenderOk(limits, snd, queued, base, k) && !snd.remoteBusy && snd.gotRej == -1 && |queued| == k + 1
    ensures KeepsWindow(limits, snd) && FirstTime(limits, snd) == 1 && |snd.buffer| == k + 1 - base
    ensures Room(limits, snd.sendSeq, snd.remoteSeq) > 0
  {
    UnsteeredKeepsWindow(limits, snd, queued, base, k);
    LeadingIs(limits, snd, queued, base, k);
    DistanceAhead(k, base, limits.modulus);
  }

  lemma SendsOne(limits: Limits, snd: Sender, queued: seq<Data>, base: nat, k: nat)
    requires limits.Ok() && limits.maxFrames < limits.modulus && |snd.buffer| == k + 1 - base
    requires SenderOk(limits, snd, queued, base, k) && !snd.remoteBusy && snd.gotRej == -1 && queued == seq(k + 1, _ => [0])
    requires Room(limits, snd.sendSeq, snd.remoteSeq) > 0
    ensures AfterDrain(limits, snd, 0, false, true).1 == [Info(Number(k, limits.modulus), 0, [0], false)]
  {
    DrainFrom(limits, snd.buffer, queued, base, k, snd.sendSeq, snd.sendSeq, snd.remoteSeq, 0, false);
    assert PacketOk(limits, snd.buffer[k - base], queued, base + (k - base), k);
  }

  lemma SendOne(limits: Limits, sys: System, base: nat, k: nat, held: map<nat, Entry>) returns (sys': System)
    requires limits.Ok() && limits.maxFrames < limits.modulus && k < base + limits.maxFrames
    requires Served(limits, sys, k + 1, base, k, k, held) && sys.ab == []
    ensures Allowed(limits, sys, Move(false, Drains(false, true)))
    ensures sys' == Step(limits, sys, Move(false, Drains(false, true)))
    ensures Served(limits, sys', k + 1, base, k + 1, k, held)
    ensures |sys'.ab| == 1 && sys'.ab[0].frame == Info(Number(k, limits.modulus), 0, [0], false)
  {
    DrainsOne(limits, sys.a.snd, sys.a.queued, base, k);
    sys' := Step(limits, sys, Move(false, Drains(false, true)));
  }

  /** The packet b expects arrives, and releases what is held in its place. */
  lemma ReceiveNext(limits: Limits, sys: System, base: nat, k: nat, held: map<nat, Entry>) returns (sys': System)
    requires limits.Ok() && Served(limits, sys, k + 1, base, k + 1, k, held)
    requires |sys.ab| == 1 && sys.ab[0].frame == Info(Number(k, limits.modulus), 0, [0], false)
    ensures Allowed(limits, sys, Move(true, Take(0))) && sys' == Step(limits, sys, Move(true, Take(0)))
    ensures sys'.ab == [] && sys'.a == sys.a
    ensures Number(k + 1, limits.modulus) !in held ==> Served(limits, sys', k + 1, base, k + 1, k + 1, held)
    ensures Number(k + 1, limits.modulus) in held && held[Number(k + 1, limits.modulus)].data != [] ==>
              |sys'.b.delivered| > k + 1
  {
    NextNumber(limits, k);
    sys' := Step(limits, sys, Move(true, Take(0)));
  }

  /** One more packet makes its way, or, if one is held under the number after it, one too many. */
  lemma Round(limits: Limits, sys: System, base: nat, k: nat, held: map<nat, Entry>)
    returns (moves: seq<Move>, sys': System)
    requires limits.Ok() && limits.maxFrames < limits.modulus && k < base + limits.maxFrames
    requires Served(limits, sys, k, base, k, k, held) && sys.ab == []
    ensures RunOk(limits, sys, moves) && sys' == Run(limits, sys, moves) && sys'.ab == []
    ensures Number(k + 1, limits.modulus) !in held ==> Served(limits, sys', k + 1, base, k + 1, k + 1, held)
    ensures Number(k + 1, limits.modulus) in held && held[Number(k + 1, limits.modulus)].data != [] ==>
              |sys'.b.delivered| > |sys'.a.queued|
  {
    var give, send, take := Move(false, Submit([0], 1)), Move(false, Drains(false, true)), Move(true, Take(0));
    var given := GiveOne(limits, sys, base, k, held);
    var sent := SendOne(limits, given, base, k, held);
    sys' := ReceiveNext(limits, sent, base, k, held);
    RunTwo(limits, sys, give, send);
    RunOne(limits, sent, take);
    RunConcat(limits, sys, [give, send], [take]);
    moves := [give, send] + [take];
  }

  lemma RunTwo(limits: Limits, sys: System, first: Move, second: Move)
    requires limits.Ok() && Allowed(limits, sys, first) && Allowed(limits, Step(limits, sys, first), second)
    ensures RunOk(limits, sys, [first, second])
    ensures Run(limits, sys, [first, second]) == Step(limits, Step(limits, sys, first), second)
  {
    RunOne(limits, Step(limits, sys, first), second);
    assert [first, second][1..] == [second];
  }

  lemma NumberIs(k: nat, m: nat)
    requires 0 < m && k <= m
    ensures Number(k, m) == if k == m then 0 else k
  {
  }

  lemma {:induction false} Rounds(limits: Limits, sys: System, base: nat, k: nat, n: nat, held: map<nat, Entry>)
    returns (moves: seq<Move>, sys': System)
    requires limits.Ok() && limits.maxFrames < limits.modulus && k + n <= base + limits.maxFrames
    requires k + n < limits.modulus && forall j | j in held :: j <= k
    requires Served(limits, sys, k, base, k, k, held) && sys.ab == []
    ensures RunOk(limits, sys, moves) && sys' == Run(limits, sys, moves)
    ensures Served(limits, sys', k + n, base, k + n, k + n, held) && sys'.ab == []
    decreases n
  {
    if n == 0 {
      moves, sys' := [], sys;
    } else {
      NumberIs(k + 1, limits.modulus);
      var first, mid := Round(limits, sys, base, k, held);
      var rest;
      rest, sys' := Rounds(limits, mid, base, k + 1, n - 1, held);
      RunConcat(limits, sys, first, rest);
      moves := first + rest;
    }
  }

  lemma {:induction false} LoseAll(limits: Limits, sys: System) returns (moves: seq<Move>)
    requires limits.Ok()
    ensures RunOk(limits, sys, moves) && Run(limits, sys, moves) == sys.(ab := [])
    decreases |sys.ab|
  {
    if sys.ab == [] {
      moves := [];
    } else {
      var lose := Move(false, Lose(0));
      RunOne(limits, sys, lose);
      var rest := LoseAll(limits, Step(limits, sys, lose));
      RunConcat(limits, sys, [lose], rest);
      moves := [lose] + rest;
    }
  }

  /** All k packets go out again. */
  lemma SendAgain(limits: Limits, sys: System, k: nat) returns (sys': System)
    requires limits.Ok() && limits.maxFrames < limits.modulus && 0 < k <= limits.maxFrames
    requires Served(limits, sys, k, 0, k, k, map[]) && sys.ab == []
    ensures Allowed(limits, sys, Move(false, Drains(true, true)))
    ensures sys' == Step(limits, sys, Move(false, Drains(true, true)))
    ensures Served(limits, sys', k, 0, k, k, map[])
    ensures sys'.ab != [] && sys'.ab[0].frame == Info(0, 0, [0], false)
  {
    var snd, queued := sys.a.snd, sys.a.queued;
    UnsteeredKeepsWindow(limits, snd, queued, 0, k);
    LeadingIs(limits, snd, queued, 0, k);
    DistanceAhead(k, 0, limits.modulus);
    DrainFrom(limits, snd.buffer, queued, 0, k, snd.sendSeq, snd.sendSeq, snd.remoteSeq, 0, true);
    DrainSender(limits, snd, queued, 0, k, 0, true, true);
    assert PacketOk(limits, snd.buffer[0], queued, 0 + 0, k);
    sys' := Step(limits, sys, Move(false, Drains(true, true)));
  }

  /** Packet 0 arrives again, as far behind as packet M is ahead: it is held as that. */
  lemma HeldAgain(limits: Limits, sys: System, k: nat) returns (sys': System)
    requires limits.Ok() && limits.maxFrames < limits.modulus == k + limits.maxFrames && 0 < k <= limits.maxFrames
    requires Served(limits, sys, k, 0, k, k, map[])
    requires sys.ab != [] && sys.ab[0].frame == Info(0, 0, [0], false)
    ensures Allowed(limits, sys, Move(true, Take(0))) && sys' == Step(limits, sys, Move(true, Take(0)))
    ensures Served(limits, sys', k, 0, k, k, map[0 := Entry([0], 0)])
  {
    NumberIs(k, limits.modulus);
    sys' := Step(limits, sys, Move(true, Take(0)));
    var all := map[0 := Entry([0], 0)];
    assert Stored(map[], 0, [0], 0) == all;
  }

  /** b acknowledges everything. */
  lemma AcknowledgeAll(limits: Limits, sys: System, k: nat, held: map<nat, Entry>) returns (moves: seq<Move>, sys': System)
    requires limits.Ok() && limits.maxFrames < limits.modulus
    requires Served(limits, sys, k, 0, k, k, held) && sys.ab == []
    ensures RunOk(limits, sys, moves) && sys' == Run(limits, sys, moves)
    ensures Served(limits, sys', k, k, k, k, held) && sys'.ab == []
  {
    var reply, take := Move(true, Reply(RR)), Move(false, Take(0));
    AcknowledgedOk(limits, sys.a.snd, sys.a.queued, 0, k, k);
    var mid := Step(limits, sys, reply);
    assert mid.a == sys.a && mid.ab == [] && |mid.ba| == 1;
    moves := [reply, take];
    RunTwo(limits, sys, reply, take);
    sys' := Step(limits, mid, take);
  }

  /** After the first M - W packets, packet 0 is held in the place of packet M. */
  lemma HeldStale(limits: Limits) returns (moves: seq<Move>, sys: System)
    requires 0 < limits.maxFrames < limits.modulus <= 2 * limits.maxFrames
    ensures RunOk(limits, Start(), moves) && sys == Run(limits, Start(), moves) && sys.ab == []
    ensures var k := limits.modulus - limits.maxFrames; Served(limits, sys, k, 0, k, k, map[0 := Entry([0], 0)])
  {
    var again, take := Move(false, Drains(true, true)), Move(true, Take(0));
    var k := limits.modulus - limits.maxFrames;
    var sys1, sys2;
    moves, sys1 := Rounds(limits, Start(), 0, 0, k, map[]);
    sys2 := SendAgain(limits, sys1, k);
    sys2 := HeldAgain(limits, sys2, k);
    RunTwo(limits, sys1, again, take);
    moves := Then(limits, Start(), moves, sys1, [again, take], sys2);
    var losses := LoseAll(limits, sys2);
    sys := sys2.(ab := []);
    moves := Then(limits, Start(), moves, sys2, losses, sys);
  }

  /** The run that ends with one packet too many. */
  lemma TooLarge(limits: Limits) returns (moves: seq<Move>)
    requires 0 < limits.maxFrames < limits.modulus <= 2 * limits.maxFrames
    ensures RunOk(limits, Start(), moves)
    ensures var sys := Run(limits, Start(), moves); |sys.b.delivered| > |sys.a.queued|
  {
    var k, held := limits.modulus - limits.maxFrames, map[0 := Entry([0], 0)];
    var sys1;
    moves, sys1 := HeldStale(limits);
    var more, sys2 := AcknowledgeAll(limits, sys1, k, held);
    moves := Then(limits, Start(), moves, sys1, more, sys2);
    more, sys1 := Rounds(limits, sys2, k, k, limits.maxFrames - 1, held);
    moves := Then(limits, Start(), moves, sys2, more, sys1);
    NumberIs(limits.modulus, limits.modulus);
    more, sys2 := Round(limits, sys1, k, limits.modulus - 1, held);
    moves := Then(limits, Start(), moves, sys1, more, sys2);
  }

  lemma Then(limits: Limits, s0: System, first: seq<Move>, s1: System, second: seq<Move>, s2: System)
    returns (moves: seq<Move>)
    requires limits.Ok() && RunOk(limits, s0, first) && s1 == Run(limits, s0, first)
    requires RunOk(limits, s1, second) && s2 == Run(limits, s1, second)
    ensures RunOk(limits, s0, moves) && s2 == Run(limits, s0, moves)
  {
    RunConcat(limits, s0, first, second);
    moves := first + second;
  }

  ghost predicate AlwaysSafe(limits: Limits)
    requires limits.Ok()
  {
    forall moves | RunOk(limits, Start(), moves) ::
      var sys := Run(limits, Start(), moves);
      Safe(limits, sys.a, sys.b) && Safe(limits, sys.b, sys.a)
  }

  lemma {:induction false} OneByOne(info: Data)
    ensures |Chunks(info, 1)| == |info|
    decreases |info|
  {
    if info != [] { OneByOne(info[1..]); }
  }

  /** With a window of a modulus or more a drain sends whatever there is. */
  lemma {:induction false} AllSent(limits: Limits, buffer: seq<Packet>, sendSeq: nat, seqNum: nat, remoteSeq: nat, nr: nat,
                                   resent: bool)
    requires 0 < limits.modulus <= limits.maxFrames && seqNum < limits.modulus && remoteSeq < limits.modulus
    ensures Leading(DrainLoop(limits, buffer, sendSeq, seqNum, remoteSeq, nr, resent).buffer) == |buffer|
    decreases |buffer|
  {
    if buffer != [] {
      var d := DrainLoop(limits, buffer, sendSeq, seqNum, remoteSeq, nr, resent);
      var sent := if buffer[0].sent then sendSeq else limits.Next(sendSeq);
      var counted := if buffer[0].sent then seqNum else limits.Next(seqNum);
      AllSent(limits, buffer[1..], sent, counted, remoteSeq, nr, resent);
      assert d.buffer[0].sent && d.buffer[1..] == DrainLoop(limits, buffer[1..], sent, counted, remoteSeq, nr, resent).buffer;
    }
  }

  /** So one drain can leave more than maxFrames packets outstanding. */
  lemma FarTooLarge(limits: Limits) returns (moves: seq<Move>)
    requires 0 < limits.modulus <= limits.maxFrames
    ensures RunOk(limits, Start(), moves)
    ensures Leading(Run(limits, Start(), moves).a.snd.buffer) > limits.maxFrames
  {
    var info: Data := seq(limits.maxFrames + 1, _ => 0);
    var submit, drain := Move(false, Submit(info, 1)), Move(false, Drains(false, true));
    OneByOne(info);
    var sys := Step(limits, Start(), submit);
    var snd := sys.a.snd;
    AllSent(limits, snd.buffer, snd.sendSeq, CountFrom(snd), snd.remoteSeq, 0, false);
    moves := [submit, drain];
    RunTwo(limits, Start(), submit, drain);
  }

  /** All runs are safe if and only if twice the window is less than the modulus; so they are not for
      a window of 4 and a modulus of 8. */
  lemma WindowCondition(limits: Limits)
    requires limits.Ok()
    ensures AlwaysSafe(limits) <==> 2 * limits.maxFrames < limits.modulus
  {
    if 2 * limits.maxFrames < limits.modulus {
      forall moves | RunOk(limits, Start(), moves)
        ensures var sys := Run(limits, Start(), moves); Safe(limits, sys.a, sys.b) && Safe(limits, sys.b, sys.a)
      {
        RunSafe(limits, moves);
      }
    } else if limits.maxFrames < limits.modulus {
      var moves := TooLarge(limits);
      var sys := Run(limits, Start(), moves);
      assert !(sys.b.delivered <= sys.a.queued);
    } else {
      var moves := FarTooLarge(limits);
      assert !Safe(limits, Run(limits, Start(), moves).a, Run(limits, Start(), moves).b);
    }
  }
}
