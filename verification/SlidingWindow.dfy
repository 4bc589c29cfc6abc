/** Two AX.25 sessions joined by two lossy first-in-first-out links, within one connection. */
module SlidingWindow {
  import opened Ax25Session

  // ----- sequence numbers

  /** The sequence number of packet k of a connection: k modulo m. */
  function Number(k: nat, m: nat): (n: nat)
    requires m > 0
    ensures n < m
  {
    if k < m then k else Number(k - m, m)
  }

  lemma {:induction false} NextNumber(limits: Limits, k: nat)
    requires limits.Ok()
    ensures limits.Next(Number(k, limits.modulus)) == Number(k + 1, limits.modulus)
  {
    if k >= limits.modulus { NextNumber(limits, k - limits.modulus); }
  }

  /** The distance of two sequence numbers is that of the packets they stand for. */
  lemma {:induction false} DistanceAhead(x: nat, y: nat, m: nat)
    requires y <= x < y + m
    ensures Distance(Number(x, m), Number(y, m), m) == x - y
  {
    if y >= m { DistanceAhead(x - m, y - m, m); }
  }

  lemma {:induction false} DistanceBehind(x: nat, y: nat, m: nat)
    requires x < y < x + m
    ensures Distance(Number(x, m), Number(y, m), m) == m - (y - x)
  {
    if x >= m { DistanceBehind(x - m, y - m, m); }
  }

  // ----- one direction of the connection

  /** A frame on a link. Besides the frame itself it records, for the statement of the invariant
      only, which packet an I-frame carries, how many packets had been sent when the frame was,
      and which packet its N(R) stands for. */
  datatype Flight = Flight(frame: Frame, index: nat, top: nat, ack: nat)

  /** The direction from a sender to a receiver: `queued` is all data ever given to the sender,
      `delivered` all data the receiver has passed on. */
  datatype Way = Way(snd: Sender, rcv: Receiver, fwd: seq<Flight>, back: seq<Flight>,
                     queued: seq<Data>, delivered: seq<Data>)

  /** The number of packets at the front of the buffer that have been sent. */
  function Leading(buffer: seq<Packet>): (n: nat)
    ensures n <= |buffer|
  {
    if buffer == [] || !buffer[0].sent then 0 else 1 + Leading(buffer[1..])
  }

  /** The send buffer holds what was queued from packet a on; of it, exactly the packets below s have
      been sent, under consecutive numbers, and there are at most maxFrames of them. */
  ghost predicate SenderOk(limits: Limits, snd: Sender, queued: seq<Data>, a: nat, s: nat)
    requires limits.Ok()
  {
    var m := limits.modulus;
    a <= s <= a + limits.maxFrames && s <= |queued| == a + |snd.buffer| &&
    snd.sendSeq == Number(s, m) && snd.remoteSeq == Number(a, m) && -1 <= snd.gotRej < m &&
    (forall k: nat | k < |snd.buffer| :: PacketOk(limits, snd.buffer[k], queued, a + k, s))
  }

  ghost predicate PacketOk(limits: Limits, p: Packet, queued: seq<Data>, i: nat, s: nat)
    requires limits.Ok()
  {
    i < |queued| && p.data == queued[i] && (p.sent <==> i < s) && (p.sent ==> p.ns == Number(i, limits.modulus))
  }

  /** The receiver expects packet r, and holds packets above r and below `limit`, each under its
      number: a key's distance from the number expected tells which packet it is. */
  ghost predicate ReceiverOk(limits: Limits, rcv: Receiver, queued: seq<Data>, r: nat, limit: nat)
    requires limits.Ok()
  {
    rcv.recvSeq == Number(r, limits.modulus) && HeldOk(limits, rcv.held, rcv.recvSeq, queued, r, limit, 1)
  }

  ghost predicate HeldOk(limits: Limits, held: map<nat, Entry>, recvSeq: nat, queued: seq<Data>, r: nat, limit: nat,
                         low: nat)
    requires limits.Ok()
  {
    r <= limit <= |queued| &&
    forall key | key in held ::
      var d := Distance(key, recvSeq, limits.modulus);
      key < limits.modulus && low <= d < limit - r && held[key].data == queued[r + d]
  }

  /** An I-frame in flight carries a packet that was in the window when it was sent. */
  ghost predicate FlightOk(limits: Limits, f: Flight, queued: seq<Data>, s: nat)
    requires limits.Ok()
  {
    f.top <= s <= |queued| &&
    (f.frame.Info? ==>
       f.index < f.top <= f.index + limits.maxFrames &&
       f.frame.ns == Number(f.index, limits.modulus) && f.frame.data == queued[f.index])
  }

  ghost predicate ForwardOk(limits: Limits, fwd: seq<Flight>, queued: seq<Data>, s: nat)
    requires limits.Ok()
  {
    (forall k | 0 <= k < |fwd| :: FlightOk(limits, fwd[k], queued, s)) &&
    (forall j, k | 0 <= j < k < |fwd| :: fwd[j].top <= fwd[k].top)
  }

  /** Frames arrive in the order sent: what the receiver has was sent by the time the next frame on
      the link was. */
  function Horizon(fwd: seq<Flight>, s: nat): nat {
    if fwd == [] then s else fwd[0].top
  }

  /** The acknowledgements in flight name packets that have been received, in order. */
  ghost predicate BackOk(limits: Limits, back: seq<Flight>, a: nat, r: nat)
    requires limits.Ok()
  {
    (forall k | 0 <= k < |back| :: a <= back[k].ack <= r && back[k].frame.nr == Number(back[k].ack, limits.modulus)) &&
    (forall j, k | 0 <= j < k < |back| :: back[j].ack <= back[k].ack)
  }

  ghost predicate WayOk(limits: Limits, w: Way, a: nat, s: nat, r: nat) {
    limits.Ok() && 2 * limits.maxFrames < limits.modulus && a <= r <= |w.queued| &&
    SenderOk(limits, w.snd, w.queued, a, s) && ForwardOk(limits, w.fwd, w.queued, s) &&
    ReceiverOk(limits, w.rcv, w.queued, r, Horizon(w.fwd, s)) && BackOk(limits, w.back, a, r) &&
    w.delivered == w.queued[..r] && (forall k | 0 <= k < |w.queued| :: w.queued[k] != [])
  }

  // ----- sending

  lemma LeadingIs(limits: Limits, snd: Sender, queued: seq<Data>, a: nat, s: nat)
    requires limits.Ok() && SenderOk(limits, snd, queued, a, s)
    ensures Leading(snd.buffer) == s - a
  {
    LeadingAt(limits, snd.buffer, queued, a, s);
  }

  lemma TailOk(limits: Limits, buffer: seq<Packet>, queued: seq<Data>, a: nat, s: nat)
    requires limits.Ok() && buffer != []
    requires forall k: nat | k < |buffer| :: PacketOk(limits, buffer[k], queued, a + k, s)
    ensures forall k: nat | k < |buffer[1..]| :: PacketOk(limits, buffer[1..][k], queued, a + 1 + k, s)
  {
    forall k: nat | k < |buffer[1..]| ensures PacketOk(limits, buffer[1..][k], queued, a + 1 + k, s) {
      assert PacketOk(limits, buffer[k + 1], queued, a + (k + 1), s);
    }
  }

  lemma {:induction false} LeadingAt(limits: Limits, buffer: seq<Packet>, queued: seq<Data>, a: nat, s: nat)
    requires limits.Ok() && a <= s <= a + |buffer|
    requires forall k: nat | k < |buffer| :: PacketOk(limits, buffer[k], queued, a + k, s)
    ensures Leading(buffer) == s - a
  {
    if buffer != [] {
      assert PacketOk(limits, buffer[0], queued, a + 0, s);
      if a < s {
        TailOk(limits, buffer, queued, a, s);
        LeadingAt(limits, buffer[1..], queued, a + 1, s);
      }
    }
  }

  lemma SubmitOk(limits: Limits, w: Way, a: nat, s: nat, r: nat, chunks: seq<Data>)
    requires WayOk(limits, w, a, s, r) && forall k | 0 <= k < |chunks| :: chunks[k] != []
    ensures var w' := w.(snd := w.snd.(buffer := w.snd.buffer + Packets(chunks)), queued := w.queued + chunks);
            WayOk(limits, w', a, s, r)
  {
    var w' := w.(snd := w.snd.(buffer := w.snd.buffer + Packets(chunks)), queued := w.queued + chunks);
    forall k: nat | k < |w'.snd.buffer| ensures PacketOk(limits, w'.snd.buffer[k], w'.queued, a + k, s) {
      if k < |w.snd.buffer| { assert PacketOk(limits, w.snd.buffer[k], w.queued, a + k, s); }
    }
    forall k | 0 <= k < |w.fwd| ensures FlightOk(limits, w.fwd[k], w'.queued, s) {
      assert FlightOk(limits, w.fwd[k], w.queued, s);
    }
  }

  // ----- draining

  /** How many packets more the drain may send when it counts the window from seqNum. */
  function Room(limits: Limits, seqNum: nat, remoteSeq: nat): (n: nat) {
    var d := Distance(seqNum, remoteSeq, limits.modulus);
    if 0 <= d < limits.maxFrames then limits.maxFrames - d else 0
  }

  lemma RoomNext(limits: Limits, seqNum: nat, remoteSeq: nat)
    requires limits.Ok() && limits.maxFrames < limits.modulus
    requires seqNum < limits.modulus && remoteSeq < limits.modulus && Room(limits, seqNum, remoteSeq) > 0
    ensures Room(limits, limits.Next(seqNum), remoteSeq) == Room(limits, seqNum, remoteSeq) - 1
  {
  }

  /** A packet as it is when it has been sent, or sent again, as packet i. */
  function Stamped(limits: Limits, data: Data, i: nat, nr: nat): Packet
    requires limits.Ok()
  {
    Packet(data, Number(i, limits.modulus), nr, true)
  }

  function InfoOf(p: Packet): Frame { Info(p.ns, p.nr, p.data, false) }

  function Least(x: nat, y: nat): (n: nat)
    ensures n <= x && n <= y
  {
    if x < y then x else y
  }

  /** What the drain makes of packets none of which has been sent, the first being packet i: n of
      them go out under consecutive numbers. */
  ghost predicate SentFirst(limits: Limits, buffer: seq<Packet>, d: Drained, i: nat, n: nat, nr: nat)
    requires limits.Ok()
  {
    match d case Drained(buffer', sendSeq, out) =>
      sendSeq == Number(i + n, limits.modulus) && |buffer'| == |buffer| && n <= |buffer| && |out| == n &&
      (forall k: nat | k < n :: buffer'[k] == Stamped(limits, buffer[k].data, i + k, nr)) &&
      (forall k: nat | k < n :: out[k] == InfoOf(buffer'[k])) &&
      (forall k: nat | n <= k < |buffer| :: buffer'[k] == buffer[k])
  }

  lemma SentFirstMore(limits: Limits, buffer: seq<Packet>, d: Drained, d': Drained, i: nat, n: nat, nr: nat)
    requires limits.Ok() && buffer != [] && SentFirst(limits, buffer[1..], d', i + 1, n, nr)
    requires var p := Stamped(limits, buffer[0].data, i, nr);
             d == Drained([p] + d'.buffer, d'.sendSeq, [InfoOf(p)] + d'.out)
    ensures SentFirst(limits, buffer, d, i, n + 1, nr)
  {
    forall k: nat | k < n + 1
      ensures d.buffer[k] == Stamped(limits, buffer[k].data, i + k, nr) && d.out[k] == InfoOf(d.buffer[k])
    {
      if k > 0 {
        assert d'.buffer[k - 1] == Stamped(limits, buffer[1..][k - 1].data, i + 1 + (k - 1), nr);
        assert d'.out[k - 1] == InfoOf(d'.buffer[k - 1]);
      }
    }
    forall k: nat | n + 1 <= k < |buffer| ensures d.buffer[k] == buffer[k] {
      assert d'.buffer[k - 1] == buffer[1..][k - 1];
    }
  }

  lemma NoneSentYet(limits: Limits, buffer: seq<Packet>, d: Drained, d': Drained, i: nat, nr: nat)
    requires limits.Ok() && buffer != [] && SentFirst(limits, buffer[1..], d', i, 0, nr)
    requires d == Drained([buffer[0]] + d'.buffer, d'.sendSeq, d'.out)
    ensures SentFirst(limits, buffer, d, i, 0, nr)
  {
    forall k: nat | k < |buffer| ensures d.buffer[k] == buffer[k] {
      if k > 0 { assert d'.buffer[k - 1] == buffer[1..][k - 1]; }
    }
  }

  /** As many of them as there is room for. */
  lemma {:induction false} DrainUnsent(limits: Limits, buffer: seq<Packet>, i: nat, sendSeq: nat, seqNum: nat,
                                       remoteSeq: nat, nr: nat, resent: bool)
    requires limits.Ok() && limits.maxFrames < limits.modulus
    requires forall k | 0 <= k < |buffer| :: !buffer[k].sent
    requires sendSeq == Number(i, limits.modulus) && seqNum < limits.modulus && remoteSeq < limits.modulus
    ensures var d := DrainLoop(limits, buffer, sendSeq, seqNum, remoteSeq, nr, resent);
            SentFirst(limits, buffer, d, i, Least(Room(limits, seqNum, remoteSeq), |buffer|), nr)
  {
    if buffer != [] {
      var n := Least(Room(limits, seqNum, remoteSeq), |buffer|);
      var d := DrainLoop(limits, buffer, sendSeq, seqNum, remoteSeq, nr, resent);
      if n > 0 {
        NextNumber(limits, i);
        RoomNext(limits, seqNum, remoteSeq);
        DrainUnsent(limits, buffer[1..], i + 1, limits.Next(sendSeq), limits.Next(seqNum), remoteSeq, nr, resent);
        var d' := DrainLoop(limits, buffer[1..], limits.Next(sendSeq), limits.Next(seqNum), remoteSeq, nr, resent);
        SentFirstMore(limits, buffer, d, d', i, n - 1, nr);
      } else {
        DrainUnsent(limits, buffer[1..], i, sendSeq, seqNum, remoteSeq, nr, resent);
        NoneSentYet(limits, buffer, d, DrainLoop(limits, buffer[1..], sendSeq, seqNum, remoteSeq, nr, resent), i, nr);
      }
    }
  }

  /** What the drain makes of a buffer whose first packet is a, sent below packet s: all of it below
      s + n is sent, with N(R) renewed, and what goes out is that, or the n new packets only. */
  ghost predicate SentOn(limits: Limits, buffer: seq<Packet>, d: Drained, a: nat, s: nat, n: nat, nr: nat, resent: bool)
    requires limits.Ok()
  {
    match d case Drained(buffer', sendSeq, out) =>
      a <= s && s + n <= a + |buffer| && sendSeq == Number(s + n, limits.modulus) && |buffer'| == |buffer| &&
      (forall k: nat | k < s + n - a :: buffer'[k] == Stamped(limits, buffer[k].data, a + k, nr)) &&
      (forall k: nat | s + n - a <= k < |buffer| :: buffer'[k] == buffer[k]) &&
      var first := if resent then 0 else s - a;
      |out| == s + n - a - first && (forall k: nat | k < |out| :: out[k] == InfoOf(buffer'[first + k]))
  }

  lemma SentOnMore(limits: Limits, buffer: seq<Packet>, d: Drained, d': Drained, a: nat, s: nat, n: nat, nr: nat,
                   resent: bool)
    requires limits.Ok() && buffer != [] && a < s && SentOn(limits, buffer[1..], d', a + 1, s, n, nr, resent)
    requires var p := Stamped(limits, buffer[0].data, a, nr);
             d == Drained([p] + d'.buffer, d'.sendSeq, (if resent then [InfoOf(p)] else []) + d'.out)
    ensures SentOn(limits, buffer, d, a, s, n, nr, resent)
  {
    forall k: nat | k < s + n - a ensures d.buffer[k] == Stamped(limits, buffer[k].data, a + k, nr) {
      if k > 0 { assert d'.buffer[k - 1] == Stamped(limits, buffer[1..][k - 1].data, a + 1 + (k - 1), nr); }
    }
    forall k: nat | s + n - a <= k < |buffer| ensures d.buffer[k] == buffer[k] {
      assert d'.buffer[k - 1] == buffer[1..][k - 1];
    }
    var first := if resent then 0 else s - a;
    forall k: nat | k < |d.out| ensures d.out[k] == InfoOf(d.buffer[first + k]) {
      if resent {
        if k > 0 { assert d'.out[k - 1] == InfoOf(d'.buffer[k - 1]); }
      } else {
        assert d'.out[k] == InfoOf(d'.buffer[s - (a + 1) + k]);
      }
    }
  }

  lemma NoneSent(limits: Limits, buffer: seq<Packet>, queued: seq<Data>, s: nat)
    requires limits.Ok() && forall k: nat | k < |buffer| :: PacketOk(limits, buffer[k], queued, s + k, s)
    ensures forall k | 0 <= k < |buffer| :: !buffer[k].sent
  {
    forall k: nat | k < |buffer| ensures !buffer[k].sent {
      assert PacketOk(limits, buffer[k], queued, s + k, s);
    }
  }

  lemma SentFirstIsOn(limits: Limits, buffer: seq<Packet>, d: Drained, s: nat, n: nat, nr: nat, resent: bool)
    requires limits.Ok() && SentFirst(limits, buffer, d, s, n, nr)
    ensures SentOn(limits, buffer, d, s, s, n, nr, resent)
  {
  }

  lemma DrainSent(limits: Limits, buffer: seq<Packet>, a: nat, sendSeq: nat, seqNum: nat, remoteSeq: nat, nr: nat,
                  resent: bool)
    requires limits.Ok() && buffer != [] && buffer[0].sent && buffer[0].ns == Number(a, limits.modulus)
    ensures var d' := DrainLoop(limits, buffer[1..], sendSeq, seqNum, remoteSeq, nr, resent);
            var p := Stamped(limits, buffer[0].data, a, nr);
            DrainLoop(limits, buffer, sendSeq, seqNum, remoteSeq, nr, resent) ==
            Drained([p] + d'.buffer, d'.sendSeq, (if resent then [InfoOf(p)] else []) + d'.out)
  {
  }

  lemma {:induction false} DrainFrom(limits: Limits, buffer: seq<Packet>, queued: seq<Data>, a: nat, s: nat,
                                     sendSeq: nat, seqNum: nat, remoteSeq: nat, nr: nat, resent: bool)
    requires limits.Ok() && limits.maxFrames < limits.modulus && a <= s <= a + |buffer|
    requires forall k: nat | k < |buffer| :: PacketOk(limits, buffer[k], queued, a + k, s)
    requires sendSeq == Number(s, limits.modulus) && seqNum < limits.modulus && remoteSeq < limits.modulus
    ensures var n := Least(Room(limits, seqNum, remoteSeq), a + |buffer| - s);
            SentOn(limits, buffer, DrainLoop(limits, buffer, sendSeq, seqNum, remoteSeq, nr, resent), a, s, n, nr, resent)
    decreases s - a
  {
    var d := DrainLoop(limits, buffer, sendSeq, seqNum, remoteSeq, nr, resent);
    if a < s {
      assert PacketOk(limits, buffer[0], queued, a + 0, s);
      TailOk(limits, buffer, queued, a, s);
      DrainSent(limits, buffer, a, sendSeq, seqNum, remoteSeq, nr, resent);
      DrainFrom(limits, buffer[1..], queued, a + 1, s, sendSeq, seqNum, remoteSeq, nr, resent);
      var d' := DrainLoop(limits, buffer[1..], sendSeq, seqNum, remoteSeq, nr, resent);
      var n := Least(Room(limits, seqNum, remoteSeq), a + |buffer| - s);
      SentOnMore(limits, buffer, d, d', a, s, n, nr, resent);
    } else {
      NoneSent(limits, buffer, queued, s);
      DrainUnsent(limits, buffer, s, sendSeq, seqNum, remoteSeq, nr, resent);
      SentFirstIsOn(limits, buffer, d, s, Least(Room(limits, seqNum, remoteSeq), |buffer|), nr, resent);
    }
  }

  // ----- frames enter and leave the links

  lemma ForwardAppend(limits: Limits, fwd: seq<Flight>, more: seq<Flight>, queued: seq<Data>, s: nat, s': nat)
    requires limits.Ok() && ForwardOk(limits, fwd, queued, s) && ForwardOk(limits, more, queued, s') && s <= s'
    requires s' <= |queued| && forall k | 0 <= k < |more| :: s <= more[k].top
    ensures ForwardOk(limits, fwd + more, queued, s')
    ensures Horizon(fwd, s) <= Horizon(fwd + more, s')
  {
    var all := fwd + more;
    forall k | 0 <= k < |all| ensures FlightOk(limits, all[k], queued, s') {
      if k < |fwd| { assert FlightOk(limits, fwd[k], queued, s); } else { assert all[k] == more[k - |fwd|]; }
    }
    forall j, k | 0 <= j < k < |all| ensures all[j].top <= all[k].top {
      if j < |fwd| { assert FlightOk(limits, fwd[j], queued, s); } else { assert all[j] == more[j - |fwd|]; }
      if k >= |fwd| { assert all[k] == more[k - |fwd|]; }
    }
  }

  lemma Further(limits: Limits, rcv: Receiver, queued: seq<Data>, r: nat, limit: nat, limit': nat)
    requires limits.Ok() && ReceiverOk(limits, rcv, queued, r, limit) && limit <= limit' <= |queued|
    ensures ReceiverOk(limits, rcv, queued, r, limit')
  {
  }

  lemma HorizonBelow(limits: Limits, fwd: seq<Flight>, queued: seq<Data>, s: nat)
    requires limits.Ok() && ForwardOk(limits, fwd, queued, s) && s <= |queued|
    ensures Horizon(fwd, s) <= s
  {
    if fwd != [] { assert FlightOk(limits, fwd[0], queued, s); }
  }

  /** New frames are put on the forward link, the sender having gone on to packet s'. */
  lemma ForwardMore(limits: Limits, w: Way, a: nat, s: nat, r: nat, snd: Sender, more: seq<Flight>, s': nat)
    requires WayOk(limits, w, a, s, r) && SenderOk(limits, snd, w.queued, a, s') && s <= s'
    requires ForwardOk(limits, more, w.queued, s') && forall k | 0 <= k < |more| :: s <= more[k].top
    ensures WayOk(limits, w.(snd := snd, fwd := w.fwd + more), a, s', r)
  {
    ForwardAppend(limits, w.fwd, more, w.queued, s, s');
    HorizonBelow(limits, w.fwd + more, w.queued, s');
    Further(limits, w.rcv, w.queued, r, Horizon(w.fwd, s), Horizon(w.fwd + more, s'));
  }

  /** Frames that acknowledge what has been received are put on the backward link. */
  lemma BackMore(limits: Limits, w: Way, a: nat, s: nat, r: nat, more: seq<Flight>)
    requires WayOk(limits, w, a, s, r)
    requires forall k | 0 <= k < |more| :: more[k].ack == r && more[k].frame.nr == Number(r, limits.modulus)
    ensures WayOk(limits, w.(back := w.back + more), a, s, r)
  {
    var all := w.back + more;
    forall k | 0 <= k < |all|
      ensures a <= all[k].ack <= r && all[k].frame.nr == Number(all[k].ack, limits.modulus)
    {
      if k >= |w.back| { assert all[k] == more[k - |w.back|]; }
    }
    forall j, k | 0 <= j < k < |all| ensures all[j].ack <= all[k].ack {
      if k >= |w.back| { assert all[k] == more[k - |w.back|]; }
      if j >= |w.back| { assert all[j] == more[j - |w.back|]; }
    }
  }

  function Without(link: seq<Flight>, k: nat): seq<Flight>
    requires k < |link|
  {
    link[..k] + link[k + 1..]
  }

  lemma WithoutIs(link: seq<Flight>, k: nat, j: nat)
    requires k < |link| && j < |link| - 1
    ensures Without(link, k)[j] == link[if j < k then j else j + 1]
  {
  }

  lemma ForwardLess(limits: Limits, w: Way, a: nat, s: nat, r: nat, k: nat)
    requires WayOk(limits, w, a, s, r) && k < |w.fwd|
    ensures WayOk(limits, w.(fwd := Without(w.fwd, k)), a, s, r)
  {
    var rest := Without(w.fwd, k);
    forall j: nat | j < |rest| ensures FlightOk(limits, rest[j], w.queued, s) {
      WithoutIs(w.fwd, k, j);
    }
    forall i: nat, j: nat | i < j < |rest| ensures rest[i].top <= rest[j].top {
      WithoutIs(w.fwd, k, i);
      WithoutIs(w.fwd, k, j);
    }
    HorizonBelow(limits, rest, w.queued, s);
    assert FlightOk(limits, w.fwd[0], w.queued, s);
    if rest != [] { WithoutIs(w.fwd, k, 0); }
    Further(limits, w.rcv, w.queued, r, Horizon(w.fwd, s), Horizon(rest, s));
  }

  lemma BackLess(limits: Limits, w: Way, a: nat, s: nat, r: nat, k: nat)
    requires WayOk(limits, w, a, s, r) && k < |w.back|
    ensures WayOk(limits, w.(back := Without(w.back, k)), a, s, r)
  {
    var rest := Without(w.back, k);
    forall j: nat | j < |rest|
      ensures a <= rest[j].ack <= r && rest[j].frame.nr == Number(rest[j].ack, limits.modulus)
    {
      WithoutIs(w.back, k, j);
    }
    forall i: nat, j: nat | i < j < |rest| ensures rest[i].ack <= rest[j].ack {
      WithoutIs(w.back, k, i);
      WithoutIs(w.back, k, j);
    }
  }

  // ----- acknowledging

  /** An acknowledgement of everything below packet v removes exactly the packets below v. */
  lemma {:induction false} UnackedIs(limits: Limits, buffer: seq<Packet>, queued: seq<Data>, a: nat, s: nat, v: nat)
    requires limits.Ok() && limits.maxFrames < limits.modulus && a <= |queued| == a + |buffer|
    requires v <= s <= |queued| && s <= a + limits.maxFrames && s - v + limits.maxFrames <= limits.modulus
    requires forall k: nat | k < |buffer| :: PacketOk(limits, buffer[k], queued, a + k, s)
    ensures Unacked(limits, Number(v, limits.modulus), buffer) == if v <= a then buffer else buffer[v - a..]
  {
    var m := limits.modulus;
    if buffer != [] {
      assert PacketOk(limits, buffer[0], queued, a + 0, s);
      TailOk(limits, buffer, queued, a, s);
      UnackedIs(limits, buffer[1..], queued, a + 1, s, v);
      if a < s { AcksBelow(limits, v, a, s); }
    }
  }

  lemma AcksBelow(limits: Limits, v: nat, i: nat, s: nat)
    requires limits.Ok() && limits.maxFrames < limits.modulus && i < s && v <= s
    requires s <= i + limits.maxFrames && s - v + limits.maxFrames <= limits.modulus
    ensures var m := limits.modulus;
            Number(i, m) != Number(v, m) && Distance(Number(v, m), Number(i, m), m) <= limits.maxFrames <==> i < v
  {
    var m := limits.modulus;
    if i < v {
      DistanceAhead(v, i, m);
    } else if i > v {
      DistanceBehind(v, i, m);
    }
  }

  lemma AcknowledgedOk(limits: Limits, snd: Sender, queued: seq<Data>, a: nat, s: nat, v: nat)
    requires limits.Ok() && limits.maxFrames < limits.modulus && SenderOk(limits, snd, queued, a, s)
    requires a <= v <= s && s - v + limits.maxFrames <= limits.modulus
    ensures var snd' := Acknowledged(limits, snd, Number(v, limits.modulus));
            SenderOk(limits, snd', queued, v, s) && snd'.buffer == snd.buffer[v - a..]
  {
    UnackedIs(limits, snd.buffer, queued, a, s, v);
    var left := snd.buffer[v - a..];
    forall k: nat | k < |left| ensures PacketOk(limits, left[k], queued, v + k, s) {
      assert PacketOk(limits, snd.buffer[v - a + k], queued, a + (v - a + k), s);
    }
  }

  lemma BackTaken(limits: Limits, back: seq<Flight>, a: nat, r: nat)
    requires limits.Ok() && BackOk(limits, back, a, r) && back != []
    ensures BackOk(limits, back[1..], back[0].ack, r)
  {
  }

  /** An acknowledgement arrives: it removes from the send buffer the packets it acknowledges, which
      have been received, and nothing else. */
  lemma AcknowledgeOk(limits: Limits, w: Way, a: nat, s: nat, r: nat)
    requires WayOk(limits, w, a, s, r) && w.back != []
    ensures var f := w.back[0];
            var snd := Acknowledged(limits, w.snd, f.frame.nr);
            a <= f.ack <= r && snd.buffer == w.snd.buffer[f.ack - a..] &&
            WayOk(limits, w.(snd := snd, back := w.back[1..]), f.ack, s, r)
  {
    HorizonBelow(limits, w.fwd, w.queued, s);
    AcknowledgedOk(limits, w.snd, w.queued, a, s, w.back[0].ack);
    BackTaken(limits, w.back, a, r);
  }

  // ----- receiving

  /** A receiver's keys are counted from one packet further on. */
  lemma HeldNext(limits: Limits, held: map<nat, Entry>, queued: seq<Data>, r: nat, limit: nat)
    requires limits.Ok() && r < limit && HeldOk(limits, held, Number(r, limits.modulus), queued, r, limit, 1)
    ensures HeldOk(limits, held, Number(r + 1, limits.modulus), queued, r + 1, limit, 0)
  {
    NextNumber(limits, r);
    var n, m := Number(r, limits.modulus), limits.modulus;
    forall key | key in held
      ensures var d := Distance(key, Number(r + 1, m), m);
              0 <= d < limit - (r + 1) && held[key].data == queued[r + 1 + d]
    {
      assert Distance(key, limits.Next(n), m) == Distance(key, n, m) - 1;
    }
  }

  /** A packet held under the number expected is the one expected. */
  lemma HeldTaken(limits: Limits, held: map<nat, Entry>, n: nat, queued: seq<Data>, r: nat, limit: nat)
    requires limits.Ok() && n == Number(r, limits.modulus) && HeldOk(limits, held, n, queued, r, limit, 0) && n in held
    ensures r < limit && held[n].data == queued[r] && |held - {n}| < |held|
    ensures limits.Next(n) == Number(r + 1, limits.modulus)
    ensures HeldOk(limits, held - {n}, limits.Next(n), queued, r + 1, limit, 0)
  {
    assert |held.Keys - {n}| < |held.Keys|;
    HeldNext(limits, held - {n}, queued, r, limit);
    NextNumber(limits, r);
  }

  lemma NoneHeld(limits: Limits, held: map<nat, Entry>, n: nat, queued: seq<Data>, r: nat, limit: nat)
    requires limits.Ok() && n == Number(r, limits.modulus) && HeldOk(limits, held, n, queued, r, limit, 0) && n !in held
    ensures HeldOk(limits, held, n, queued, r, limit, 1)
  {
  }

  /** What has been released of the packets from r on, when the receiver is at packet r'. */
  ghost predicate ReleasedUpTo(limits: Limits, rel: Released, queued: seq<Data>, r: nat, r': nat, limit: nat)
    requires limits.Ok()
  {
    match rel case Released(held, recvSeq, delivered) =>
      r <= r' <= limit <= |queued| && delivered == queued[r..r'] && recvSeq == Number(r', limits.modulus) &&
      HeldOk(limits, held, recvSeq, queued, r', limit, 1)
  }

  /** What is released is what comes next, up to some packet r'. */
  lemma {:induction false} ReleaseOk(limits: Limits, held: map<nat, Entry>, n: nat, queued: seq<Data>, r: nat, limit: nat)
    returns (r': nat)
    requires limits.Ok() && n == Number(r, limits.modulus) && HeldOk(limits, held, n, queued, r, limit, 0)
    requires forall k | 0 <= k < |queued| :: queued[k] != []
    ensures ReleasedUpTo(limits, Release(limits, held, n), queued, r, r', limit)
    decreases |held|
  {
    if n in held {
      HeldTaken(limits, held, n, queued, r, limit);
      r' := ReleaseOk(limits, held - {n}, limits.Next(n), queued, r + 1, limit);
      FirstOf(queued, r, r');
    } else {
      NoneHeld(limits, held, n, queued, r, limit);
      r' := r;
    }
  }

  lemma FirstOf(queued: seq<Data>, r: nat, r': nat)
    requires r < r' <= |queued|
    ensures queued[r..r'] == [queued[r]] + queued[r + 1..r']
  {
  }

  /** Which branch an I-frame takes is decided by the packet it carries. */
  lemma WhichPacket(limits: Limits, i: nat, r: nat)
    requires limits.Ok() && 2 * limits.maxFrames < limits.modulus
    requires r <= i + limits.maxFrames && i < r + limits.maxFrames
    ensures var (n, k, m) := (Number(i, limits.modulus), Number(r, limits.modulus), limits.modulus);
            (n == k <==> i == r) && (i > r ==> Distance(n, k, m) == i - r) &&
            (i < r ==> Distance(n, k, m) > limits.maxFrames)
  {
    if i >= r { DistanceAhead(i, r, limits.modulus); } else { DistanceBehind(i, r, limits.modulus); }
  }

  lemma StoredOk(limits: Limits, rcv: Receiver, queued: seq<Data>, r: nat, limit: nat, i: nat, data: Data, now: int)
    requires limits.Ok() && 2 * limits.maxFrames < limits.modulus && ReceiverOk(limits, rcv, queued, r, limit)
    requires r < i < limit && i < r + limits.maxFrames && data == queued[i]
    ensures ReceiverOk(limits, rcv.(held := Stored(rcv.held, Number(i, limits.modulus), data, now)), queued, r, limit)
  {
    WhichPacket(limits, i, r);
  }

  /** An I-frame is received. */
  lemma ReceiveOk(limits: Limits, rcv: Receiver, queued: seq<Data>, r: nat, f: Flight, s: nat, now: int)
    returns (r': nat)
    requires limits.Ok() && 2 * limits.maxFrames < limits.modulus && FlightOk(limits, f, queued, s) && f.frame.Info?
    requires ReceiverOk(limits, rcv, queued, r, f.top) && s <= r + limits.maxFrames
    requires forall k | 0 <= k < |queued| :: queued[k] != []
    ensures r <= r' <= f.top
    ensures var rec := ReceiveInfo(limits, rcv, f.frame.ns, f.frame.data, f.frame.poll, now);
            ReceiverOk(limits, rec.rcv, queued, r', f.top) && rec.delivered == queued[r..r']
  {
    WhichPacket(limits, f.index, r);
    r' := r;
    if f.index == r {
      HeldNext(limits, rcv.held, queued, r, f.top);
      NextNumber(limits, r);
      r' := ReleaseOk(limits, rcv.held, limits.Next(rcv.recvSeq), queued, r + 1, f.top);
      FirstOf(queued, r, r');
    } else if f.index > r {
      StoredOk(limits, rcv, queued, r, f.top, f.index, f.frame.data, now);
    }
  }

  /** The head of the forward link arrives: what is passed on continues what was. */
  lemma ArriveOk(limits: Limits, w: Way, a: nat, s: nat, r: nat, now: int) returns (r': nat)
    requires WayOk(limits, w, a, s, r) && w.fwd != []
    ensures r' >= r
    ensures var f := w.fwd[0].frame;
            if f.Info? then
              var rec := ReceiveInfo(limits, w.rcv, f.ns, f.data, f.poll, now);
              WayOk(limits, w.(rcv := rec.rcv, fwd := w.fwd[1..], delivered := w.delivered + rec.delivered), a, s, r')
            else r' == r && WayOk(limits, w.(fwd := w.fwd[1..]), a, s, r)
  {
    var f, rest := w.fwd[0], w.fwd[1..];
    assert FlightOk(limits, f, w.queued, s);
    assert rest == Without(w.fwd, 0);
    ForwardLess(limits, w, a, s, r, 0);
    r' := r;
    if f.frame.Info? {
      r' := ReceiveOk(limits, w.rcv, w.queued, r, f, s, now);
      var rec := ReceiveInfo(limits, w.rcv, f.frame.ns, f.frame.data, f.frame.poll, now);
      HorizonBelow(limits, rest, w.queued, s);
      Further(limits, rec.rcv, w.queued, r', f.top, Horizon(rest, s));
      Spliced(w.queued, r, r');
      MoreReceived(limits, w.back, a, r, r');
    }
  }

  lemma Spliced(queued: seq<Data>, r: nat, r': nat)
    requires r <= r' <= |queued|
    ensures queued[..r'] == queued[..r] + queued[r..r']
  {
  }

  lemma MoreReceived(limits: Limits, back: seq<Flight>, a: nat, r: nat, r': nat)
    requires limits.Ok() && BackOk(limits, back, a, r) && r <= r'
    ensures BackOk(limits, back, a, r')
  {
  }
}
