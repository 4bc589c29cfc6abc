/** YAPP file transfer: a sender and a receiver joined by two reliable first-in-first-out links. */
module Yapp {
  import opened Bits

  const STX: byte := 0x02

  // ----- data packets

  function Checksum(block: seq<byte>): byte {
    if block == [] then 0
    else var sum: int := Checksum(block[..|block| - 1]) as int + block[|block| - 1] as int; sum % 256
  }

  /** The packet of a block; its length byte is the length modulo 256. */
  function DataPacket(block: seq<byte>, useChecksum: bool): seq<byte> {
    [STX, |block| % 256] + block + if useChecksum then [Checksum(block)] else []
  }

  datatype Taken = Block(data: seq<byte>) | Mismatch | Invalid

  /** What the receiver makes of a data packet. */
  function TakeData(packet: seq<byte>, useChecksum: bool): Taken {
    if |packet| < 2 then Invalid
    else
      var n: int := if packet[1] == 0 then 256 else packet[1] as int;
      if |packet| < n + (if useChecksum then 3 else 2) then Invalid
      else if useChecksum && Checksum(packet[2..2 + n]) != packet[2 + n] then Mismatch
      else Block(packet[2..2 + n])
  }

  /** A block arrives exactly if it has at most 256 bytes and the receiver expects no checksum that
      the sender leaves out. */
  lemma BlockArrives(block: seq<byte>, sent: bool, expected: bool)
    requires block != []
    ensures TakeData(DataPacket(block, sent), expected) == Block(block) <==> |block| <= 256 && (expected ==> sent)
  {
    var packet := DataPacket(block, sent);
    if |block| <= 256 {
      var n := if packet[1] == 0 then 256 else packet[1];
      assert n == |block| && packet[2..2 + n] == block;
      if sent { assert packet[2 + n] == Checksum(block); }
    }
  }

  // ----- messages and states

  datatype Msg =
    | SI | RR | HD(size: nat) | RF | RT | RE(offset: nat, yappC: bool) | DT(packet: seq<byte>) | Ack
    | EF | AF | ET | AT | NR | CN | CA

  datatype SendState = S | SH | SD | SE | ST | SendCancelled | SendIdle

  datatype Sender = Sender(state: SendState, buffer: seq<byte>, offset: nat, blockSize: nat, useChecksum: bool)

  datatype ReceiveState = Idle | R | RD | RH | ReceiveCancelled

  /** The file as it is on the disk, if there is one; `completed` says that its end has been reported. */
  datatype File = NoFile | File(data: seq<byte>)

  datatype Config = Config(useChecksum: bool, enableResume: bool)

  datatype Receiver = Receiver(state: ReceiveState, file: File, useChecksum: bool, completed: bool)

  // ----- the sender

  function SendDT(s: Sender): (Sender, seq<Msg>) {
    if s.offset >= |s.buffer| then (s.(state := SE), [EF])
    else
      var n := if s.blockSize < |s.buffer| - s.offset then s.blockSize else |s.buffer| - s.offset;
      (s.(offset := s.offset + n), [DT(DataPacket(s.buffer[s.offset..s.offset + n], s.useChecksum))])
  }

  function CancelSend(s: Sender): (Sender, seq<Msg>) { (s.(state := SendCancelled), [CN]) }

  /** processSendModePacket */
  function OnSender(s: Sender, m: Msg): (Sender, seq<Msg>) {
    match s.state
    case S =>
      (match m
       case RR => (s.(state := SH), [HD(|s.buffer|)])
       case RF => SendDT(s.(state := SD))
       case NR => CancelSend(s)
       case RE(_, _) => CancelSend(s)
       case CN => (s.(state := SendCancelled), [CA])
       case _ => (s, []))
    case SH =>
      (match m
       case RF => SendDT(s.(state := SD, useChecksum := false))
       case RT => SendDT(s.(state := SD, useChecksum := true))
       case RE(offset, yappC) => SendDT(s.(state := SD, offset := offset, useChecksum := yappC))
       case NR => CancelSend(s)
       case CN => (s.(state := SendCancelled), [CA])
       case _ => (s, []))
    case SD => SendDT(s)
    case SE =>
      (match m
       case AF => (s.(state := ST), [ET])
       case CN => (s.(state := SendCancelled), [CA])
       case _ => (s, []))
    case ST => if m == AT then (s.(state := SendIdle), []) else (s, [])
    case SendCancelled => (s, [])
    case SendIdle => (s, [])
  }

  /** The sender's timer expires: it sends its last packet again, but never data. */
  function OnSendTimeout(s: Sender): (Sender, seq<Msg>) {
    match s.state
    case S => (s, [SI])
    case SH => (s, [HD(|s.buffer|)])
    case SD => CancelSend(s)
    case SE => (s, [EF])
    case ST => (s, [ET])
    case _ => (s, [])
  }

  // ----- the receiver

  /** handleHeader */
  function OnHeader(c: Config, r: Receiver, size: nat): (Receiver, seq<Msg>) {
    if c.enableResume && r.file.File? && 0 < |r.file.data| < size then
      (r.(state := RD), [RE(|r.file.data|, c.useChecksum)])
    else if c.enableResume && r.file.File? && |r.file.data| >= size then (r, [NR])
    else
      (r.(state := RD, file := File([]), useChecksum := c.useChecksum), [if c.useChecksum then RT else RF])
  }

  /** processReceiveModePacket, and the request that starts a transfer */
  function OnReceiver(c: Config, r: Receiver, m: Msg): (Receiver, seq<Msg>) {
    match r.state
    case Idle => if m == SI then (r.(state := R), [RR]) else (r, [])
    case R =>
      (match m
       case SI => (r, [RR])
       case HD(size) => OnHeader(c, r, size)
       case ET => (r.(state := Idle), [AT])
       case _ => (r, []))
    case RH =>
      (match m
       case HD(size) => OnHeader(c, r, size)
       case ET => (r.(state := Idle), [AT])
       case _ => (r, []))
    case RD =>
      (match m
       case DT(packet) =>
         (match TakeData(packet, r.useChecksum)
          case Block(data) => (r.(file := Appended(r.file, data)), [Ack])
          case Mismatch => (r.(state := ReceiveCancelled), [CN, Ack])
          case Invalid => (r.(state := ReceiveCancelled), [CN]))
       case EF => (r.(state := RH, completed := true), [AF])
       case CN => (r.(state := ReceiveCancelled), [CA])
       case _ => (r, []))
    case ReceiveCancelled => (r, [])
  }

  function Appended(file: File, data: seq<byte>): File {
    match file case NoFile => File(data) case File(before) => File(before + data)
  }

  // ----- the two together

  datatype System = System(s: Sender, r: Receiver, toR: seq<Msg>, toS: seq<Msg>)

  datatype Event = ToReceiver | ToSender | SendTimeout | CancelAtSender | CancelAtReceiver

  function Next(c: Config, sys: System, e: Event): System {
    match e
    case ToReceiver =>
      if sys.toR == [] then sys
      else
        var (r, out) := OnReceiver(c, sys.r, sys.toR[0]);
        System(sys.s, r, sys.toR[1..], sys.toS + out)
    case ToSender =>
      if sys.toS == [] then sys
      else
        var (s, out) := OnSender(sys.s, sys.toS[0]);
        System(s, sys.r, sys.toR + out, sys.toS[1..])
    case SendTimeout =>
      var (s, out) := OnSendTimeout(sys.s);
      sys.(s := s, toR := sys.toR + out)
    case CancelAtSender =>
      var (s, out) := CancelSend(sys.s);
      sys.(s := s, toR := sys.toR + out)
    case CancelAtReceiver =>
      // the receiver is told to, or its timer expires
      if sys.r.state == Idle then sys
      else sys.(r := sys.r.(state := ReceiveCancelled), toS := sys.toS + [CN])
  }

  function Run(c: Config, sys: System, es: seq<Event>): System
    decreases |es|
  {
    if es == [] then sys else Run(c, Next(c, sys, es[0]), es[1..])
  }

  // ----- what the receiver will be when everything under way has arrived

  /** The receiver after a list of messages, and its replies. */
  function Later(c: Config, r: Receiver, ms: seq<Msg>): (Receiver, seq<Msg>)
    decreases |ms|
  {
    if ms == [] then (r, [])
    else
      var (r', out) := OnReceiver(c, r, ms[0]);
      var (r'', more) := Later(c, r', ms[1..]);
      (r'', out + more)
  }

  lemma {:induction false} LaterInTwo(c: Config, r: Receiver, a: seq<Msg>, b: seq<Msg>)
    ensures var (r', out) := Later(c, r, a);
            var (r'', more) := Later(c, r', b);
            Later(c, r, a + b) == (r'', out + more)
    decreases |a|
  {
    if a == [] {
      assert a + b == b;
      assert [] + Later(c, r, b).1 == Later(c, r, b).1;
    } else {
      assert (a + b)[1..] == a[1..] + b;
      var (r0, out0) := OnReceiver(c, r, a[0]);
      LaterInTwo(c, r0, a[1..], b);
      var (r1, out1) := Later(c, r0, a[1..]);
      var (_, out2) := Later(c, r1, b);
      assert out0 + (out1 + out2) == (out0 + out1) + out2;
    }
  }

  // ----- the invariant

  /** What is kept of a file that is already there: all of it if the transfer can be resumed. */
  function Kept(c: Config, before: File, size: nat): (kept: seq<byte>)
    ensures |kept| <= size
  {
    if c.enableResume && before.File? && 0 < |before.data| < size then before.data else []
  }

  /** The file when the sender's bytes up to an offset have been written after what was kept. */
  function Written(kept: seq<byte>, buffer: seq<byte>, offset: nat): File
    requires |kept| <= offset <= |buffer|
  {
    File(kept + buffer[|kept|..offset])
  }

  /** A resumed file is the sender's exactly if what was there was the beginning of it. */
  lemma ResumedRight(kept: seq<byte>, buffer: seq<byte>)
    requires |kept| <= |buffer|
    ensures Written(kept, buffer, |buffer|) == File(buffer) <==> kept <= buffer
  {
    var all := kept + buffer[|kept|..];
    assert all[..|kept|] == kept;
    if kept <= buffer { assert buffer == buffer[..|kept|] + buffer[|kept|..]; }
  }

  ghost predicate Complete(c: Config, before: File, buffer: seq<byte>, r: Receiver) {
    r.completed ==> r.file == Written(Kept(c, before, |buffer|), buffer, |buffer|)
  }

  /** The header has been accepted: the last reply under way says how, the ones before are old. */
  ghost predicate Accepting(c: Config, kept: seq<byte>, r: Receiver, q: seq<Msg>) {
    r.state == RD && r.file == File(kept) && (r.useChecksum ==> c.useChecksum) && q != [] &&
    (forall k | 0 <= k < |q| - 1 :: q[k] == RR) &&
    match q[|q| - 1]
    case RT => kept == []
    case RF => kept == [] && !r.useChecksum
    case RE(offset, yappC) => offset == |kept| && yappC == c.useChecksum
    case _ => false
  }

  ghost predicate Refusing(c: Config, before: File, size: nat, r: Receiver, q: seq<Msg>) {
    r.state == R && r.file == before && (r.useChecksum ==> c.useChecksum) &&
    c.enableResume && before.File? && |before.data| >= size && forall m | m in q :: m == RR || m == NR
  }

  /** The sender s, the receiver v as it will be when everything under way to it has arrived, and the
      replies q that will then be under way. */
  ghost predicate InStep(c: Config, before: File, s: Sender, v: Receiver, q: seq<Msg>) {
    var kept := Kept(c, before, |s.buffer|);
    0 < s.blockSize <= 256 && Complete(c, before, s.buffer, v) &&
    (v.state != ReceiveCancelled ==>
       match s.state
       case S =>
         s.offset == 0 && (v.state == R || (v.state == Idle && q == [])) && v.file == before && !v.completed && (v.useChecksum ==> c.useChecksum) &&
         forall m | m in q :: m == RR
       case SH => s.offset == 0 && !v.completed && (Accepting(c, kept, v, q) || Refusing(c, before, |s.buffer|, v, q))
       case SD =>
         v.state == RD && !v.completed && q == [Ack] && |kept| <= s.offset <= |s.buffer| &&
         v.file == Written(kept, s.buffer, s.offset) && (v.useChecksum ==> s.useChecksum)
       case SE => v.state == RH && v.completed && q == [AF]
       case ST => v.state == Idle && v.completed && q == [AT]
       case SendIdle => v.completed
       case SendCancelled => true)
  }

  /** One more block after what has been written. */
  lemma OneMoreBlock(kept: seq<byte>, buffer: seq<byte>, offset: nat, n: nat)
    requires |kept| <= offset && offset + n <= |buffer|
    ensures Appended(Written(kept, buffer, offset), buffer[offset..offset + n]) == Written(kept, buffer, offset + n)
  {
    assert buffer[|kept|..offset] + buffer[offset..offset + n] == buffer[|kept|..offset + n];
    assert (kept + buffer[|kept|..offset]) + buffer[offset..offset + n] ==
           kept + (buffer[|kept|..offset] + buffer[offset..offset + n]);
  }

  /** A block is sent, or the end of the file is reached. */
  lemma SendDTInStep(c: Config, before: File, s: Sender, v: Receiver)
    requires 0 < s.blockSize <= 256 && s.state == SD && v.state == RD && !v.completed
    requires var kept := Kept(c, before, |s.buffer|);
             |kept| <= s.offset <= |s.buffer| && v.file == Written(kept, s.buffer, s.offset)
    requires v.useChecksum ==> s.useChecksum
    ensures var (s', out) := SendDT(s);
            |out| == 1 && s'.buffer == s.buffer &&
            var (v', more) := OnReceiver(c, v, out[0]);
            InStep(c, before, s', v', more)
  {
    if s.offset < |s.buffer| {
      var n := if s.blockSize < |s.buffer| - s.offset then s.blockSize else |s.buffer| - s.offset;
      BlockInStep(c, Kept(c, before, |s.buffer|), s, v, n);
    }
  }

  lemma BlockInStep(c: Config, kept: seq<byte>, s: Sender, v: Receiver, n: nat)
    requires 0 < s.blockSize <= 256 && v.state == RD && !v.completed && (v.useChecksum ==> s.useChecksum)
    requires |kept| <= s.offset < s.offset + n <= |s.buffer| && v.file == Written(kept, s.buffer, s.offset)
    requires n == if s.blockSize < |s.buffer| - s.offset then s.blockSize else |s.buffer| - s.offset
    ensures var block := s.buffer[s.offset..s.offset + n];
            SendDT(s) == (s.(offset := s.offset + n), [DT(DataPacket(block, s.useChecksum))]) &&
            OnReceiver(c, v, DT(DataPacket(block, s.useChecksum))) == (v.(file := Written(kept, s.buffer, s.offset + n)), [Ack])
  {
    BlockArrives(s.buffer[s.offset..s.offset + n], s.useChecksum, v.useChecksum);
    OneMoreBlock(kept, s.buffer, s.offset, n);
  }

  lemma DataGoesOut(c: Config, before: File, s: Sender, v: Receiver, q: seq<Msg>)
    requires 0 < s.blockSize <= 256 && s.state == SD && v.state == RD && !v.completed && q == []
    requires var kept := Kept(c, before, |s.buffer|);
             |kept| <= s.offset <= |s.buffer| && v.file == Written(kept, s.buffer, s.offset)
    requires v.useChecksum ==> s.useChecksum
    ensures var (s', out) := SendDT(s);
            var (v', more) := Later(c, v, out);
            s'.buffer == s.buffer && InStep(c, before, s', v', q + more)
  {
    SendDTInStep(c, before, s, v);
    var (s', out) := SendDT(s);
    LaterOne(c, v, out);
    assert q + Later(c, v, out).1 == Later(c, v, out).1;
  }

  lemma DataStarts(c: Config, before: File, s: Sender, v: Receiver, q: seq<Msg>)
    requires InStep(c, before, s, v, q) && v.state != ReceiveCancelled && s.state == SH
    requires Accepting(c, Kept(c, before, |s.buffer|), v, q) && q[0] != RR
    ensures var (s', out) := OnSender(s, q[0]);
            var (v', more) := Later(c, v, out);
            s'.buffer == s.buffer && InStep(c, before, s', v', q[1..] + more)
  {
    var kept := Kept(c, before, |s.buffer|);
    assert |q| == 1 && q[1..] == [];
    assert kept + s.buffer[|kept|..|kept|] == kept;
    match q[0]
    case RF => DataGoesOut(c, before, s.(state := SD, useChecksum := false), v, q[1..]);
    case RT => DataGoesOut(c, before, s.(state := SD, useChecksum := true), v, q[1..]);
    case RE(offset, yappC) =>
      DataGoesOut(c, before, s.(state := SD, offset := offset, useChecksum := yappC), v, q[1..]);
  }

  /** The sender takes a reply. */
  lemma SenderTakes(c: Config, before: File, s: Sender, v: Receiver, q: seq<Msg>)
    requires InStep(c, before, s, v, q) && q != []
    ensures var (s', out) := OnSender(s, q[0]);
            var (v', more) := Later(c, v, out);
            s'.buffer == s.buffer && InStep(c, before, s', v', q[1..] + more)
  {
    var (s', out) := OnSender(s, q[0]);
    var (v', more) := Later(c, v, out);
    if v.state == ReceiveCancelled {
      IgnoresAll(c, v, out);
    } else if s.state == SH && Accepting(c, Kept(c, before, |s.buffer|), v, q) && q[0] != RR {
      DataStarts(c, before, s, v, q);
    } else if s.state == SD {
      DataGoesOut(c, before, s, v, q[1..]);
    } else if s.state == S {
      StartTakes(c, before, s, v, q);
    } else if s.state == SH {
      HeaderTakes(c, before, s, v, q);
    } else {
      EndTakes(c, before, s, v, q);
    }
  }

  lemma LaterOne(c: Config, r: Receiver, out: seq<Msg>)
    requires |out| == 1
    ensures Later(c, r, out) == OnReceiver(c, r, out[0])
  {
    assert out[1..] == [];
    assert OnReceiver(c, r, out[0]).1 + [] == OnReceiver(c, r, out[0]).1;
  }

  lemma {:induction false} IgnoresAll(c: Config, r: Receiver, ms: seq<Msg>)
    requires r.state == ReceiveCancelled
    ensures Later(c, r, ms) == (r, [])
    decreases |ms|
  {
    if ms != [] {
      IgnoresAll(c, r, ms[1..]);
      assert OnReceiver(c, r, ms[0]) == (r, []);
      assert OnReceiver(c, r, ms[0]).1 + Later(c, r, ms[1..]).1 == [];
    }
  }

  lemma StartTakes(c: Config, before: File, s: Sender, v: Receiver, q: seq<Msg>)
    requires InStep(c, before, s, v, q) && q != [] && v.state != ReceiveCancelled && s.state == S
    ensures var (v', more) := Later(c, v, [HD(|s.buffer|)]);
            OnSender(s, q[0]) == (s.(state := SH), [HD(|s.buffer|)]) &&
            InStep(c, before, s.(state := SH), v', q[1..] + more)
  {
    assert q[0] in q;
    LaterOne(c, v, [HD(|s.buffer|)]);
    var (v', more) := OnReceiver(c, v, HD(|s.buffer|));
    var q' := q[1..] + more;
    assert |more| == 1 && q'[|q'| - 1] == more[0];
    forall k | 0 <= k < |q'| - 1 ensures q'[k] == RR { assert q[k + 1] in q; }
    if more[0] == NR {
      assert Refusing(c, before, |s.buffer|, v', q');
    } else {
      assert Accepting(c, Kept(c, before, |s.buffer|), v', q');
    }
  }

  lemma HeaderTakes(c: Config, before: File, s: Sender, v: Receiver, q: seq<Msg>)
    requires InStep(c, before, s, v, q) && q != [] && v.state != ReceiveCancelled && s.state == SH
    requires Accepting(c, Kept(c, before, |s.buffer|), v, q) ==> q[0] == RR
    ensures var (s', out) := OnSender(s, q[0]);
            var (v', more) := Later(c, v, out);
            s'.buffer == s.buffer && InStep(c, before, s', v', q[1..] + more)
  {
    var (s', out) := OnSender(s, q[0]);
    assert q[0] in q;
    var kept := Kept(c, before, |s.buffer|);
    if Accepting(c, kept, v, q) {
      forall k | 0 <= k < |q[1..]| - 1 ensures q[1..][k] == RR { assert q[1..][k] == q[k + 1]; }
      assert Accepting(c, kept, v, q[1..]);
      assert q[1..] + [] == q[1..];
    } else if out == [] {
      assert q[1..] + [] == q[1..];
      forall m | m in q[1..] ensures m == RR || m == NR { assert m in q; }
      assert Refusing(c, before, |s.buffer|, v, q[1..]);
    } else {
      LaterOne(c, v, out);
    }
  }

  lemma EndTakes(c: Config, before: File, s: Sender, v: Receiver, q: seq<Msg>)
    requires InStep(c, before, s, v, q) && q != [] && v.state != ReceiveCancelled
    requires s.state == SE || s.state == ST || s.state == SendIdle || s.state == SendCancelled
    ensures var (s', out) := OnSender(s, q[0]);
            var (v', more) := Later(c, v, out);
            s'.buffer == s.buffer && InStep(c, before, s', v', q[1..] + more)
  {
    var (s', out) := OnSender(s, q[0]);
    if out != [] {
      LaterOne(c, v, out);
      assert q[1..] + Later(c, v, out).1 == Later(c, v, out).1;
    }
  }

  lemma TimeoutInStep(c: Config, before: File, s: Sender, v: Receiver, q: seq<Msg>)
    requires InStep(c, before, s, v, q)
    ensures var (s', out) := OnSendTimeout(s);
            var (v', more) := Later(c, v, out);
            s'.buffer == s.buffer && InStep(c, before, s', v', q + more)
  {
    var (s', out) := OnSendTimeout(s);
    assert q + [] == q;
    if v.state == ReceiveCancelled {
      IgnoresAll(c, v, out);
    } else if out != [] {
      LaterOne(c, v, out);
    }
  }

  // ----- every run

  /** Everything under way to the receiver leaves it right whenever it has reported the end. */
  ghost predicate Fine(c: Config, before: File, buffer: seq<byte>, r: Receiver, ms: seq<Msg>)
    decreases |ms|
  {
    Complete(c, before, buffer, r) && (ms == [] || Fine(c, before, buffer, OnReceiver(c, r, ms[0]).0, ms[1..]))
  }

  lemma {:induction false} FineMore(c: Config, before: File, buffer: seq<byte>, r: Receiver, ms: seq<Msg>, more: seq<Msg>)
    requires Fine(c, before, buffer, r, ms) && |more| <= 1
    requires Complete(c, before, buffer, Later(c, r, ms + more).0)
    ensures Fine(c, before, buffer, r, ms + more)
    decreases |ms|
  {
    if ms == [] {
      assert ms + more == more;
      if more != [] { LaterOne(c, r, more); }
    } else {
      assert (ms + more)[1..] == ms[1..] + more;
      FineMore(c, before, buffer, OnReceiver(c, r, ms[0]).0, ms[1..], more);
    }
  }

  /** The receiver has reported the end before the sender can know of it. */
  ghost predicate EndKnown(sys: System) {
    (AF in sys.toS || sys.s.state == ST || sys.s.state == SendIdle) ==> sys.r.completed
  }

  ghost predicate Inv(c: Config, before: File, buffer: seq<byte>, sys: System) {
    var (v, more) := Later(c, sys.r, sys.toR);
    sys.s.buffer == buffer && InStep(c, before, sys.s, v, sys.toS + more) &&
    Fine(c, before, buffer, sys.r, sys.toR) && EndKnown(sys)
  }

  lemma ReceiverTakes(c: Config, before: File, buffer: seq<byte>, sys: System)
    requires Inv(c, before, buffer, sys) && sys.toR != []
    ensures Inv(c, before, buffer, Next(c, sys, ToReceiver))
  {
    var (r, out) := OnReceiver(c, sys.r, sys.toR[0]);
    var (v, more) := Later(c, r, sys.toR[1..]);
    assert sys.toS + (out + more) == (sys.toS + out) + more;
    EndReported(c, sys.r, sys.toR[0]);
    assert EndKnown(System(sys.s, r, sys.toR[1..], sys.toS + out));
  }

  lemma EndReported(c: Config, r: Receiver, m: Msg)
    ensures var (r', out) := OnReceiver(c, r, m);
            r.completed || AF in out ==> r'.completed
  {
  }

  /** The sender does something: it has become s', and sends a message or none. */
  lemma SenderMoves(c: Config, before: File, buffer: seq<byte>, sys: System, s': Sender, out: seq<Msg>, toS: seq<Msg>)
    requires Inv(c, before, buffer, sys) && |out| <= 1 && s'.buffer == buffer
    requires var (v, more) := Later(c, sys.r, sys.toR);
             var (v', more') := Later(c, v, out);
             InStep(c, before, s', v', (toS + more) + more')
    requires EndKnown(System(s', sys.r, sys.toR + out, toS))
    ensures Inv(c, before, buffer, System(s', sys.r, sys.toR + out, toS))
  {
    var (v, more) := Later(c, sys.r, sys.toR);
    var (v', more') := Later(c, v, out);
    LaterInTwo(c, sys.r, sys.toR, out);
    assert (toS + more) + more' == toS + (more + more');
    FineMore(c, before, buffer, sys.r, sys.toR, out);
  }

  lemma SenderHears(c: Config, before: File, buffer: seq<byte>, sys: System)
    requires Inv(c, before, buffer, sys) && sys.toS != []
    ensures Inv(c, before, buffer, Next(c, sys, ToSender))
  {
    var (v, more) := Later(c, sys.r, sys.toR);
    var (s', out) := OnSender(sys.s, sys.toS[0]);
    assert (sys.toS + more)[0] == sys.toS[0] && (sys.toS + more)[1..] == sys.toS[1..] + more;
    SenderTakes(c, before, sys.s, v, sys.toS + more);
    SenderMoves(c, before, buffer, sys, s', out, sys.toS[1..]);
  }

  lemma NextInv(c: Config, before: File, buffer: seq<byte>, sys: System, e: Event)
    requires Inv(c, before, buffer, sys)
    ensures Inv(c, before, buffer, Next(c, sys, e))
  {
    var (v, more) := Later(c, sys.r, sys.toR);
    match e
    case ToReceiver => if sys.toR != [] { ReceiverTakes(c, before, buffer, sys); }
    case ToSender =>
      if sys.toS != [] {
        SenderHears(c, before, buffer, sys);
      }
    case SendTimeout =>
      var (s', out) := OnSendTimeout(sys.s);
      TimeoutInStep(c, before, sys.s, v, sys.toS + more);
      SenderMoves(c, before, buffer, sys, s', out, sys.toS);
    case CancelAtSender =>
      var (s', out) := CancelSend(sys.s);
      LaterOne(c, v, out);
      SenderMoves(c, before, buffer, sys, s', out, sys.toS);
    case CancelAtReceiver => if sys.r.state != Idle { ReceiverCancels(c, before, buffer, sys); }
  }

  lemma ReceiverCancels(c: Config, before: File, buffer: seq<byte>, sys: System)
    requires Inv(c, before, buffer, sys) && sys.r.state != Idle
    ensures Inv(c, before, buffer, Next(c, sys, CancelAtReceiver))
  {
    var r := sys.r.(state := ReceiveCancelled);
    IgnoresAll(c, r, sys.toR);
    FineCancelled(c, before, buffer, r, sys.toR);
  }

  lemma {:induction false} FineCancelled(c: Config, before: File, buffer: seq<byte>, r: Receiver, ms: seq<Msg>)
    requires r.state == ReceiveCancelled && Complete(c, before, buffer, r)
    ensures Fine(c, before, buffer, r, ms)
    decreases |ms|
  {
    if ms != [] { FineCancelled(c, before, buffer, r, ms[1..]); }
  }

  lemma {:induction false} RunInv(c: Config, before: File, buffer: seq<byte>, sys: System, es: seq<Event>)
    requires Inv(c, before, buffer, sys)
    ensures Inv(c, before, buffer, Run(c, sys, es))
    decreases |es|
  {
    if es != [] {
      NextInv(c, before, buffer, sys, es[0]);
      RunInv(c, before, buffer, Next(c, sys, es[0]), es[1..]);
    }
  }

  /** A transfer as it begins: the sender has sent its request, the receiver is idle or expects it. */
  function Start(buffer: seq<byte>, blockSize: nat, useChecksum: bool, before: File, waiting: bool): System {
    System(Sender(S, buffer, 0, blockSize, useChecksum), Receiver(if waiting then R else Idle, before, false, false), [SI], [])
  }

  /** In every run, with timers and cancellations at any time: while data is being sent, what the
      receiver has and what is under way to it make up the sender's bytes up to its offset; and once
      the receiver has reported the end of the file, as it has when the sender is done, the file is
      complete. */
  lemma TransferOk(c: Config, buffer: seq<byte>, blockSize: nat, useChecksum: bool, before: File, waiting: bool,
                   es: seq<Event>)
    requires 0 < blockSize <= 256
    ensures var sys := Run(c, Start(buffer, blockSize, useChecksum, before, waiting), es);
            var kept := Kept(c, before, |buffer|);
            (sys.r.completed ==> sys.r.file == Written(kept, buffer, |buffer|)) &&
            (sys.s.state == SendIdle ==> sys.r.completed) &&
            var v := Later(c, sys.r, sys.toR).0;
            sys.s.state == SD && v.state == RD ==>
              |kept| <= sys.s.offset <= |buffer| && v.file == Written(kept, buffer, sys.s.offset)
  {
    var sys := Start(buffer, blockSize, useChecksum, before, waiting);
    LaterOne(c, sys.r, [SI]);
    assert Inv(c, before, buffer, sys);
    RunInv(c, before, buffer, sys, es);
  }

  /** The file of a finished transfer is the sender's exactly if a resumed file was the beginning of it. */
  lemma FinishedRight(c: Config, buffer: seq<byte>, blockSize: nat, useChecksum: bool, before: File, waiting: bool,
                      es: seq<Event>)
    requires 0 < blockSize <= 256
    ensures var sys := Run(c, Start(buffer, blockSize, useChecksum, before, waiting), es);
            sys.r.completed ==> (sys.r.file == File(buffer) <==> Kept(c, before, |buffer|) <= buffer)
  {
    TransferOk(c, buffer, blockSize, useChecksum, before, waiting, es);
    ResumedRight(Kept(c, before, |buffer|), buffer);
  }

  // ----- an undisturbed transfer

  /** A message to the receiver, and the reply to the sender. */
  lemma Exchanged(c: Config, sys: System, m: Msg, reply: Msg, es: seq<Event>)
    requires sys.toR == [m] && sys.toS == [] && OnReceiver(c, sys.r, m).1 == [reply]
    ensures Run(c, sys, [ToReceiver, ToSender] + es) ==
            Run(c, System(OnSender(sys.s, reply).0, OnReceiver(c, sys.r, m).0, OnSender(sys.s, reply).1, []), es)
  {
    var all := [ToReceiver, ToSender] + es;
    assert all[0] == ToReceiver && all[1..][0] == ToSender && all[1..][1..] == es;
    var sys1 := Next(c, sys, ToReceiver);
    assert sys1 == System(sys.s, OnReceiver(c, sys.r, m).0, [], [reply]);
    assert Next(c, sys1, ToSender) ==
           System(OnSender(sys.s, reply).0, OnReceiver(c, sys.r, m).0, OnSender(sys.s, reply).1, []);
  }

  ghost predicate Done(sys: System) { sys.s.state == SendIdle && sys.r.completed }

  /** The end of the file is reported on both sides. */
  lemma EndRuns(c: Config, sys: System) returns (es: seq<Event>)
    requires sys.s.state == SE && sys.r.state == RD && sys.toR == [EF] && sys.toS == []
    ensures Done(Run(c, sys, es))
  {
    es := [ToReceiver, ToSender] + ([ToReceiver, ToSender] + []);
    Exchanged(c, sys, EF, AF, [ToReceiver, ToSender] + []);
    var sys1 := System(OnSender(sys.s, AF).0, OnReceiver(c, sys.r, EF).0, OnSender(sys.s, AF).1, []);
    Exchanged(c, sys1, ET, AT, []);
  }

  /** What the sender sends next, and that the receiver can take it. */
  lemma NextSent(s: Sender, useChecksum: bool)
    requires s.state == SD && 0 < s.blockSize <= 256 && (useChecksum ==> s.useChecksum)
    ensures var (s', out) := SendDT(s);
            if s.offset >= |s.buffer| then s' == s.(state := SE) && out == [EF]
            else s' == s.(offset := s'.offset) && s.offset < s'.offset <= |s.buffer| && |out| == 1 && out[0].DT? &&
                 TakeData(out[0].packet, useChecksum).Block?
  {
    if s.offset < |s.buffer| {
      var n := if s.blockSize < |s.buffer| - s.offset then s.blockSize else |s.buffer| - s.offset;
      BlockArrives(s.buffer[s.offset..s.offset + n], s.useChecksum, useChecksum);
    }
  }

  /** Data being sent, one message under way, the rest follows. */
  lemma {:induction false} DataRuns(c: Config, sys: System, packet: seq<byte>) returns (es: seq<Event>)
    requires sys.s.state == SD && 0 < sys.s.blockSize <= 256 && sys.r.state == RD
    requires sys.r.useChecksum ==> sys.s.useChecksum
    requires sys.toR == [DT(packet)] && sys.toS == [] && TakeData(packet, sys.r.useChecksum).Block?
    ensures Done(Run(c, sys, es))
    decreases |sys.s.buffer| - sys.s.offset
  {
    NextSent(sys.s, sys.r.useChecksum);
    var sys' := System(OnSender(sys.s, Ack).0, OnReceiver(c, sys.r, DT(packet)).0, OnSender(sys.s, Ack).1, []);
    if sys.s.offset >= |sys.s.buffer| {
      es := EndRuns(c, sys');
    } else {
      es := DataRuns(c, sys', sys'.toR[0].packet);
    }
    Exchanged(c, sys, DT(packet), Ack, es);
    es := [ToReceiver, ToSender] + es;
  }

  /** The receiver has the header, and has asked for the data. */
  lemma FirstSent(c: Config, s: Sender, r: Receiver) returns (es: seq<Event>)
    requires s.state == SD && 0 < s.blockSize <= 256 && r.state == RD && (r.useChecksum ==> s.useChecksum)
    ensures Done(Run(c, System(SendDT(s).0, r, SendDT(s).1, []), es))
  {
    NextSent(s, r.useChecksum);
    var sys := System(SendDT(s).0, r, SendDT(s).1, []);
    if s.offset >= |s.buffer| { es := EndRuns(c, sys); } else { es := DataRuns(c, sys, sys.toR[0].packet); }
  }

  /** The receiver refuses a file that it has in full length already. */
  predicate Refuses(c: Config, before: File, size: nat) {
    c.enableResume && before.File? && |before.data| >= size
  }

  /** Without disturbances every transfer that is not refused comes to its end. */
  lemma Completes(c: Config, buffer: seq<byte>, blockSize: nat, useChecksum: bool, before: File, waiting: bool)
    returns (es: seq<Event>)
    requires 0 < blockSize <= 256 && !Refuses(c, before, |buffer|)
    ensures Done(Run(c, Start(buffer, blockSize, useChecksum, before, waiting), es))
  {
    var sys := Start(buffer, blockSize, useChecksum, before, waiting);
    var sys1 := System(OnSender(sys.s, RR).0, OnReceiver(c, sys.r, SI).0, OnSender(sys.s, RR).1, []);
    var (r, out) := OnHeader(c, sys1.r, |buffer|);
    assert OnReceiver(c, sys1.r, HD(|buffer|)) == (r, out);
    var s: Sender := match out[0]
      case RF => sys1.s.(state := SD, useChecksum := false)
      case RT => sys1.s.(state := SD, useChecksum := true)
      case RE(offset, yappC) => sys1.s.(state := SD, offset := offset, useChecksum := yappC)
      case _ => sys1.s;
    assert OnSender(sys1.s, out[0]) == SendDT(s);
    es := FirstSent(c, s, r);
    Exchanged(c, sys1, HD(|buffer|), out[0], es);
    Exchanged(c, sys, SI, RR, [ToReceiver, ToSender] + es);
    es := [ToReceiver, ToSender] + ([ToReceiver, ToSender] + es);
  }

  /** So every transfer into a shorter file that is not the beginning of the sender's can complete, with
      the wrong file. */
  lemma WrongFile(c: Config, buffer: seq<byte>, blockSize: nat, useChecksum: bool, before: File, waiting: bool)
    returns (es: seq<Event>)
    requires 0 < blockSize <= 256 && c.enableResume && before.File? && 0 < |before.data| < |buffer|
    requires !(before.data <= buffer)
    ensures var sys := Run(c, Start(buffer, blockSize, useChecksum, before, waiting), es);
            Done(sys) && sys.r.file.File? && sys.r.file != File(buffer)
  {
    es := Completes(c, buffer, blockSize, useChecksum, before, waiting);
    TransferOk(c, buffer, blockSize, useChecksum, before, waiting, es);
    FinishedRight(c, buffer, blockSize, useChecksum, before, waiting, es);
  }
}
