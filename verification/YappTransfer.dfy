/** The transfer object: its message handlers, proved against the functions of module Yapp. */
module YappTransfer {
  import opened Bits
  import opened Yapp

  class Transfer {
    const config: Config
    const blockSize: nat
    var sendState: SendState
    var sendBuffer: seq<byte>
    var sendOffset: nat
    var receiveState: ReceiveState
    var file: File
    var completed: bool
    var useChecksum: bool

    function Sending(): Sender
      reads this
    {
      Sender(sendState, sendBuffer, sendOffset, blockSize, useChecksum)
    }

    function Receiving(): Receiver
      reads this
    {
      Receiver(receiveState, file, useChecksum, completed)
    }

    constructor (config: Config, blockSize: nat)
      ensures this.config == config && this.blockSize == blockSize
      ensures sendState == SendIdle && receiveState == Idle && !useChecksum && !completed
    {
      this.config, this.blockSize := config, blockSize;
      sendState, sendBuffer, sendOffset := SendIdle, [], 0;
      receiveState, file, completed, useChecksum := Idle, NoFile, false, false;
    }

    method StartSend(contents: seq<byte>) returns (out: seq<Msg>)
      modifies this
      ensures Sending() == Sender(S, contents, 0, blockSize, config.useChecksum) && out == [SI]
    {
      sendBuffer, sendOffset, useChecksum, sendState := contents, 0, config.useChecksum, S;
      out := [SI];
    }

    method SendDT() returns (out: seq<Msg>)
      modifies this`sendState, this`sendOffset
      ensures (Sending(), out) == Yapp.SendDT(old(Sending()))
    {
      if sendOffset >= |sendBuffer| {
        sendState := SE;
        return [EF];
      }
      var n := if blockSize < |sendBuffer| - sendOffset then blockSize else |sendBuffer| - sendOffset;
      var dataBlock := sendBuffer[sendOffset..sendOffset + n];
      var packet := [STX, n % 256] + dataBlock;
      if useChecksum {
        var checksum := SumUp(dataBlock);
        packet := packet + [checksum];
      }
      assert packet == DataPacket(dataBlock, useChecksum);
      sendOffset := sendOffset + n;
      out := [DT(packet)];
    }

    /** The checksum loops of the sender and the receiver. */
    static method SumUp(block: seq<byte>) returns (checksum: byte)
      ensures checksum == Checksum(block)
    {
      checksum := 0;
      for i := 0 to |block|
        invariant checksum == Checksum(block[..i])
      {
        assert block[..i + 1][..i] == block[..i];
        var sum: int := checksum as int + block[i] as int;
        checksum := sum % 256;
      }
      assert block[..|block|] == block;
    }

    method ProcessSendModePacket(m: Msg) returns (out: seq<Msg>)
      modifies this`sendState, this`sendOffset, this`useChecksum
      ensures (Sending(), out) == OnSender(old(Sending()), m)
    {
      out := [];
      match sendState {
        case S =>
          match m {
            case RR => sendState := SH; out := [HD(|sendBuffer|)];
            case RF => sendState := SD; out := SendDT();
            case NR => out := Cancel();
            case RE(_, _) => out := Cancel();
            case CN => sendState := SendCancelled; out := [CA];
            case _ =>
          }
        case SH =>
          match m {
            case RF => sendState, useChecksum := SD, false; out := SendDT();
            case RT => sendState, useChecksum := SD, true; out := SendDT();
            case RE(offset, yappC) => sendState, sendOffset, useChecksum := SD, offset, yappC; out := SendDT();
            case NR => out := Cancel();
            case CN => sendState := SendCancelled; out := [CA];
            case _ =>
          }
        case SD => out := SendDT();
        case SE =>
          match m {
            case AF => sendState := ST; out := [ET];
            case CN => sendState := SendCancelled; out := [CA];
            case _ =>
          }
        case ST =>
          if m == AT { sendState := SendIdle; }
        case SendCancelled =>
        case SendIdle =>
      }
    }

    method Cancel() returns (out: seq<Msg>)
      modifies this`sendState
      ensures (Sending(), out) == CancelSend(old(Sending()))
    {
      sendState := SendCancelled;
      out := [CN];
    }

    method HandleHeader(size: nat) returns (out: seq<Msg>)
      modifies this`receiveState, this`file, this`useChecksum
      ensures (Receiving(), out) == OnHeader(config, old(Receiving()), size)
    {
      if config.enableResume && file.File? {
        var resumeOffset := |file.data|;
        if resumeOffset > 0 && resumeOffset < size {
          receiveState := RD;
          return [RE(resumeOffset, config.useChecksum)];
        } else if resumeOffset >= size {
          return [NR];
        }
      }
      file := File([]);
      receiveState := RD;
      if config.useChecksum {
        useChecksum := true;
        out := [RT];
      } else {
        useChecksum := false;
        out := [RF];
      }
    }

    /** handleDataPacket, and the acknowledgement that follows it unless the packet is invalid. */
    method HandleDataPacket(packet: seq<byte>) returns (out: seq<Msg>)
      requires receiveState == RD
      modifies this`receiveState, this`file
      ensures (Receiving(), out) == OnReceiver(config, old(Receiving()), DT(packet))
    {
      if |packet| < 2 {
        receiveState := ReceiveCancelled;
        return [CN];
      }
      var dataLength: int := if packet[1] == 0 then 256 else packet[1] as int;
      if |packet| < dataLength + (if useChecksum then 3 else 2) {
        receiveState := ReceiveCancelled;
        return [CN];
      }
      var data := packet[2..2 + dataLength];
      if useChecksum {
        var calculated := SumUp(data);
        if calculated != packet[2 + dataLength] {
          receiveState := ReceiveCancelled;
          return [CN, Ack];
        }
      }
      file := Appended(file, data);
      out := [Ack];
    }

    method ProcessReceiveModePacket(m: Msg) returns (out: seq<Msg>)
      modifies this`receiveState, this`file, this`useChecksum, this`completed
      ensures (Receiving(), out) == OnReceiver(config, old(Receiving()), m)
    {
      out := [];
      match receiveState {
        case Idle =>
          if m == SI { receiveState := R; out := [RR]; }
        case R =>
          match m {
            case SI => out := [RR];
            case HD(size) => out := HandleHeader(size);
            case ET => receiveState := Idle; out := [AT];
            case _ =>
          }
        case RH =>
          match m {
            case HD(size) => out := HandleHeader(size);
            case ET => receiveState := Idle; out := [AT];
            case _ =>
          }
        case RD =>
          match m {
            case DT(packet) => out := HandleDataPacket(packet);
            case EF => receiveState, completed := RH, true; out := [AF];
            case CN => receiveState := ReceiveCancelled; out := [CA];
            case _ =>
          }
        case ReceiveCancelled =>
      }
    }

    /** The retries of the sender's states. */
    method HandleTimeout() returns (out: seq<Msg>)
      modifies this`sendState
      ensures (Sending(), out) == OnSendTimeout(old(Sending()))
    {
      match sendState {
        case S => out := [SI];
        case SH => out := [HD(|sendBuffer|)];
        case SD => out := Cancel();
        case SE => out := [EF];
        case ST => out := [ET];
        case _ => out := [];
      }
    }
  }
}
