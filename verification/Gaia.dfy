/** The GAIA framing of commands on the serial link, and the accumulator that takes them apart. */
module Gaia {
  import opened Bits

  const SYNC: byte := 0xFF
  const VERSION: byte := 0x01
  const HEADER_LENGTH := 8

  /** _gaiaEncode: a command of 4 to 259 bytes in its frame; the length byte counts what follows the
      command's own four header bytes. */
  function Encode(cmd: seq<byte>): (frame: seq<byte>)
    requires 4 <= |cmd| <= 259
    ensures |frame| == |cmd| + 4
  {
    [SYNC, VERSION, 0, |cmd| - 4] + cmd
  }

  datatype Decoded = Decoded(size: int, cmd: seq<byte>)

  /** The number of bytes before the next sync byte at or after i, or to the last byte. */
  function NextSync(data: seq<byte>, i: nat): (n: nat)
    requires 1 <= i <= |data|
    ensures n >= 1 || |data| == 1
    decreases |data| - i
  {
    if i == |data| then |data| - 1 else if data[i] == SYNC then i else NextSync(data, i + 1)
  }

  /** _gaiaDecode at the start of the buffer: 0 for "not enough data", a negative size for bytes that
      cannot start a frame, else a command and the size of its frame. */
  function Decode(data: seq<byte>): (d: Decoded)
    ensures d.size > 0 ==> 8 <= d.size <= |data|
    ensures d.size < 0 ==> |data| >= 8
  {
    if |data| < HEADER_LENGTH then Decoded(0, [])
    else if data[0] != SYNC || data[1] != VERSION then var skip: int := NextSync(data, 1); Decoded(-skip, [])
    else
      var payloadLength := data[3];
      var totalLength := payloadLength + HEADER_LENGTH + data[2] % 2;
      if totalLength > |data| then Decoded(0, []) else Decoded(totalLength, data[4..8 + payloadLength])
  }

  /** What the listener's loop makes of an accumulator: the commands it reports and what it keeps. Of
      bytes that cannot start a frame it drops one at a time, whatever their number. */
  function Parse(acc: seq<byte>): (r: (seq<seq<byte>>, seq<byte>))
    decreases |acc|
  {
    var d := Decode(acc);
    if d.size == 0 then ([], acc)
    else if d.size < 0 then Parse(acc[1..])
    else var (cmds, rest) := Parse(acc[d.size..]); ([d.cmd] + cmds, rest)
  }

  // ----- chunks

  /** More data does not change a decision once it has been taken. */
  lemma DecodeStable(a: seq<byte>, b: seq<byte>)
    requires Decode(a).size != 0
    ensures Decode(a).size > 0 ==> Decode(a + b) == Decode(a)
    ensures Decode(a).size < 0 ==> Decode(a + b).size < 0
  {
    if Decode(a).size > 0 {
      var n: int := a[3] as int + 8;
      assert (a + b)[4..n] == a[4..n];
    }
  }

  /** Parsing in two goes is parsing in one. */
  lemma {:induction false} ParseInTwo(a: seq<byte>, b: seq<byte>)
    ensures var (cmds, rest) := Parse(a);
            var (more, rest') := Parse(rest + b);
            Parse(a + b) == (cmds + more, rest')
    decreases |a|
  {
    var d := Decode(a);
    if d.size == 0 {
      assert [] + Parse(a + b).0 == Parse(a + b).0;
    } else {
      DecodeStable(a, b);
      var n := if d.size < 0 then 1 else d.size;
      assert (a + b)[n..] == a[n..] + b;
      ParseInTwo(a[n..], b);
      if d.size > 0 {
        var (cmds, rest) := Parse(a[n..]);
        var (more, _) := Parse(rest + b);
        assert [d.cmd] + (cmds + more) == ([d.cmd] + cmds) + more;
      }
    }
  }

  function Concat(chunks: seq<seq<byte>>): seq<byte> {
    if chunks == [] then [] else chunks[0] + Concat(chunks[1..])
  }

  /** The commands reported while the chunks come in one after another, and what is left. */
  function Feed(acc: seq<byte>, chunks: seq<seq<byte>>): (seq<seq<byte>>, seq<byte>)
    decreases |chunks|
  {
    if chunks == [] then ([], acc)
    else
      var (cmds, rest) := Parse(acc + chunks[0]);
      var (more, rest') := Feed(rest, chunks[1..]);
      (cmds + more, rest')
  }

  /** The accumulator is exhausted: nothing more is reported until more data comes. */
  ghost predicate Idle(acc: seq<byte>) {
    Parse(acc) == ([], acc)
  }

  lemma {:induction false} ParseIdle(acc: seq<byte>)
    ensures Idle(Parse(acc).1)
    decreases |acc|
  {
    var d := Decode(acc);
    if d.size != 0 { ParseIdle(acc[if d.size < 0 then 1 else d.size..]); }
  }

  /** However the data is cut into chunks, the commands are those of the data as a whole. */
  lemma {:induction false} ChunksDoNotMatter(acc: seq<byte>, chunks: seq<seq<byte>>)
    requires Idle(acc)
    ensures Feed(acc, chunks) == Parse(acc + Concat(chunks))
    decreases |chunks|
  {
    if chunks == [] {
      assert acc + [] == acc;
    } else {
      var first, tail := acc + chunks[0], Concat(chunks[1..]);
      var (cmds, rest) := Parse(first);
      assert Idle(rest) by { ParseIdle(first); }
      ChunksDoNotMatter(rest, chunks[1..]);
      assert Parse(first + tail) == Feed(acc, chunks) by { ParseInTwo(first, tail); }
      assert acc + Concat(chunks) == first + tail;
    }
  }

  // ----- round trip

  ghost predicate Sendable(cmds: seq<seq<byte>>) {
    forall k | 0 <= k < |cmds| :: 4 <= |cmds[k]| <= 259
  }

  function Frames(cmds: seq<seq<byte>>): seq<byte>
    requires Sendable(cmds)
  {
    if cmds == [] then [] else Encode(cmds[0]) + Frames(cmds[1..])
  }

  lemma {:induction false} FramesParse(cmds: seq<seq<byte>>)
    requires Sendable(cmds)
    ensures Parse(Frames(cmds)) == (cmds, [])
    decreases |cmds|
  {
    if cmds != [] {
      FramesParse(cmds[1..]);
      FrameDecodes(cmds[0], Frames(cmds[1..]));
      assert [cmds[0]] + cmds[1..] == cmds;
    }
  }

  lemma FrameDecodes(cmd: seq<byte>, more: seq<byte>)
    requires 4 <= |cmd| <= 259
    ensures Decode(Encode(cmd) + more) == Decoded(|Encode(cmd)|, cmd)
    ensures (Encode(cmd) + more)[|Encode(cmd)|..] == more
  {
    var all := Encode(cmd) + more;
    assert all[0] == SYNC && all[1] == VERSION && all[2] == 0 && all[3] == |cmd| - 4;
    assert all[4..4 + |cmd|] == cmd;
  }

  /** Noise without a sync byte costs no command, provided that something follows it. */
  lemma {:induction false} NoiseParse(noise: seq<byte>, cmds: seq<seq<byte>>)
    requires SYNC !in noise && Sendable(cmds) && cmds != []
    ensures Parse(noise + Frames(cmds)) == (cmds, [])
    decreases |noise|
  {
    if noise == [] {
      assert noise + Frames(cmds) == Frames(cmds);
      FramesParse(cmds);
    } else {
      var all := noise + Frames(cmds);
      assert all[0] == noise[0] != SYNC && |all| >= 8;
      assert all[1..] == noise[1..] + Frames(cmds);
      NoiseParse(noise[1..], cmds);
    }
  }

  /** Any sequence of commands, sent over a link that cuts the data as it likes, arrives. */
  lemma CommandsArrive(noise: seq<byte>, cmds: seq<seq<byte>>, chunks: seq<seq<byte>>)
    requires SYNC !in noise && Sendable(cmds) && cmds != [] && Concat(chunks) == noise + Frames(cmds)
    ensures Feed([], chunks) == (cmds, [])
  {
    ChunksDoNotMatter([], chunks);
    assert [] + Concat(chunks) == Concat(chunks);
    NoiseParse(noise, cmds);
  }

  // ----- the client

  class GaiaClient {
    var accumulator: seq<byte>

    constructor ()
      ensures accumulator == []
    {
      accumulator := [];
    }

    /** The data listener: its loop ends on every input. */
    method OnData(data: seq<byte>) returns (cmds: seq<seq<byte>>)
      modifies this
      ensures (cmds, accumulator) == Parse(old(accumulator) + data)
    {
      accumulator := accumulator + data;
      cmds := [];
      ghost var all := Parse(accumulator);
      assert [] + all.0 == all.0;
      while true
        invariant var (more, rest) := Parse(accumulator); all == (cmds + more, rest)
        decreases |accumulator|
      {
        var d := Decode(accumulator);
        if d.size == 0 {
          assert cmds + [] == cmds;
          break;
        }
        if d.size < 0 {
          accumulator := accumulator[1..];
        } else {
          ghost var (more, rest) := Parse(accumulator[d.size..]);
          assert cmds + ([d.cmd] + more) == cmds + [d.cmd] + more;
          cmds := cmds + [d.cmd];
          accumulator := accumulator[d.size..];
        }
      }
    }
  }
}
