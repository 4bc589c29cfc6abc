/** The container that a compressed mail travels in: a header record with the subject, records of up to
    250 bytes, and a checksum, cut into blocks of up to 128 bytes. */
module MailContainer {
  import opened Bits

  // ----- the checksum

  /** The sum of the first n bytes. */
  function Total(s: seq<byte>, n: nat): nat
    requires n <= |s|
  {
    if n == 0 then 0 else Total(s, n - 1) + s[n - 1]
  }

  function Checksum(payload: seq<byte>): (c: byte) {
    (256 - Total(payload, |payload|) % 256) % 256
  }

  /** The checksum makes the sum of all bytes a multiple of 256. */
  lemma ChecksumCancels(payload: seq<byte>)
    ensures (Total(payload, |payload|) + Checksum(payload)) % 256 == 0
  {
    var n := Total(payload, |payload|);
    assert n == 256 * (n / 256) + n % 256;
    if n % 256 != 0 { assert n + Checksum(payload) == 256 * (n / 256 + 1); }
  }

  method ComputeChecksum(data: seq<byte>) returns (c: byte)
    ensures c == Checksum(data)
  {
    var crc: nat := 0;
    for i := 0 to |data|
      invariant crc == Total(data, i)
    {
      crc := crc + data[i];
    }
    c := (256 - crc % 256) % 256;
  }

  // ----- writing

  const RECORD := 250
  const BLOCK := 128

  function Records(payload: seq<byte>): seq<byte>
    decreases |payload|
  {
    if payload == [] then []
    else
      var n := if |payload| < RECORD then |payload| else RECORD;
      [2, n] + payload[..n] + Records(payload[n..])
  }

  /** The length of the header record is kept in one byte. */
  function Head(subject: seq<byte>): seq<byte> {
    [1, (|subject| + 3) % 256] + subject + [0, 0x30, 0]
  }

  function Output(subject: seq<byte>, payload: seq<byte>): seq<byte> {
    Head(subject) + Records(payload) + [4, Checksum(payload)]
  }

  function Joined(blocks: seq<seq<byte>>): seq<byte> {
    if blocks == [] then [] else Joined(blocks[..|blocks| - 1]) + blocks[|blocks| - 1]
  }

  lemma NextPut(payload: seq<byte>, at: nat, n: nat, parts: seq<byte>)
    requires at < |payload| && n == if |payload| - at < RECORD then |payload| - at else RECORD
    ensures parts + Records(payload[at..]) == parts + [2] + [n] + payload[at..at + n] + Records(payload[at + n..])
  {
    var left := payload[at..];
    assert left[..n] == payload[at..at + n] && left[n..] == payload[at + n..];
    assert Records(left) == [2, n] + left[..n] + Records(left[n..]);
  }

  method PutRecords(payload: seq<byte>, before: seq<byte>) returns (parts: seq<byte>)
    ensures parts == before + Records(payload)
  {
    parts := before;
    var payloadPtr := 0;
    assert payload[0..] == payload;
    while payloadPtr < |payload|
      invariant 0 <= payloadPtr <= |payload| && before + Records(payload) == parts + Records(payload[payloadPtr..])
    {
      var blockSize := if |payload| - payloadPtr < RECORD then |payload| - payloadPtr else RECORD;
      NextPut(payload, payloadPtr, blockSize, parts);
      parts := parts + [2] + [blockSize] + payload[payloadPtr..payloadPtr + blockSize];
      payloadPtr := payloadPtr + blockSize;
    }
    assert payload[payloadPtr..] == [] && parts + [] == parts;
  }

  /** Blocks of 128 bytes, but for the last. */
  method Cut(output: seq<byte>) returns (blocks: seq<seq<byte>>)
    ensures Joined(blocks) == output
    ensures forall k | 0 <= k < |blocks| :: 0 < |blocks[k]| <= BLOCK && (k < |blocks| - 1 ==> |blocks[k]| == BLOCK)
  {
    blocks := [];
    var outputPtr := 0;
    while outputPtr < |output|
      invariant 0 <= outputPtr <= |output| && Joined(blocks) == output[..outputPtr]
      invariant forall k | 0 <= k < |blocks| :: 0 < |blocks[k]| <= BLOCK
      invariant forall k | 0 <= k < |blocks| :: k < |blocks| - 1 || outputPtr < |output| ==> |blocks[k]| == BLOCK
    {
      var blockSize := if |output| - outputPtr < BLOCK then |output| - outputPtr else BLOCK;
      var block := output[outputPtr..outputPtr + blockSize];
      assert (blocks + [block])[..|blocks|] == blocks;
      assert output[..outputPtr] + block == output[..outputPtr + blockSize];
      blocks := blocks + [block];
      outputPtr := outputPtr + blockSize;
    }
    assert output[..outputPtr] == output;
  }

  method EncodeToBlocks(subject: seq<byte>, payload: seq<byte>) returns (blocks: seq<seq<byte>>, compressedSize: nat)
    ensures Joined(blocks) == Output(subject, payload) && compressedSize == |Output(subject, payload)|
    ensures forall k | 0 <= k < |blocks| :: 0 < |blocks[k]| <= BLOCK && (k < |blocks| - 1 ==> |blocks[k]| == BLOCK)
  {
    var parts := PutRecords(payload, Head(subject));
    var checksum := ComputeChecksum(payload);
    var output := parts + [4, checksum];
    blocks := Cut(output);
    compressedSize := |output|;
  }

  // ----- reading

  datatype Scan = Complete(size: nat) | Incomplete

  /** The first look at what has come: how long the payload is, if the checksum record is there. */
  function Look(block: seq<byte>, size: nat, ptr: nat): Scan
    decreases |block| - ptr
  {
    if ptr + 1 >= |block| then Incomplete
    else
      var n: nat := block[ptr + 1];
      if block[ptr] == 1 then Look(block, size, ptr + 2 + n)
      else if block[ptr] == 2 then Look(block, size + n, ptr + 2 + n)
      else if block[ptr] == 4 then Complete(size)
      else Incomplete
  }

  /** A buffer with n bytes of a block copied to a place in it, as far as there are any and there is room. */
  function Copied(payload: seq<byte>, at: nat, block: seq<byte>, from: nat, n: nat): (p: seq<byte>)
    ensures |p| == |payload|
  {
    seq(|payload|, k requires 0 <= k < |payload| =>
      if at <= k < at + n && from + (k - at) < |block| then block[from + (k - at)] else payload[k])
  }

  function Zeros(n: nat): (payload: seq<byte>)
    ensures |payload| == n && forall k | 0 <= k < n :: payload[k] == 0
  {
    seq(n, _ => 0)
  }

  datatype Outcome = Payload(payload: seq<byte>, consumed: nat) | BadChecksum | Hangs

  datatype Step = Go(payload: seq<byte>, at: nat, ptr: nat) | Stop(outcome: Outcome)

  function Next(block: seq<byte>, payload: seq<byte>, at: nat, ptr: nat): (r: Step)
    ensures r.Go? ==> ptr < r.ptr && ptr < |block|
  {
    if ptr + 1 >= |block| then Stop(Payload(payload, ptr))
    else
      var n: nat := block[ptr + 1];
      if block[ptr] == 1 then Go(payload, at, ptr + 2 + n)
      else if block[ptr] == 2 then Go(Copied(payload, at, block, ptr + 2, n), at + n, ptr + 2 + n)
      else if block[ptr] == 4 then if Checksum(payload) != n then Stop(BadChecksum) else Go(payload, at, ptr + 2)
      else Stop(Hangs)
  }

  /** The second look. It does not stop at the checksum record but at the end of what has come, and it
      goes on for ever at a record that it does not know. */
  function Collect(block: seq<byte>, payload: seq<byte>, at: nat, ptr: nat): Outcome
    decreases |block| - ptr
  {
    match Next(block, payload, at, ptr)
    case Stop(outcome) => outcome
    case Go(payload', at', ptr') => Collect(block, payload', at', ptr')
  }

  datatype Unpacked = Nothing | Unpacked(outcome: Outcome)

  function Unpack(block: seq<byte>): Unpacked {
    match Look(block, 0, 0)
    case Incomplete => Nothing
    case Complete(size) => Unpacked.Unpacked(Collect(block, Zeros(size), 0, 0))
  }

  // ----- the records of a container

  /** The block holds these bytes at ptr. */
  ghost predicate Holds(block: seq<byte>, ptr: nat, what: seq<byte>) {
    ptr + |what| <= |block| && forall k | 0 <= k < |what| :: block[ptr + k] == what[k]
  }

  lemma HoldsBoth(block: seq<byte>, ptr: nat, a: seq<byte>, b: seq<byte>)
    ensures Holds(block, ptr, a + b) <==> Holds(block, ptr, a) && Holds(block, ptr + |a|, b)
  {
    if Holds(block, ptr, a + b) {
      forall k | 0 <= k < |a| ensures block[ptr + k] == a[k] { assert block[ptr + k] == (a + b)[k]; }
      forall k | 0 <= k < |b| ensures block[ptr + |a| + k] == b[k] {
        var i := |a| + k;
        assert block[ptr + i] == (a + b)[i];
      }
    }
    if Holds(block, ptr, a) && Holds(block, ptr + |a|, b) {
      forall k | 0 <= k < |a + b| ensures block[ptr + k] == (a + b)[k] {
        if k >= |a| {
          var i := k - |a|;
          assert block[ptr + |a| + i] == b[i];
        }
      }
    }
  }

  lemma {:induction false} RecordsStart(block: seq<byte>, payload: seq<byte>, n: nat, ptr: nat)
    requires payload != [] && n == (if |payload| < RECORD then |payload| else RECORD) && Holds(block, ptr, Records(payload))
    ensures block[ptr] == 2 && block[ptr + 1] == n && Holds(block, ptr + 2, payload[..n]) &&
            Holds(block, ptr + 2 + n, Records(payload[n..])) && |Records(payload)| == 2 + n + |Records(payload[n..])|
  {
    var mark: seq<byte> := [2, n];
    assert Records(payload) == mark + (payload[..n] + Records(payload[n..]));
    HoldsBoth(block, ptr, mark, payload[..n] + Records(payload[n..]));
    HoldsBoth(block, ptr + 2, payload[..n], Records(payload[n..]));
    assert block[ptr + 0] == mark[0] && block[ptr + 1] == mark[1];
  }

  lemma {:induction false} LookAtRecords(block: seq<byte>, payload: seq<byte>, size: nat, ptr: nat)
    requires Holds(block, ptr, Records(payload))
    ensures Look(block, size, ptr) == Look(block, size + |payload|, ptr + |Records(payload)|)
    decreases |payload|
  {
    if payload != [] {
      var n := if |payload| < RECORD then |payload| else RECORD;
      RecordsStart(block, payload, n, ptr);
      LookAtRecords(block, payload[n..], size + n, ptr + 2 + n);
      assert Look(block, size, ptr) == Look(block, size + n, ptr + 2 + n);
    }
  }

  lemma CopiedNext(before: seq<byte>, blank: seq<byte>, block: seq<byte>, from: nat, part: seq<byte>)
    requires |part| <= |blank| && Holds(block, from, part)
    ensures Copied(before + blank, |before|, block, from, |part|) == (before + part) + blank[|part|..]
  {
  }

  lemma NextRecord(block: seq<byte>, payload: seq<byte>, n: nat, before: seq<byte>, blank: seq<byte>, ptr: nat)
    requires payload != [] && n == (if |payload| < RECORD then |payload| else RECORD) && |blank| == |payload|
    requires Holds(block, ptr, Records(payload))
    ensures var next := before + payload[..n];
            Next(block, before + blank, |before|, ptr) == Go(next + blank[n..], |next|, ptr + 2 + n) &&
            Holds(block, ptr + 2 + n, Records(payload[n..])) && |Records(payload)| == 2 + n + |Records(payload[n..])|
  {
    RecordsStart(block, payload, n, ptr);
    CopiedNext(before, blank, block, ptr + 2, payload[..n]);
  }

  /** The second look from here on comes to this. */
  ghost predicate Collects(block: seq<byte>, payload: seq<byte>, at: nat, ptr: nat, end: Outcome) {
    match end
    case Payload(_, _) => Collect(block, payload, at, ptr) == end
    case BadChecksum => Collect(block, payload, at, ptr) == BadChecksum
    case Hangs => Collect(block, payload, at, ptr) == Hangs
  }

  lemma CollectGoes(block: seq<byte>, payload: seq<byte>, at: nat, ptr: nat, step: Step, end: Outcome)
    requires Next(block, payload, at, ptr) == step && step.Go? && Collects(block, step.payload, step.at, step.ptr, end)
    ensures Collects(block, payload, at, ptr, end)
  {
  }

  lemma CollectStays(block: seq<byte>, payload: seq<byte>, at: nat, ptr: nat, end: Outcome)
    requires Collects(block, payload, at, ptr, end)
    ensures match Next(block, payload, at, ptr)
            case Go(payload', at', ptr') => Collects(block, payload', at', ptr', end)
            case Stop(outcome) => outcome == end
  {
  }

  lemma {:induction false} CollectRecords(block: seq<byte>, payload: seq<byte>, before: seq<byte>, blank: seq<byte>,
                                          ptr: nat, end: Outcome)
    requires |blank| == |payload| && Holds(block, ptr, Records(payload))
    requires Collects(block, before + payload, |before| + |payload|, ptr + |Records(payload)|, end)
    ensures Collects(block, before + blank, |before|, ptr, end)
    decreases |payload|
  {
    if payload == [] {
      assert before + payload == before + blank;
    } else {
      var n := if |payload| < RECORD then |payload| else RECORD;
      var next := before + payload[..n];
      NextRecord(block, payload, n, before, blank, ptr);
      assert next + payload[n..] == before + payload && |before| + |payload| == |next| + |payload[n..]|;
      CollectRecords(block, payload[n..], next, blank[n..], ptr + 2 + n, end);
      CollectGoes(block, before + blank, |before|, ptr, Go(next + blank[n..], |next|, ptr + 2 + n), end);
    }
  }

  lemma OutputHolds(subject: seq<byte>, payload: seq<byte>)
    requires |subject| <= 252
    ensures var out, head, records := Output(subject, payload), Head(subject), Records(payload);
            |out| == |head| + |records| + 2 && out[0] == 1 && out[1] == |subject| + 3 && |head| == |subject| + 5 &&
            Holds(out, |head|, records) && Holds(out, |head| + |records|, [4, Checksum(payload)])
  {
    var out, head, records := Output(subject, payload), Head(subject), Records(payload);
    assert Holds(out, 0, out);
    HoldsBoth(out, 0, head + records, [4, Checksum(payload)]);
    HoldsBoth(out, 0, head, records);
  }

  /** The block holds the beginning of these bytes from ptr on, and ends there. */
  ghost predicate HoldsPart(block: seq<byte>, ptr: nat, what: seq<byte>) {
    ptr <= |block| < ptr + |what| && forall k | 0 <= k < |block| - ptr :: block[ptr + k] == what[k]
  }

  lemma PartOn(block: seq<byte>, ptr: nat, what: seq<byte>, n: nat)
    requires HoldsPart(block, ptr, what) && n <= |block| - ptr
    ensures HoldsPart(block, ptr + n, what[n..])
  {
    forall k | 0 <= k < |block| - (ptr + n) ensures block[ptr + n + k] == what[n..][k] {
      var i := n + k;
      assert block[ptr + i] == what[i];
    }
  }

  lemma {:induction false} RecordsCut(block: seq<byte>, payload: seq<byte>, end: seq<byte>, size: nat, ptr: nat)
    requires |end| == 2 && HoldsPart(block, ptr, Records(payload) + end)
    ensures Look(block, size, ptr) == Incomplete
    decreases |payload|
  {
    var all := Records(payload) + end;
    if payload != [] && ptr + 1 < |block| {
      var n := if |payload| < RECORD then |payload| else RECORD;
      var mark: seq<byte> := [2, n];
      assert Records(payload) == mark + payload[..n] + Records(payload[n..]);
      assert block[ptr + 0] == all[0] && block[ptr + 1] == all[1];
      if ptr + 2 + n < |block| {
        PartOn(block, ptr, all, 2 + n);
        assert all[2 + n..] == Records(payload[n..]) + end;
        RecordsCut(block, payload[n..], end, size + n, ptr + 2 + n);
      }
      assert Look(block, size, ptr) == Look(block, size + n, ptr + 2 + n);
    }
  }

  /** Until the last byte has come, what has come is left where it is. */
  lemma PartWaits(subject: seq<byte>, payload: seq<byte>, k: nat)
    requires |subject| <= 252 && k < |Output(subject, payload)|
    ensures Unpack(Output(subject, payload)[..k]) == Nothing
  {
    var all, end: seq<byte> := Output(subject, payload), [4, Checksum(payload)];
    var out, h := all[..k], |Head(subject)|;
    OutputHolds(subject, payload);
    if h <= k {
      assert HoldsPart(out, 0, all);
      PartOn(out, 0, all, h);
      assert all[h..] == Records(payload) + end;
      RecordsCut(out, payload, end, 0, h);
    }
    if k >= 2 { assert Look(out, 0, 0) == Look(out, 0, h); }
  }

  // ----- the payload arrives

  /** A payload arrives, and all bytes are consumed, behind any subject of at most 252 bytes. */
  lemma PayloadArrives(subject: seq<byte>, payload: seq<byte>)
    requires |subject| <= 252
    ensures Unpack(Output(subject, payload)) == Unpacked.Unpacked(Payload(payload, |Output(subject, payload)|))
  {
    Behind(subject, payload, []);
    assert Output(subject, payload) + [] == Output(subject, payload);
  }

  // ----- subjects of any length

  /** No byte of the subject is the type of a record. */
  predicate NoTypes(subject: seq<byte>) {
    forall k | 0 <= k < |subject| :: subject[k] != 1 && subject[k] != 2 && subject[k] != 4
  }

  /** Behind a longer subject the first record ends within the subject; unless the byte there is the type
      of a record, nothing is ever taken. */
  lemma LongSubject(subject: seq<byte>, payload: seq<byte>, tail: seq<byte>)
    requires |subject| > 252
    requires var c := subject[(|subject| + 3) % 256]; c != 1 && c != 2 && c != 4
    ensures Unpack(Output(subject, payload) + tail) == Nothing
  {
    var out, h := Output(subject, payload) + tail, (|subject| + 3) % 256;
    var mark: seq<byte> := [1, h];
    assert out == mark + (subject + ([0, 0x30, 0] + Records(payload) + [4, Checksum(payload)] + tail));
    assert out[0] == 1 && out[1] == h && out[2 + h] == subject[h];
    assert Look(out, 0, 0) == Look(out, 0, 2 + h) == Incomplete;
  }

  /** Behind a subject in which no byte is the type of a record, as none is in printable text, a payload
      arrives exactly if the subject has at most 252 bytes. */
  lemma ArrivesExactly(subject: seq<byte>, payload: seq<byte>)
    requires NoTypes(subject)
    ensures Unpack(Output(subject, payload)) == Unpacked.Unpacked(Payload(payload, |Output(subject, payload)|)) <==>
            |subject| <= 252
  {
    assert Output(subject, payload) + [] == Output(subject, payload);
    if |subject| <= 252 { PayloadArrives(subject, payload); } else { LongSubject(subject, payload, []); }
  }

  // ----- what follows a container

  /** The way through the bytes behind a container, from k on: past records by their lengths and past
      checksum records that agree with the payload, to the end, to one that does not agree, or to a
      record of another type. */
  datatype Way = Through(end: nat) | Disagrees | Unknown

  function Walk(tail: seq<byte>, checksum: byte, k: nat): Way
    decreases |tail| - k
  {
    if k + 1 >= |tail| then Through(k)
    else
      var n: nat := tail[k + 1];
      if tail[k] == 1 || tail[k] == 2 then Walk(tail, checksum, k + 2 + n)
      else if tail[k] == 4 then if n != checksum then Disagrees else Walk(tail, checksum, k + 2)
      else Unknown
  }

  function Ending(way: Way, payload: seq<byte>, base: nat): Outcome {
    match way
    case Through(k) => Payload(payload, base + k)
    case Disagrees => BadChecksum
    case Unknown => Hangs
  }

  lemma NothingCopied(payload: seq<byte>, at: nat, block: seq<byte>, from: nat, n: nat)
    requires at >= |payload|
    ensures Copied(payload, at, block, from, n) == payload
  {
  }

  /** The payload buffer being full, the second look goes that way. */
  lemma {:induction false} CollectBehind(block: seq<byte>, payload: seq<byte>, at: nat, base: nat, tail: seq<byte>, k: nat)
    requires at >= |payload| && Holds(block, base, tail) && |block| == base + |tail|
    ensures Collects(block, payload, at, base + k, Ending(Walk(tail, Checksum(payload), k), payload, base))
    decreases |tail| - k
  {
    if k + 1 < |tail| {
      var n: nat := tail[k + 1];
      assert block[base + k] == tail[k] && block[base + (k + 1)] == tail[k + 1];
      NothingCopied(payload, at, block, base + k + 2, n);
      if tail[k] == 1 {
        CollectBehind(block, payload, at, base, tail, k + 2 + n);
      } else if tail[k] == 2 {
        CollectBehind(block, payload, at + n, base, tail, k + 2 + n);
      } else if tail[k] == 4 && Checksum(payload) == n {
        CollectBehind(block, payload, at, base, tail, k + 2);
      }
    }
  }

  lemma BehindHolds(subject: seq<byte>, payload: seq<byte>, tail: seq<byte>)
    requires |subject| <= 252
    ensures var out, head, records := Output(subject, payload), Head(subject), Records(payload);
            var all := out + tail;
            |out| == |head| + |records| + 2 && all[0] == 1 && all[1] == |subject| + 3 && |head| == |subject| + 5 &&
            Holds(all, |head|, records) && Holds(all, |head| + |records|, [4, Checksum(payload)]) && Holds(all, |out|, tail)
  {
    OutputHolds(subject, payload);
    var out := Output(subject, payload);
    assert Holds(out + tail, 0, out + tail);
    HoldsBoth(out + tail, 0, out, tail);
  }

  lemma CollectChecked(all: seq<byte>, payload: seq<byte>, ptr: nat, end: Outcome)
    requires ptr + 1 < |all| && all[ptr] == 4 && all[ptr + 1] == Checksum(payload)
    requires Collects(all, payload, |payload|, ptr + 2, end)
    ensures Collects(all, payload, |payload|, ptr, end)
  {
    CollectGoes(all, payload, |payload|, ptr, Go(payload, |payload|, ptr + 2), end);
  }

  lemma CollectFirst(all: seq<byte>, payload: seq<byte>, head: nat, end: Outcome)
    requires 1 < |all| && all[0] == 1 && all[1] == head - 2 && Holds(all, head, Records(payload))
    requires Collects(all, payload, |payload|, head + |Records(payload)|, end)
    ensures Collects(all, Zeros(|payload|), 0, 0, end)
  {
    var blank := Zeros(|payload|);
    assert [] + blank == blank && [] + payload == payload;
    CollectRecords(all, payload, [], blank, head, end);
    CollectGoes(all, blank, 0, 0, Go(blank, 0, head), end);
  }

  /** Whatever follows a container, what becomes of the whole is decided by the way through it. */
  lemma Behind(subject: seq<byte>, payload: seq<byte>, tail: seq<byte>)
    requires |subject| <= 252
    ensures var out := Output(subject, payload);
            Unpack(out + tail) == Unpacked.Unpacked(Ending(Walk(tail, Checksum(payload), 0), payload, |out|))
  {
    var out, head := Output(subject, payload), |Head(subject)|;
    var all, end: seq<byte> := out + tail, [4, Checksum(payload)];
    var goal := Ending(Walk(tail, Checksum(payload), 0), payload, |out|);
    var ptr := head + |Records(payload)|;
    BehindHolds(subject, payload, tail);
    assert all[ptr + 0] == end[0] && all[ptr + 1] == end[1];
    BehindLook(subject, payload, tail);
    CollectBehind(all, payload, |payload|, |out|, tail, 0);
    CollectChecked(all, payload, ptr, goal);
    CollectFirst(all, payload, head, goal);
  }

  lemma {:induction false} BehindLook(subject: seq<byte>, payload: seq<byte>, tail: seq<byte>)
    requires |subject| <= 252
    ensures Look(Output(subject, payload) + tail, 0, 0) == Complete(|payload|)
  {
    var all, end: seq<byte> := Output(subject, payload) + tail, [4, Checksum(payload)];
    BehindHolds(subject, payload, tail);
    LookAtRecords(all, payload, 0, |Head(subject)|);
    assert all[|Head(subject)| + |Records(payload)| + 0] == end[0];
    assert Look(all, 0, 0) == Look(all, 0, |Head(subject)|);
  }

  lemma {:induction false} WalkRecords(tail: seq<byte>, payload: seq<byte>, checksum: byte, k: nat)
    requires Holds(tail, k, Records(payload))
    ensures Walk(tail, checksum, k) == Walk(tail, checksum, k + |Records(payload)|)
    decreases |payload|
  {
    if payload != [] {
      var n := if |payload| < RECORD then |payload| else RECORD;
      RecordsStart(tail, payload, n, k);
      WalkRecords(tail, payload[n..], checksum, k + 2 + n);
      assert Walk(tail, checksum, k) == Walk(tail, checksum, k + 2 + n);
    }
  }

  /** A second container behind the first is consumed and lost if its checksum is the same, and spoils
      the first if it is not. */
  lemma SecondContainer(subject: seq<byte>, payload: seq<byte>, subject': seq<byte>, payload': seq<byte>)
    requires |subject| <= 252 && |subject'| <= 252
    ensures var all := Output(subject, payload) + Output(subject', payload');
            Unpack(all) == Unpacked.Unpacked(if Checksum(payload') == Checksum(payload) then Payload(payload, |all|) else BadChecksum)
  {
    var tail, c := Output(subject', payload'), Checksum(payload);
    var end: seq<byte> := [4, Checksum(payload')];
    var ptr := |Head(subject')| + |Records(payload')|;
    OutputHolds(subject', payload');
    WalkRecords(tail, payload', c, |Head(subject')|);
    assert tail[ptr + 0] == end[0] && tail[ptr + 1] == end[1];
    assert Walk(tail, c, 0) == Walk(tail, c, |Head(subject')|);
    assert Walk(tail, c, ptr + 2) == Through(ptr + 2);
    Behind(subject, payload, tail);
  }

  // ----- the second loop as it is

  /** The variables of the second loop; `failed` once it has returned. */
  datatype Loop = Loop(payload: seq<byte>, at: nat, ptr: nat, failed: bool)

  predicate Turning(block: seq<byte>, st: Loop) { !st.failed && st.ptr + 1 < |block| }

  /** The body of the loop. It has no branch for other types. */
  function Body(block: seq<byte>, st: Loop): Loop
    requires Turning(block, st)
  {
    var n: nat := block[st.ptr + 1];
    if block[st.ptr] == 1 then st.(ptr := st.ptr + 2 + n)
    else if block[st.ptr] == 2 then
      Loop(Copied(st.payload, st.at, block, st.ptr + 2, n), st.at + n, st.ptr + 2 + n, false)
    else if block[st.ptr] == 4 then if Checksum(st.payload) != n then st.(failed := true) else st.(ptr := st.ptr + 2)
    else st
  }

  /** The variables after n turns, or at the end of the loop. */
  function Turns(block: seq<byte>, st: Loop, n: nat): Loop
    decreases n
  {
    if n == 0 || !Turning(block, st) then st else Turns(block, Body(block, st), n - 1)
  }

  /** The loop goes on for ever. */
  ghost predicate Endless(block: seq<byte>, st: Loop) {
    forall n: nat :: Turning(block, Turns(block, st, n))
  }

  lemma EndlessBefore(block: seq<byte>, st: Loop, st': Loop)
    requires Turning(block, st) && st' == Body(block, st) && Endless(block, st')
    ensures Endless(block, st)
  {
    forall n: nat ensures Turning(block, Turns(block, st, n)) {
      if n > 0 { assert Turning(block, Turns(block, st', n - 1)); }
    }
  }

  lemma EndlessInPlace(block: seq<byte>, st: Loop)
    requires Turning(block, st) && Body(block, st) == st
    ensures Endless(block, st)
  {
    forall n: nat ensures Turning(block, Turns(block, st, n)) { TurnsInPlace(block, st, n); }
  }

  lemma NotEndless(block: seq<byte>, st: Loop, n: nat)
    requires !Turning(block, Turns(block, st, n))
    ensures !Endless(block, st)
  {
  }

  lemma {:induction false} TurnsInPlace(block: seq<byte>, st: Loop, n: nat)
    requires Turning(block, st) && Body(block, st) == st
    ensures Turns(block, st, n) == st
  {
    if n > 0 { TurnsInPlace(block, st, n - 1); }
  }

  /** When the loop ends, it ends with the outcome; and it goes on for ever exactly if the outcome says so. */
  lemma {:induction false} OutcomeOfLoop(block: seq<byte>, st: Loop, end: Outcome)
    requires !st.failed && Collects(block, st.payload, st.at, st.ptr, end)
    ensures end != Hangs ==> exists n: nat :: EndsWith(block, st, n, end)
    ensures end == Hangs ==> Endless(block, st)
    decreases |block| - st.ptr
  {
    CollectStays(block, st.payload, st.at, st.ptr, end);
    match Next(block, st.payload, st.at, st.ptr)
    case Go(payload, at, ptr) =>
      var st' := Loop(payload, at, ptr, false);
      assert Body(block, st) == st';
      OutcomeOfLoop(block, st', end);
      if end != Hangs {
        var n: nat :| EndsWith(block, st', n, end);
        assert EndsWith(block, st, n + 1, end);
      } else {
        EndlessBefore(block, st, st');
      }
    case Stop(_) =>
      if !Turning(block, st) {
        assert EndsWith(block, st, 0, end);
      } else if end == BadChecksum {
        assert Turns(block, st, 1) == Turns(block, Body(block, st), 0);
        assert EndsWith(block, st, 1, end);
      } else {
        EndlessInPlace(block, st);
      }
  }

  ghost predicate EndsWith(block: seq<byte>, st: Loop, n: nat, end: Outcome) {
    var last := Turns(block, st, n);
    !Turning(block, last) && end == if last.failed then BadChecksum else Payload(last.payload, last.ptr)
  }

  /** The second loop over a container and what follows it goes on for ever exactly if the way through
      what follows leads to a record of another type. */
  lemma NeverEnds(subject: seq<byte>, payload: seq<byte>, tail: seq<byte>)
    requires |subject| <= 252
    ensures var block, start := Output(subject, payload) + tail, Loop(Zeros(|payload|), 0, 0, false);
            Endless(block, start) <==> Walk(tail, Checksum(payload), 0) == Unknown
  {
    var block, start := Output(subject, payload) + tail, Loop(Zeros(|payload|), 0, 0, false);
    var end := Ending(Walk(tail, Checksum(payload), 0), payload, |Output(subject, payload)|);
    Behind(subject, payload, tail);
    BehindLook(subject, payload, tail);
    OutcomeOfLoop(block, start, end);
    assert end == Hangs <==> Walk(tail, Checksum(payload), 0) == Unknown;
    GoesOn(block, start, end);
  }

  lemma GoesOn(block: seq<byte>, st: Loop, end: Outcome)
    requires end != Hangs ==> exists n: nat :: EndsWith(block, st, n, end)
    requires end == Hangs ==> Endless(block, st)
    ensures Endless(block, st) <==> end == Hangs
  {
    if end != Hangs {
      var n: nat :| EndsWith(block, st, n, end);
      NotEndless(block, st, n);
    }
  }

  // ----- the loops

  method FindSize(block: seq<byte>) returns (complete: bool, payloadLen: nat)
    ensures Look(block, 0, 0) == if complete then Complete(payloadLen) else Incomplete
  {
    complete, payloadLen := false, 0;
    var ptr: nat := 0;
    while !complete && ptr + 1 < |block|
      invariant Look(block, 0, 0) == if complete then Complete(payloadLen) else Look(block, payloadLen, ptr)
      decreases !complete, |block| - ptr
    {
      var cmd := block[ptr];
      if cmd == 1 {
        var cmdlen: nat := block[ptr + 1];
        ptr := ptr + 2 + cmdlen;
      } else if cmd == 2 {
        var cmdlen: nat := block[ptr + 1];
        payloadLen := payloadLen + cmdlen;
        ptr := ptr + 2 + cmdlen;
      } else if cmd == 4 {
        ptr := ptr + 2;
        complete := true;
      } else {
        return false, 0;
      }
    }
  }

  method CollectPayload(block: seq<byte>, payloadLen: nat) returns (r: Outcome)
    ensures r == Collect(block, Zeros(payloadLen), 0, 0)
  {
    var payload: seq<byte> := Zeros(payloadLen);
    var payloadPtr: nat, ptr: nat := 0, 0;
    ghost var end := Collect(block, payload, 0, 0);
    while ptr + 1 < |block|
      invariant Collects(block, payload, payloadPtr, ptr, end)
      decreases |block| - ptr
    {
      var cmd := block[ptr];
      var cmdlen: nat := block[ptr + 1];
      CollectStays(block, payload, payloadPtr, ptr, end);
      if cmd == 1 {
        ptr := ptr + 2 + cmdlen;
      } else if cmd == 2 {
        payload := Copied(payload, payloadPtr, block, ptr + 2, cmdlen);
        payloadPtr := payloadPtr + cmdlen;
        ptr := ptr + 2 + cmdlen;
      } else if cmd == 4 {
        var checksum := ComputeChecksum(payload);
        if checksum != cmdlen { return BadChecksum; }
        ptr := ptr + 2;
      } else {
        return Hangs;
      }
    }
    r := Payload(payload, ptr);
  }

  /** decodeBlocksToEmail, up to the payload. */
  method UnpackBlocks(block: seq<byte>) returns (r: Unpacked)
    ensures r == Unpack(block)
  {
    if |block| == 0 { return Nothing; }
    var complete, payloadLen := FindSize(block);
    if !complete { return Nothing; }
    var outcome := CollectPayload(block, payloadLen);
    r := Unpacked.Unpacked(outcome);
  }
}
