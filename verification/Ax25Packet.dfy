/** AX.25 frames with modulo-8 sequence numbers as bytes, and back (sections 3.12 and 4.2 of AX.25 v2.2). */
module Ax25Packet {
  import opened Bits

  /** A station's address: 1 to 6 characters, and an SSID. */
  datatype Address = Address(name: seq<nat>, ssid: nat) {
    predicate Ok() { 1 <= |name| <= 6 && ssid <= 15 }

    /** No blanks, which are padding, and no characters beyond 7 bits. */
    ghost predicate Printable() { forall k | 0 <= k < |name| :: 0x21 <= name[k] <= 0x7F }
  }

  const I_FRAME := 0
  const UI_FRAME := 3

  /** The declared frame types, by the bits they have in a control byte. */
  const S_FRAMES: set<nat> := {0x01, 0x05, 0x09, 0x0D}
  const U_FRAMES: set<nat> := {0x03, 0x2F, 0x6B, 0x43, 0x0F, 0x63, 0x87, 0xAF, 0xE3}

  datatype Packet = Packet(addresses: seq<Address>, kind: nat, command: bool, pollFinal: bool, nr: nat, ns: nat,
                           pid: int, data: seq<byte>)

  predicate KindOk(kind: nat) { kind == I_FRAME || kind in S_FRAMES || kind in U_FRAMES }

  predicate HasPid(kind: nat) { kind == I_FRAME || kind == UI_FRAME }

  predicate PacketOk(p: Packet) {
    p.addresses != [] && (forall k | 0 <= k < |p.addresses| :: p.addresses[k].Ok()) &&
    KindOk(p.kind) && p.nr < 8 && p.ns < 8 && 0 <= p.pid < 256
  }

  // ----- encoding

  /** Character k of a name, padded with blanks, shifted left into a byte. */
  function NameByte(name: seq<nat>, k: nat): byte {
    (2 * (if k < |name| then name[k] else 0x20)) % 256
  }

  function AddressBytes(a: Address, crBit1: bool, last: bool): (s: seq<byte>)
    requires a.ssid <= 15
    ensures |s| == 7
  {
    [NameByte(a.name, 0), NameByte(a.name, 1), NameByte(a.name, 2), NameByte(a.name, 3), NameByte(a.name, 4),
     NameByte(a.name, 5),
     2 * a.ssid + (if crBit1 then 0x80 else 0) + 0x40 + 0x20 + if last then 1 else 0]
  }

  /** The command bit of the first address is set for commands, that of the second for responses. */
  function CommandBit(j: nat, command: bool): bool { (j == 0 && command) || (j == 1 && !command) }

  function AddressesBytes(addresses: seq<Address>, j: nat, command: bool): (s: seq<byte>)
    requires forall k | 0 <= k < |addresses| :: addresses[k].ssid <= 15
    requires j <= |addresses|
    ensures |s| == 7 * (|addresses| - j)
    decreases |addresses| - j
  {
    if j == |addresses| then []
    else AddressBytes(addresses[j], CommandBit(j, command), j == |addresses| - 1) + AddressesBytes(addresses, j + 1, command)
  }

  function Control(kind: nat, nr: nat, ns: nat, pollFinal: bool): (c: nat)
    requires KindOk(kind) && nr < 8 && ns < 8
    ensures c < 256
  {
    kind + (if kind == I_FRAME || kind in S_FRAMES then 32 * nr else 0) + (if kind == I_FRAME then 2 * ns else 0) +
    if pollFinal then 16 else 0
  }

  /** toByteArray */
  function Encode(p: Packet): seq<byte>
    requires PacketOk(p)
  {
    AddressesBytes(p.addresses, 0, p.command) + [Control(p.kind, p.nr, p.ns, p.pollFinal)] +
    (if HasPid(p.kind) then [p.pid] else []) + p.data
  }

  // ----- decoding

  datatype Option<T> = None | Some(value: T)

  datatype Part = Part(addr: Address, crBit1: bool, crBit2: bool, last: bool)

  /** The characters of a name without the blanks; nothing if one of them is no character. */
  function DecodeName(data: seq<byte>, i: nat, n: nat): Option<seq<nat>>
    requires i + n <= |data|
  {
    if n == 0 then Some([])
    else
      var c := data[i + n - 1] / 2;
      if c < 0x20 || data[i + n - 1] % 2 != 0 then None
      else
        match DecodeName(data, i, n - 1)
        case None => None
        case Some(name) => if c != 0x20 then Some(name + [c]) else Some(name)
  }

  /** decodeAX25Address; a name of blanks only fails as well. */
  function DecodeAddress(data: seq<byte>, i: nat): Option<Part> {
    if i + 7 > |data| then None
    else
      match DecodeName(data, i, 6)
      case None => None
      case Some(name) =>
        var b := data[i + 6];
        if name == [] then None
        else Some(Part(Address(name, b / 2 % 16), b / 0x80 % 2 == 1, b / 0x40 % 2 == 1, b % 2 == 1))
  }

  /** The loop over the addresses, up to the one marked as the last. */
  function DecodeAddresses(data: seq<byte>, i: nat): (r: Option<seq<Part>>)
    ensures r.Some? ==> r.value != []
    decreases |data| - i
  {
    match DecodeAddress(data, i)
    case None => None
    case Some(part) =>
      if part.last then Some([part])
      else
        match DecodeAddresses(data, i + 7)
        case None => None
        case Some(rest) => Some([part] + rest)
  }

  function Addresses(parts: seq<Part>): (a: seq<Address>)
    ensures |a| == |parts|
  {
    seq(|parts|, k requires 0 <= k < |parts| => parts[k].addr)
  }

  function ByteAt(data: seq<byte>, i: nat): byte { if i < |data| then data[i] else 0 }

  function From(data: seq<byte>, i: nat): seq<byte> { if i <= |data| then data[i..] else [] }

  /** What follows the addresses of a frame with modulo-8 numbers. A control byte that is not there
      counts as zero; a PID that is not there is told by -1. */
  function DecodeRest(data: seq<byte>, i: nat, addresses: seq<Address>, command: bool): Packet {
    var c := ByteAt(data, i);
    var pf := c / 16 % 2 == 1;
    var pid: int := if i + 1 < |data| then data[i + 1] as int else -1;
    if c % 4 == 3 then
      var kind := c - (if pf then 16 else 0);
      if kind == UI_FRAME then Packet(addresses, kind, command, pf, 0, 0, pid, From(data, i + 2))
      else Packet(addresses, kind, command, pf, 0, 0, 0, From(data, i + 1))
    else if c % 4 == 1 then Packet(addresses, c % 16, command, pf, c / 32, 0, 0, From(data, i + 1))
    else Packet(addresses, I_FRAME, command, pf, c / 32, c / 2 % 8, pid, From(data, i + 2))
  }

  /** Failed is the result null; Thrown is the exception that taking apart a missing address raises. */
  datatype Decoded = Failed | Thrown | OtherFormat | Frame(packet: Packet)

  /** decodeAX25Packet; frames with modulo-128 numbers and the format that starts with a byte 1 are
      told apart only. */
  function Decode(data: seq<byte>): Decoded {
    if |data| < 6 then Failed
    else if data[0] == 1 then OtherFormat
    else
      match DecodeAddresses(data, 0)
      case None => Thrown
      case Some(parts) =>
        if !parts[0].crBit2 then OtherFormat
        else Frame(DecodeRest(data, 7 * |parts|, Addresses(parts), parts[0].crBit1))
  }

  /** The packet with the fields its type does not carry left at zero. */
  function Carried(p: Packet): Packet {
    p.(nr := if p.kind == I_FRAME || p.kind in S_FRAMES then p.nr else 0,
       ns := if p.kind == I_FRAME then p.ns else 0,
       pid := if HasPid(p.kind) then p.pid else 0)
  }

  // ----- names

  /** What is left of a name: characters lose their eighth bit, and blanks are dropped. */
  function Kept(name: seq<nat>): (kept: seq<nat>)
    ensures |kept| <= |name|
  {
    if name == [] then []
    else
      var c := name[|name| - 1] % 128;
      Kept(name[..|name| - 1]) + if c == 0x20 then [] else [c]
  }

  ghost predicate NoControls(name: seq<nat>) {
    forall k | 0 <= k < |name| :: name[k] % 128 >= 0x20
  }

  lemma NoControlsSnoc(name: seq<nat>, c: nat)
    ensures NoControls(name + [c]) <==> NoControls(name) && c % 128 >= 0x20
  {
    var more := name + [c];
    if NoControls(more) {
      forall k | 0 <= k < |name| ensures name[k] % 128 >= 0x20 { assert more[k] % 128 >= 0x20; }
      assert more[|name|] % 128 >= 0x20;
    }
  }

  lemma KeptSnoc(name: seq<nat>, c: nat)
    ensures Kept(name + [c]) == if c % 128 == 0x20 then Kept(name) else Kept(name) + [c % 128]
  {
    assert (name + [c])[..|name|] == name;
    assert Kept(name) + [] == Kept(name);
  }

  /** The part of a name that its first n characters are; all of it, when they reach into the padding. */
  function Start(name: seq<nat>, n: nat): seq<nat> { if n <= |name| then name[..n] else name }

  /** What one more character makes of the name so far. */
  function Longer(name: Option<seq<nat>>, c: nat): Option<seq<nat>> {
    if c < 0x20 || name == None then None
    else if c != 0x20 then Some(name.value + [c]) else name
  }

  lemma DecodeNameStep(data: seq<byte>, i: nat, k: nat)
    requires i + k < |data| && data[i + k] % 2 == 0
    ensures DecodeName(data, i, k + 1) == Longer(DecodeName(data, i, k), data[i + k] / 2)
  {
  }

  lemma LongerKept(name: seq<nat>, c: nat)
    ensures Longer(if NoControls(name) then Some(Kept(name)) else None, c % 128) ==
            if NoControls(name + [c]) then Some(Kept(name + [c])) else None
  {
    NoControlsSnoc(name, c);
    KeptSnoc(name, c);
  }

  lemma {:induction false} NameDecodes(name: seq<nat>, data: seq<byte>, i: nat, n: nat)
    requires i + n <= |data| && forall k | 0 <= k < n :: data[i + k] == NameByte(name, k)
    ensures DecodeName(data, i, n) == if NoControls(Start(name, n)) then Some(Kept(Start(name, n))) else None
  {
    if n == 0 {
      assert Start(name, 0) == [];
    } else {
      var k := n - 1;
      NameDecodes(name, data, i, k);
      assert data[i + k] == NameByte(name, k);
      NameByteIs(name, k);
      DecodeNameStep(data, i, k);
      if n <= |name| {
        assert Start(name, n) == Start(name, k) + [name[k]];
        LongerKept(Start(name, k), name[k]);
      } else {
        assert Start(name, n) == Start(name, k);
      }
    }
  }

  lemma NameByteIs(name: seq<nat>, k: nat)
    ensures NameByte(name, k) % 2 == 0 && NameByte(name, k) / 2 == if k < |name| then name[k] % 128 else 0x20
  {
  }

  ghost predicate Plain(name: seq<nat>) { forall k | 0 <= k < |name| :: 0x21 <= name[k] <= 0x7F }

  lemma PlainSnoc(name: seq<nat>, c: nat)
    ensures Plain(name + [c]) <==> Plain(name) && 0x21 <= c <= 0x7F
  {
    var more := name + [c];
    if Plain(more) {
      forall k | 0 <= k < |name| ensures 0x21 <= name[k] <= 0x7F { assert 0x21 <= more[k] <= 0x7F; }
      assert 0x21 <= more[|name|] <= 0x7F;
    }
  }

  lemma KeptSame(name: seq<nat>, c: nat)
    ensures Kept(name + [c]) == name + [c] <==> Kept(name) == name && c % 128 != 0x20 && c < 128
  {
    KeptSnoc(name, c);
    var more := name + [c];
    if Kept(more) == more && c % 128 != 0x20 {
      assert (Kept(name) + [c % 128])[|Kept(name)|] == more[|name|];
      assert (Kept(name) + [c % 128])[..|Kept(name)|] == more[..|name|];
    }
  }

  lemma {:induction false} KeptIsName(name: seq<nat>)
    ensures NoControls(name) && Kept(name) == name <==> Plain(name)
  {
    if name != [] {
      var init, c := name[..|name| - 1], name[|name| - 1];
      KeptIsName(init);
      assert name == init + [c];
      NoControlsSnoc(init, c);
      KeptSame(init, c);
      PlainSnoc(init, c);
    }
  }

  // ----- addresses

  /** An address arrives exactly if its name has neither blanks nor control characters nor characters
      beyond 7 bits; and its flags always do, if anything does. */
  lemma AddressArrives(a: Address, crBit1: bool, last: bool, data: seq<byte>, i: nat)
    requires a.Ok() && i + 7 <= |data| && data[i..i + 7] == AddressBytes(a, crBit1, last)
    ensures DecodeAddress(data, i) == Some(Part(a, crBit1, true, last)) <==> a.Printable()
    ensures DecodeAddress(data, i).Some? ==>
              var part := DecodeAddress(data, i).value;
              part.crBit1 == crBit1 && part.crBit2 && part.last == last && part.addr.ssid == a.ssid
  {
    var bytes := AddressBytes(a, crBit1, last);
    forall k | 0 <= k < 7 ensures data[i + k] == bytes[k] {
      assert data[i + k] == data[i..i + 7][k];
    }
    NameDecodes(a.name, data, i, 6);
    assert Start(a.name, 6) == a.name;
    KeptIsName(a.name);
    assert Plain(a.name) <==> a.Printable();
    FlagsArrive(a.ssid, crBit1, last);
  }

  lemma FlagsArrive(ssid: nat, crBit1: bool, last: bool)
    requires ssid <= 15
    ensures var b := 2 * ssid + (if crBit1 then 0x80 else 0) + 0x40 + 0x20 + if last then 1 else 0;
            b / 2 % 16 == ssid && (b / 0x80 % 2 == 1 <==> crBit1) && b / 0x40 % 2 == 1 && (b % 2 == 1 <==> last)
  {
  }

  // ----- frames

  function Parts(addresses: seq<Address>, j: nat, command: bool): (parts: seq<Part>)
    requires j <= |addresses|
    ensures |parts| == |addresses| - j
    decreases |addresses| - j
  {
    if j == |addresses| then []
    else [Part(addresses[j], CommandBit(j, command), true, j == |addresses| - 1)] + Parts(addresses, j + 1, command)
  }

  lemma {:induction false} PartsHold(addresses: seq<Address>, j: nat, command: bool)
    requires j <= |addresses|
    ensures Addresses(Parts(addresses, j, command)) == addresses[j..]
    decreases |addresses| - j
  {
    if j < |addresses| {
      PartsHold(addresses, j + 1, command);
      var rest := Parts(addresses, j + 1, command);
      assert Addresses(Parts(addresses, j, command)) == [addresses[j]] + Addresses(rest);
    }
  }

  lemma {:induction false} AddressesArrive(addresses: seq<Address>, j: nat, command: bool, data: seq<byte>, i: nat)
    requires forall k | 0 <= k < |addresses| :: addresses[k].Ok() && addresses[k].ssid <= 15 && addresses[k].Printable()
    requires j < |addresses| && i + 7 * (|addresses| - j) <= |data|
    requires data[i..i + 7 * (|addresses| - j)] == AddressesBytes(addresses, j, command)
    ensures DecodeAddresses(data, i) == Some(Parts(addresses, j, command))
    decreases |addresses| - j
  {
    var rest := AddressesBytes(addresses, j + 1, command);
    var first := AddressBytes(addresses[j], CommandBit(j, command), j == |addresses| - 1);
    SplitAt(data, i, first, rest);
    AddressArrives(addresses[j], CommandBit(j, command), j == |addresses| - 1, data, i);
    if j + 1 < |addresses| {
      AddressesArrive(addresses, j + 1, command, data, i + 7);
    } else {
      assert Parts(addresses, j, command) == [Part(addresses[j], CommandBit(j, command), true, true)];
    }
  }

  lemma SplitAt(data: seq<byte>, i: nat, first: seq<byte>, rest: seq<byte>)
    requires i + |first| + |rest| <= |data| && data[i..i + (|first| + |rest|)] == first + rest
    ensures data[i..i + |first|] == first && data[i + |first|..i + |first| + |rest|] == rest
  {
    var both := first + rest;
    forall k | 0 <= k < |both| ensures data[i + k] == both[k] { assert data[i..i + |both|][k] == both[k]; }
    assert both[..|first|] == first && both[|first|..] == rest;
  }

  /** The control byte tells the type, and the numbers that the type has. */
  lemma ControlOfI(nr: nat, ns: nat, pollFinal: bool)
    requires nr < 8 && ns < 8
    ensures var c := Control(I_FRAME, nr, ns, pollFinal);
            (c / 16 % 2 == 1 <==> pollFinal) && c % 4 != 1 && c % 4 != 3 && c / 32 == nr && c / 2 % 8 == ns
  {
  }

  lemma ControlOfS(kind: nat, nr: nat, ns: nat, pollFinal: bool)
    requires kind in S_FRAMES && nr < 8 && ns < 8
    ensures var c := Control(kind, nr, ns, pollFinal);
            (c / 16 % 2 == 1 <==> pollFinal) && c % 4 == 1 && c % 16 == kind && c / 32 == nr
  {
    assert kind % 4 == 1 && kind < 16;
  }

  lemma ControlOfU(kind: nat, nr: nat, ns: nat, pollFinal: bool)
    requires kind in U_FRAMES && nr < 8 && ns < 8
    ensures var c := Control(kind, nr, ns, pollFinal);
            (c / 16 % 2 == 1 <==> pollFinal) && c % 4 == 3 && c - (if pollFinal then 16 else 0) == kind
  {
    assert kind % 4 == 3 && kind / 16 % 2 == 0 && kind !in S_FRAMES;
  }

  lemma RestArrives(p: Packet, head: seq<byte>, command: bool)
    requires PacketOk(p)
    ensures DecodeRest(head + [Control(p.kind, p.nr, p.ns, p.pollFinal)] + (if HasPid(p.kind) then [p.pid] else []) + p.data,
                       |head|, p.addresses, command) == Carried(p.(command := command))
  {
    var c := Control(p.kind, p.nr, p.ns, p.pollFinal);
    var all := head + [c] + (if HasPid(p.kind) then [p.pid] else []) + p.data;
    if p.kind == I_FRAME { ControlOfI(p.nr, p.ns, p.pollFinal); }
    else if p.kind in S_FRAMES { ControlOfS(p.kind, p.nr, p.ns, p.pollFinal); }
    else { ControlOfU(p.kind, p.nr, p.ns, p.pollFinal); }
    assert all[|head|] == c;
    if HasPid(p.kind) {
      assert all[|head| + 1] == p.pid && all[|head| + 2..] == p.data;
    } else {
      assert all[|head| + 1..] == p.data;
    }
  }

  /** Every frame with printable addresses comes back with all it carries. */
  lemma FrameArrives(p: Packet)
    requires PacketOk(p) && forall k | 0 <= k < |p.addresses| :: p.addresses[k].Printable()
    ensures Decode(Encode(p)) == Frame(Carried(p))
  {
    var head := AddressesBytes(p.addresses, 0, p.command);
    var data := Encode(p);
    assert data[0..0 + |head|] == head;
    AddressesArrive(p.addresses, 0, p.command, data, 0);
    RestArrives(p, head, p.command);
    var parts := Parts(p.addresses, 0, p.command);
    PartsHold(p.addresses, 0, p.command);
    assert p.addresses[0..] == p.addresses;
    assert parts[0] == Part(p.addresses[0], p.command, true, 0 == |p.addresses| - 1);
    NameByteIs(p.addresses[0].name, 0);
    assert data[0] == head[0] == NameByte(p.addresses[0].name, 0);
    assert |data| >= 8;
  }

  // ----- the frames as the code builds and takes them apart

  method AddressToByteArray(a: Address, crBit1: bool, last: bool) returns (rdata: array<byte>)
    requires a.Ok()
    ensures fresh(rdata) && rdata[..] == AddressBytes(a, crBit1, last)
  {
    rdata := new byte[7](_ => 0);
    var addressPadded := a.name;
    while |addressPadded| < 6
      invariant |a.name| <= |addressPadded| <= 6
      invariant forall k | 0 <= k < |addressPadded| :: addressPadded[k] == if k < |a.name| then a.name[k] else 0x20
    {
      addressPadded := addressPadded + [0x20];
    }
    for i := 0 to 6
      invariant forall k | 0 <= k < i :: rdata[k] == NameByte(a.name, k)
    {
      rdata[i] := (2 * addressPadded[i]) % 256;
    }
    var flags := 2 * a.ssid;
    if crBit1 { flags := flags + 0x80; }
    flags := flags + 0x40 + 0x20;
    if last { flags := flags + 0x01; }
    rdata[6] := flags;
  }

  method CopyTo(rdata: array<byte>, i: nat, bytes: seq<byte>)
    requires i + |bytes| <= rdata.Length
    modifies rdata
    ensures rdata[..i] == old(rdata[..i]) && rdata[..i + |bytes|] == old(rdata[..i]) + bytes
  {
    for k := 0 to |bytes|
      invariant rdata[..i] == old(rdata[..i])
      invariant forall j | 0 <= j < k :: rdata[i + j] == bytes[j]
    {
      rdata[i + k] := bytes[k];
    }
  }

  /** toByteArray: the addresses, the control byte, the PID if the type has one, and the data. */
  method ToByteArray(p: Packet) returns (rdata: array<byte>)
    requires PacketOk(p)
    ensures fresh(rdata) && rdata[..] == Encode(p)
  {
    var packetSize := 7 * |p.addresses| + 1 + |p.data|;
    if HasPid(p.kind) { packetSize := packetSize + 1; }
    rdata := new byte[packetSize](_ => 0);
    var i := PutAddresses(p, rdata);
    CopyTo(rdata, i, [Control(p.kind, p.nr, p.ns, p.pollFinal)]);
    i := i + 1;
    if HasPid(p.kind) {
      CopyTo(rdata, i, [p.pid]);
      i := i + 1;
    }
    CopyTo(rdata, i, p.data);
  }

  lemma AddressesStep(p: Packet, j: nat, done: seq<byte>, bytes: seq<byte>)
    requires PacketOk(p) && j < |p.addresses|
    requires bytes == AddressBytes(p.addresses[j], CommandBit(j, p.command), j == |p.addresses| - 1)
    ensures done + AddressesBytes(p.addresses, j, p.command) == (done + bytes) + AddressesBytes(p.addresses, j + 1, p.command)
  {
    var rest := AddressesBytes(p.addresses, j + 1, p.command);
    assert done + (bytes + rest) == (done + bytes) + rest;
  }

  method PutAddresses(p: Packet, rdata: array<byte>) returns (i: nat)
    requires PacketOk(p) && rdata.Length >= 7 * |p.addresses|
    modifies rdata
    ensures i == 7 * |p.addresses| && rdata[..i] == AddressesBytes(p.addresses, 0, p.command)
  {
    i := 0;
    for j := 0 to |p.addresses|
      invariant i == 7 * j
      invariant AddressesBytes(p.addresses, 0, p.command) == rdata[..i] + AddressesBytes(p.addresses, j, p.command)
    {
      ghost var done := rdata[..i];
      var ab := AddressToByteArray(p.addresses[j], CommandBit(j, p.command), j == |p.addresses| - 1);
      AddressesStep(p, j, done, ab[..]);
      assert rdata[..i] == done;
      CopyTo(rdata, i, ab[..]);
      i := i + 7;
    }
  }

  /** decodeAX25Packet */
  method DecodeAX25Packet(data: seq<byte>) returns (d: Decoded)
    ensures d == Decode(data)
  {
    if |data| < 6 { return Failed; }
    if data[0] == 1 { return OtherFormat; }
    var i, done := 0, false;
    var parts: seq<Part> := [];
    ghost var all := DecodeAddresses(data, 0);
    assert all.Some? ==> [] + all.value == all.value;
    while !done
      invariant 0 <= i && i == 7 * |parts|
      invariant done ==> all == Some(parts) && parts != []
      invariant !done ==> all == match DecodeAddresses(data, i) case None => None case Some(rest) => Some(parts + rest)
      decreases !done, |data| - i
    {
      var decoded := DecodeAddress(data, i);
      if decoded.None? { return Thrown; }
      ghost var rest := DecodeAddresses(data, i + 7);
      assert rest.Some? ==> parts + ([decoded.value] + rest.value) == parts + [decoded.value] + rest.value;
      parts := parts + [decoded.value];
      done := decoded.value.last;
      i := i + 7;
    }
    if !parts[0].crBit2 { return OtherFormat; }
    d := Frame(DecodeRest(data, i, Addresses(parts), parts[0].crBit1));
  }
}
