/** The YAPP header packet: file name, size in decimal digits, and date and time, each ended by a zero byte. */
module YappHeader {
  import opened Bits
  import opened MailText

  const SOH: byte := 0x01

  // ----- writing

  /** What follows the size: nothing, or the digits of date and time. */
  function Ended(stamp: seq<byte>): seq<byte> {
    if stamp == [] then [] else stamp + [0]
  }

  function HeaderData(name: seq<byte>, size: nat, stamp: seq<byte>): seq<byte> {
    name + ([0] + (SizeText(size) + ([0] + Ended(stamp))))
  }

  function SizeText(size: nat): (b: seq<byte>)
    ensures b != [] && ToText(b) == Decimal(size) && 0 !in b
  {
    DecimalIsText(size);
    ToBytes(Decimal(size))
  }

  lemma DecimalIsText(n: nat)
    ensures IsText(Decimal(n))
  {
    assert forall k | 0 <= k < |Decimal(n)| :: Digit(Decimal(n)[k]);
  }

  /** sendHD; the length byte is the length modulo 256. */
  function HeaderPacket(name: seq<byte>, size: nat, stamp: seq<byte>): seq<byte> {
    var data := HeaderData(name, size, stamp);
    [SOH, |data| % 256] + data
  }

  // ----- reading

  function Started(current: seq<byte>): seq<seq<byte>> {
    if current == [] then [] else [current]
  }

  /** The non-empty parts between zero bytes, behind the part that has begun. */
  function Parts(data: seq<byte>, current: seq<byte>): seq<seq<byte>>
    decreases |data|
  {
    if data == [] then Started(current)
    else if data[0] == 0 then Started(current) + Parts(data[1..], [])
    else Parts(data[1..], current + [data[0]])
  }

  datatype Header = Header(name: seq<byte>, size: int) | Invalid

  function FromParts(parts: seq<seq<byte>>): Header {
    if |parts| < 2 then Invalid
    else
      match ParseInt(ToText(parts[1]))
      case None => Invalid
      case Some(size) => Header(parts[0], size)
  }

  function ReadHeader(packet: seq<byte>): Header {
    if |packet| < 3 then Invalid else FromParts(Parts(Announced(packet), []))
  }

  /** The bytes that the length byte announces, as far as there are any. */
  function Announced(packet: seq<byte>): seq<byte>
    requires |packet| >= 2
  {
    packet[2..if 2 + packet[1] < |packet| then 2 + packet[1] else |packet|]
  }

  /** The parsing in handleHeader. */
  method ParseHeader(packet: seq<byte>) returns (h: Header)
    ensures h == ReadHeader(packet)
  {
    if |packet| < 3 { return Invalid; }
    var headerData := Announced(packet);
    var parts: seq<seq<byte>>, current: seq<byte> := [], [];
    for i := 0 to |headerData|
      invariant Parts(headerData, []) == parts + Parts(headerData[i..], current)
    {
      assert headerData[i..][1..] == headerData[i + 1..];
      if headerData[i] == 0 {
        if |current| > 0 {
          assert parts + (Started(current) + Parts(headerData[i + 1..], [])) ==
                 parts + [current] + Parts(headerData[i + 1..], []);
          parts := parts + [current];
          current := [];
        }
      } else {
        current := current + [headerData[i]];
      }
    }
    if |current| > 0 { parts := parts + [current]; }
    if |parts| < 2 { return Invalid; }
    var fileSize := ParseInt(ToText(parts[1]));
    if fileSize.None? { return Invalid; }
    h := Header(parts[0], fileSize.value);
  }

  // ----- when a header arrives

  lemma {:induction false} RunIsKept(a: seq<byte>, rest: seq<byte>, current: seq<byte>)
    requires 0 !in a
    ensures Parts(a + rest, current) == Parts(rest, current + a)
    decreases |a|
  {
    if a == [] {
      assert a + rest == rest && current + a == current;
    } else {
      assert (a + rest)[1..] == a[1..] + rest && current + [a[0]] + a[1..] == current + a;
      RunIsKept(a[1..], rest, current + [a[0]]);
    }
  }

  lemma FirstPart(a: seq<byte>, rest: seq<byte>)
    requires a != [] && 0 !in a
    ensures Parts(a + ([0] + rest), []) == [a] + Parts(rest, [])
  {
    RunIsKept(a, [0] + rest, []);
    assert [] + a == a && ([0] + rest)[1..] == rest;
  }

  lemma OnlyPart(a: seq<byte>)
    requires 0 !in a
    ensures Parts(a, []) == Started(a)
  {
    RunIsKept(a, [], []);
    assert a + [] == a && [] + a == a;
  }

  /** No part is empty, and none has a zero byte. */
  lemma {:induction false} PartsAreNames(data: seq<byte>, current: seq<byte>)
    requires 0 !in current
    ensures forall p | p in Parts(data, current) :: p != [] && 0 !in p
    decreases |data|
  {
    if data != [] {
      if data[0] == 0 { PartsAreNames(data[1..], []); } else { PartsAreNames(data[1..], current + [data[0]]); }
    }
  }

  lemma {:induction false} DigitsOfPrefix(n: nat, m: nat)
    requires 0 < m < |Decimal(n)|
    ensures Digits(Decimal(n)[..m], 0) < n
    decreases n
  {
    var init := Decimal(n / 10);
    assert Decimal(n)[..m] == init[..m];
    if m < |init| {
      DigitsOfPrefix(n / 10, m);
    } else {
      assert init[..m] == init;
      DecimalRead(n / 10);
    }
  }

  lemma NumberOf(s: string)
    requires s != "" && Digit(s[0])
    ensures ParseInt(s) == Some(Digits(s, 0))
  {
  }

  lemma Whole(name: seq<byte>, size: nat, stamp: seq<byte>)
    requires name != [] && 0 !in name
    ensures FromParts(Parts(HeaderData(name, size, stamp), [])) == Header(name, size)
  {
    FirstPart(name, SizeText(size) + ([0] + Ended(stamp)));
    FirstPart(SizeText(size), Ended(stamp));
    DecimalRead(size);
  }

  /** A header that is cut off before its size ends is read wrong or not at all. */
  lemma CutOff(name: seq<byte>, size: nat, rest: seq<byte>, n: nat)
    requires name != [] && 0 !in name && n < |name| + 1 + |SizeText(size)|
    ensures FromParts(Parts((name + ([0] + (SizeText(size) + rest)))[..n], [])) != Header(name, size)
  {
    var text := SizeText(size);
    var data := (name + ([0] + (text + rest)))[..n];
    if n <= |name| {
      assert data == name[..n];
      OnlyPart(name[..n]);
    } else {
      var m := n - |name| - 1;
      assert data == name + ([0] + text[..m]);
      FirstPart(name, text[..m]);
      OnlyPart(text[..m]);
      if m > 0 {
        assert ToText(text[..m]) == Decimal(size)[..m];
        DigitsOfPrefix(size, m);
        NumberOf(Decimal(size)[..m]);
      }
    }
  }

  lemma AnnouncedIs(data: seq<byte>)
    ensures Announced([SOH, |data| % 256] + data) == data[..|data| % 256]
  {
    var n := |data| % 256;
    assert ([SOH, n] + data)[2..2 + n] == data[..n];
  }

  /** A header says its file's name and size if and only if the name is not empty, has no zero byte, and
      leaves the whole header at most 255 bytes. */
  lemma HeaderArrives(name: seq<byte>, size: nat, stamp: seq<byte>)
    requires |stamp| == 0 || |stamp| == 8
    ensures ReadHeader(HeaderPacket(name, size, stamp)) == Header(name, size) <==>
            name != [] && 0 !in name && |HeaderData(name, size, stamp)| <= 255
  {
    var data := HeaderData(name, size, stamp);
    var n := |data| % 256;
    AnnouncedIs(data);
    PartsAreNames(data[..n], []);
    if name != [] && 0 !in name {
      if |data| <= 255 {
        assert data[..n] == data;
        Whole(name, size, stamp);
      } else {
        CutOff(name, size, [0] + Ended(stamp), n);
      }
    }
  }
}
