/** The text operations that the mail header is written and read with. Text is a sequence of bytes, shown
    as characters. */
module MailText {
  import opened Bits

  const CR: char := '\r'
  const LF: char := '\n'
  const CRLF: string := "\r\n"

  predicate IsText(s: string) { forall k | 0 <= k < |s| :: s[k] as int < 256 }

  function ToBytes(s: string): (b: seq<byte>)
    requires IsText(s)
    ensures |b| == |s|
  {
    seq(|s|, k requires 0 <= k < |s| => s[k] as int)
  }

  function ToText(b: seq<byte>): (s: string)
    ensures |s| == |b| && IsText(s)
  {
    seq(|b|, k requires 0 <= k < |b| => b[k] as char)
  }

  lemma TextBack(s: string)
    requires IsText(s)
    ensures ToText(ToBytes(s)) == s
  {
  }

  // ----- trimming, searching, lower case

  predicate Space(c: char) { c == ' ' || ('\t' <= c <= '\r') }

  function TrimStart(s: string): (t: string)
    ensures |t| <= |s|
  {
    if s != "" && Space(s[0]) then TrimStart(s[1..]) else s
  }

  function TrimEnd(s: string): (t: string)
    ensures |t| <= |s|
  {
    if s != "" && Space(s[|s| - 1]) then TrimEnd(s[..|s| - 1]) else s
  }

  function Trim(s: string): string { TrimEnd(TrimStart(s)) }

  /** Text that neither starts nor ends with a space. */
  predicate Trimmed(s: string) { s == "" || (!Space(s[0]) && !Space(s[|s| - 1])) }

  lemma TrimBehindSpace(s: string)
    requires Trimmed(s)
    ensures Trim(" " + s) == s && Trim(s) == s
  {
    var t := " " + s;
    assert t[0] == ' ' && t[1..] == s && TrimStart(t) == TrimStart(t[1..]);
    TrimEndIs(s);
  }

  /** Trimming leaves text that is trimmed, and changes no text that is. */
  lemma {:induction false} TrimIs(s: string)
    ensures Trimmed(Trim(s)) && (Trimmed(s) <==> Trim(s) == s)
  {
    TrimStartIs(s);
    TrimEndIs(TrimStart(s));
  }

  lemma {:induction false} TrimStartIs(s: string)
    ensures TrimStart(s) == "" || !Space(TrimStart(s)[0])
  {
    if s != "" && Space(s[0]) { TrimStartIs(s[1..]); }
  }

  lemma {:induction false} TrimEndIs(s: string)
    ensures var t := TrimEnd(s); t == "" || (!Space(t[|t| - 1]) && t[0] == s[0])
    ensures TrimEnd(s) == s <==> s == "" || !Space(s[|s| - 1])
  {
    if s != "" && Space(s[|s| - 1]) { TrimEndIs(s[..|s| - 1]); }
  }

  /** The place of the first c, or -1. */
  function IndexOf(s: string, c: char): (i: int)
    ensures -1 <= i < |s|
    ensures i >= 0 ==> s[i] == c
    ensures forall k | 0 <= k < (if i >= 0 then i else |s|) :: s[k] != c
  {
    if s == "" then -1
    else if s[0] == c then 0
    else var i := IndexOf(s[1..], c); if i < 0 then -1 else i + 1
  }

  lemma IndexOfIs(s: string, c: char, k: nat)
    requires k < |s| && s[k] == c && forall m | 0 <= m < k :: s[m] != c
    ensures IndexOf(s, c) == k
  {
  }

  function Lower(c: char): char {
    if 'A' <= c <= 'Z' then (c as int + 32) as char else c
  }

  function ToLower(s: string): (t: string)
    ensures |t| == |s|
  {
    seq(|s|, k requires 0 <= k < |s| => Lower(s[k]))
  }

  // ----- decimal numbers

  predicate Digit(c: char) { '0' <= c <= '9' }

  function Decimal(n: nat): (s: string)
    ensures |s| > 0 && forall k | 0 <= k < |s| :: Digit(s[k])
  {
    var d := [(n % 10 + '0' as int) as char];
    if n < 10 then d else Decimal(n / 10) + d
  }

  datatype Option<T> = None | Some(value: T)

  /** The number that the digits at the start of s say. */
  function Digits(s: string, n: nat): nat {
    if s == "" || !Digit(s[0]) then n else Digits(s[1..], 10 * n + (s[0] as int - '0' as int))
  }

  /** parseInt, for decimal numbers; None for what is not a number. */
  function ParseInt(s: string): Option<int> {
    var t := TrimStart(s);
    if t != "" && Digit(t[0]) then Some(Digits(t, 0))
    else if |t| > 1 && t[0] == '-' && Digit(t[1]) then Some(0 - Digits(t[1..], 0))
    else if |t| > 1 && t[0] == '+' && Digit(t[1]) then Some(Digits(t[1..], 0))
    else None
  }

  lemma {:induction false} DigitsSnoc(s: string, c: char, n: nat)
    requires Digit(c) && forall k | 0 <= k < |s| :: Digit(s[k])
    ensures Digits(s + [c], n) == 10 * Digits(s, n) + (c as int - '0' as int)
  {
    if s == "" {
      assert s + [c] == [c];
      assert [c][1..] == "";
    } else {
      assert (s + [c])[1..] == s[1..] + [c];
      DigitsSnoc(s[1..], c, 10 * n + (s[0] as int - '0' as int));
    }
  }

  /** Numbers are read as they were written. */
  lemma {:induction false} DecimalRead(n: nat)
    ensures Digits(Decimal(n), 0) == n && ParseInt(Decimal(n)) == Some(n)
  {
    var c := (n % 10 + '0' as int) as char;
    if n < 10 {
      assert Decimal(n) == [c] && [c][1..] == "";
      assert Digits([c], 0) == Digits([c][1..], n);
    } else {
      DecimalRead(n / 10);
      DigitsSnoc(Decimal(n / 10), c, 0);
    }
  }

  // ----- lines

  /** Text between line ends, each of which is CR LF, CR or LF. */
  function Lines(s: string): (lines: seq<string>)
    ensures |lines| > 0
  {
    if s == "" then [""]
    else if s[0] == CR && |s| > 1 && s[1] == LF then [""] + Lines(s[2..])
    else if s[0] == CR || s[0] == LF then [""] + Lines(s[1..])
    else var rest := Lines(s[1..]); [[s[0]] + rest[0]] + rest[1..]
  }

  predicate OneLine(s: string) { forall k | 0 <= k < |s| :: s[k] != CR && s[k] != LF }

  predicate AllLines(lines: seq<string>) { forall k | 0 <= k < |lines| :: lines[k] != "" && OneLine(lines[k]) }

  /** Lines with a line end between them. */
  function Joined(lines: seq<string>): string {
    if lines == [] then "" else if |lines| == 1 then lines[0] else lines[0] + CRLF + Joined(lines[1..])
  }

  /** Lines with a line end behind each. */
  function Ended(lines: seq<string>): string {
    if lines == [] then "" else lines[0] + CRLF + Ended(lines[1..])
  }

  lemma {:induction false} LinesAfter(line: string, s: string)
    requires OneLine(line) && (s == "" || s[0] == CR || s[0] == LF)
    ensures Lines(line + s) == [line + Lines(s)[0]] + Lines(s)[1..]
  {
    if line == "" {
      assert line + s == s && line + Lines(s)[0] == Lines(s)[0];
    } else {
      assert (line + s)[1..] == line[1..] + s;
      LinesAfter(line[1..], s);
      assert [line[0]] + (line[1..] + Lines(s)[0]) == line + Lines(s)[0];
    }
  }

  lemma {:induction false} LinesOfJoined(lines: seq<string>)
    requires lines != [] && AllLines(lines)
    ensures Lines(Joined(lines)) == lines
  {
    var line := lines[0];
    if |lines| == 1 {
      LinesAfter(line, "");
      assert line + "" == line;
    } else {
      var s := CRLF + Joined(lines[1..]);
      assert Joined(lines) == line + s;
      LinesAfter(line, s);
      assert s[2..] == Joined(lines[1..]);
      LinesOfJoined(lines[1..]);
      assert line + "" == line;
    }
  }

  lemma {:induction false} EndedIs(lines: seq<string>)
    requires lines != []
    ensures Ended(lines) == Joined(lines) + CRLF
  {
    if |lines| > 1 { EndedIs(lines[1..]); } else { assert Ended(lines[1..]) == ""; }
  }

  // ----- the end of the header

  /** The place of the first empty line's CR LF CR LF, or -1. */
  function DoubleNewline(s: string): (i: int)
    ensures -1 <= i <= |s|
  {
    if |s| < 4 then -1
    else if s[..4] == "\r\n\r\n" then 0
    else var i := DoubleNewline(s[1..]); if i < 0 then -1 else i + 1
  }

  lemma {:induction false} NoneInLine(line: string, s: string)
    requires OneLine(line) && DoubleNewline(s) >= 0
    ensures DoubleNewline(line + s) == |line| + DoubleNewline(s)
  {
    if line == "" {
      assert line + s == s;
    } else {
      NoneInLine(line[1..], s);
      assert (line + s)[1..] == line[1..] + s;
      assert (line + s)[..4][0] == line[0];
    }
  }

  /** The header ends behind its last line. */
  lemma HeaderEnds(lines: seq<string>, rest: string)
    requires lines != [] && AllLines(lines)
    ensures DoubleNewline(Joined(lines) + "\r\n\r\n" + rest) == |Joined(lines)|
  {
    var stop := "\r\n\r\n";
    assert (stop + rest)[..4] == stop;
    assert Joined(lines) + stop + rest == Joined(lines) + (stop + rest);
    LinesEnd(lines, stop + rest);
  }

  lemma {:induction false} LinesEnd(lines: seq<string>, end: string)
    requires lines != [] && AllLines(lines) && DoubleNewline(end) == 0
    ensures DoubleNewline(Joined(lines) + end) == |Joined(lines)|
    decreases |lines|
  {
    if |lines| == 1 {
      NoneInLine(lines[0], end);
    } else {
      LinesEnd(lines[1..], end);
      JoinedStarts(lines[1..]);
      var s := Joined(lines[1..]) + end;
      NoneInTwo(s);
      NoneInLine(lines[0], CRLF + s);
      assert Joined(lines) + end == lines[0] + (CRLF + s);
    }
  }

  lemma JoinedStarts(lines: seq<string>)
    requires lines != [] && AllLines(lines)
    ensures Joined(lines) != "" && Joined(lines)[0] == lines[0][0]
  {
  }

  lemma NoneInTwo(s: string)
    requires s != "" && s[0] != CR && s[0] != LF && DoubleNewline(s) >= 0
    ensures DoubleNewline(CRLF + s) == 2 + DoubleNewline(s)
  {
    var t := CRLF + s;
    assert t[..4][2] == s[0];
    assert t[1..] == [LF] + s && t[1..][..4][0] == LF;
    assert t[1..][1..] == s;
  }
}
