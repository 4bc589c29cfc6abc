/** A Winlink mail as bytes: header lines, then the body and the attachments. */
module MailFormat {
  import opened Bits
  import opened MailText

  datatype Attachment = Attachment(name: string, data: seq<byte>)

  /** The date is the text that stands for it; the two flags are those that are sent. */
  datatype Mail = Mail(mid: string, date: string, isPrivate: bool, from: string, to: string, cc: string, subject: string,
                       mbo: string, p2p: bool, location: string, body: seq<byte>, attachments: seq<Attachment>)

  const NEW_MAIL := Mail("", "", false, "", "", "", "", "", false, "", [], [])

  // ----- writing

  function Line(key: string, value: string): string { key + ": " + value }

  function Unless(none: bool, line: string): seq<string> { if none then [] else [line] }

  function FileLine(a: Attachment): string { Line("File", Decimal(|a.data|) + " " + a.name) }

  function FileLines(attachments: seq<Attachment>): (lines: seq<string>)
    ensures |lines| == |attachments|
  {
    if attachments == [] then [] else [FileLine(attachments[0])] + FileLines(attachments[1..])
  }

  function FirstLines(m: Mail): seq<string> {
    [Line("MID", m.mid)] + [Line("Date", m.date)] + Unless(!m.isPrivate, Line("Type", "Private")) +
    Unless(m.from == "", Line("From", m.from))
  }

  function SecondLines(m: Mail): seq<string> {
    Unless(m.to == "", Line("To", m.to)) + Unless(m.cc == "", Line("Cc", m.cc)) +
    Unless(m.subject == "", Line("Subject", m.subject)) + Unless(m.mbo == "", Line("Mbo", m.mbo))
  }

  function ThirdLines(m: Mail): seq<string> {
    Unless(!m.p2p, Line("X-P2P", "True")) + Unless(m.location == "", Line("X-Location", m.location)) +
    Unless(m.body == [], Line("Body", Decimal(|m.body|)))
  }

  function HeaderLines(m: Mail): seq<string> {
    FirstLines(m) + SecondLines(m) + ThirdLines(m) + FileLines(m.attachments)
  }

  const BETWEEN: seq<byte> := [0x0D, 0x0A]

  function Parts(attachments: seq<Attachment>): seq<byte> {
    if attachments == [] then [] else attachments[0].data + BETWEEN + Parts(attachments[1..])
  }

  /** Text that can stand in a header line. */
  predicate Value(s: string) { IsText(s) && OneLine(s) }

  /** No text of the mail breaks its line. */
  predicate Unbroken(m: Mail) {
    Value(m.mid) && Value(m.date) && Value(m.from) && Value(m.to) && Value(m.cc) && Value(m.subject) && Value(m.mbo) &&
    Value(m.location) && forall k | 0 <= k < |m.attachments| :: Value(m.attachments[k].name)
  }

  predicate Clean(lines: seq<string>) { forall k | 0 <= k < |lines| :: lines[k] != "" && Value(lines[k]) }

  lemma {:induction false} FilesClean(attachments: seq<Attachment>)
    requires forall k | 0 <= k < |attachments| :: Value(attachments[k].name)
    ensures Clean(FileLines(attachments))
  {
    if attachments != [] {
      assert Value(attachments[0].name);
      DecimalClean(|attachments[0].data|);
      FilesClean(attachments[1..]);
    }
  }

  lemma DecimalClean(n: nat)
    ensures Value(Decimal(n))
  {
  }

  lemma LineClean(none: bool, key: string, value: string)
    requires Value(key) && Value(value)
    ensures Clean(Unless(none, Line(key, value)))
  {
  }

  lemma HeaderClean(m: Mail)
    requires Unbroken(m)
    ensures HeaderLines(m) != [] && Clean(HeaderLines(m))
  {
    FirstClean(m);
    SecondClean(m);
    ThirdClean(m);
    FilesClean(m.attachments);
  }

  lemma FirstClean(m: Mail)
    requires Unbroken(m)
    ensures FirstLines(m) != [] && Clean(FirstLines(m))
  {
    LineClean(false, "MID", m.mid);
    LineClean(false, "Date", m.date);
    LineClean(!m.isPrivate, "Type", "Private");
    LineClean(m.from == "", "From", m.from);
  }

  lemma SecondClean(m: Mail)
    requires Unbroken(m)
    ensures Clean(SecondLines(m))
  {
    LineClean(m.to == "", "To", m.to);
    LineClean(m.cc == "", "Cc", m.cc);
    LineClean(m.subject == "", "Subject", m.subject);
    LineClean(m.mbo == "", "Mbo", m.mbo);
  }

  lemma ThirdClean(m: Mail)
    requires Unbroken(m)
    ensures Clean(ThirdLines(m))
  {
    LineClean(!m.p2p, "X-P2P", "True");
    LineClean(m.location == "", "X-Location", m.location);
    DecimalClean(|m.body|);
    LineClean(m.body == [], "Body", Decimal(|m.body|));
  }

  lemma {:induction false} EndedText(lines: seq<string>)
    requires Clean(lines)
    ensures IsText(Ended(lines))
  {
    if lines != [] {
      assert Value(lines[0]);
      EndedText(lines[1..]);
    }
  }

  function Header(m: Mail): (s: string)
    requires Unbroken(m)
    ensures IsText(s)
  {
    HeaderClean(m);
    EndedText(HeaderLines(m));
    Ended(HeaderLines(m)) + CRLF
  }

  function Serialize(m: Mail): seq<byte>
    requires Unbroken(m)
  {
    ToBytes(Header(m)) + m.body + BETWEEN + Parts(m.attachments) + [0]
  }

  // ----- reading

  /** What the header has said so far. */
  datatype State = State(mail: Mail, bodyLength: int, done: bool, threw: bool)

  const START := State(NEW_MAIL, -1, false, false)

  /** A file line announces an attachment; a size that is no number, or a negative one, is an exception. */
  function TakeFile(st: State, value: string): State {
    var j := IndexOf(value, ' ');
    if j <= 0 then st
    else
      match ParseInt(Trim(value[..j]))
      case None => st.(threw := true)
      case Some(n) =>
        if n < 0 then st.(threw := true)
        else
          var a := Attachment(Trim(value[j + 1..]), seq(n, _ => 0));
          st.(mail := st.mail.(attachments := st.mail.attachments + [a]))
  }

  function TakeField(st: State, key: string, value: string): State {
    var m := st.mail;
    if key == "" then st.(done := true)
    else if key == "mid" then st.(mail := m.(mid := value))
    else if key == "date" then st.(mail := m.(date := value))
    else if key == "type" then if ToLower(value) == "private" then st.(mail := m.(isPrivate := true)) else st
    else if key == "to" then st.(mail := m.(to := value))
    else if key == "cc" then st.(mail := m.(cc := value))
    else if key == "from" then st.(mail := m.(from := value))
    else if key == "subject" then st.(mail := m.(subject := value))
    else if key == "mbo" then st.(mail := m.(mbo := value))
    else if key == "body" then st.(bodyLength := match ParseInt(value) case None => -1 case Some(n) => n)
    else if key == "file" then TakeFile(st, value)
    else if key == "x-location" then st.(mail := m.(location := value))
    else if key == "x-p2p" then if ToLower(value) == "true" then st.(mail := m.(p2p := true)) else st
    else st
  }

  function TakeLine(st: State, line: string): State {
    if st.done || st.threw then st
    else
      var i := IndexOf(line, ':');
      if i > 0 then TakeField(st, Trim(ToLower(line[..i])), Trim(line[i + 1..])) else st
  }

  function TakeLines(st: State, lines: seq<string>): State
    decreases |lines|
  {
    if lines == [] then st else TakeLines(TakeLine(st, lines[0]), lines[1..])
  }

  /** The bytes of an attachment of n bytes from ptr on, zero beyond the end. */
  function Filled(data: seq<byte>, ptr: nat, n: nat): (d: seq<byte>)
    ensures |d| == n
  {
    seq(n, k requires 0 <= k < n => if ptr + k < |data| then data[ptr + k] else 0)
  }

  datatype Read = Mailed(mail: Mail) | NoHeader | Threw

  /** The attachments from ptr on; a start beyond the end is an exception. */
  function Attach(data: seq<byte>, ptr: nat, attachments: seq<Attachment>): (r: Option<seq<Attachment>>)
    ensures r.Some? ==> |r.value| == |attachments|
    ensures r.Some? ==> forall k | 0 <= k < |attachments| :: r.value[k].name == attachments[k].name
    decreases |attachments|
  {
    if attachments == [] then Some([])
    else if ptr > |data| then None
    else
      var a := attachments[0].(data := Filled(data, ptr, |attachments[0].data|));
      match Attach(data, ptr + |a.data| + 2, attachments[1..])
      case None => None
      case Some(rest) => Some([a] + rest)
  }

  function Slice(data: seq<byte>, from: nat, to: nat): seq<byte>
    requires from <= |data| && from <= to
  {
    data[from..if to <= |data| then to else |data|]
  }

  function Deserialize(data: seq<byte>): Read {
    var text := ToText(data);
    var limit := DoubleNewline(text);
    if limit < 0 || limit + 4 > |data| then NoHeader
    else Contents(data, limit + 4, TakeLines(START, Lines(text[..limit])))
  }

  function Contents(data: seq<byte>, ptr: nat, st: State): Read
    requires ptr <= |data|
  {
    if st.threw then Threw
    else
      var n := if st.bodyLength > 0 then st.bodyLength else 0;
      var body := Slice(data, ptr, ptr + n);
      match Attach(data, if n > 0 then ptr + n + 2 else ptr, st.mail.attachments)
      case None => Threw
      case Some(attachments) => Mailed(st.mail.(body := body, attachments := attachments))
  }

  // ----- what the header says

  predicate Keyword(key: string) {
    key != "" && forall k | 0 <= k < |key| :: key[k] != ':' && !Space(key[k])
  }

  predicate Open(st: State) { !st.done && !st.threw }

  lemma LineTaken(st: State, key: string, low: string, value: string)
    requires Open(st) && Keyword(key) && low == ToLower(key)
    ensures TakeLine(st, Line(key, value)) == TakeField(st, low, Trim(value))
  {
    var line := Line(key, value);
    assert line[|key|] == ':' && line[..|key|] == key && line[|key| + 1..] == " " + value;
    IndexOfIs(line, ':', |key|);
    assert Trimmed(low);
    TrimBehindSpace(low);
    var t := " " + value;
    assert t[0] == ' ' && t[1..] == value && TrimStart(t) == TrimStart(t[1..]);
  }

  lemma {:induction false} TakeConcat(st: State, a: seq<string>, b: seq<string>)
    ensures TakeLines(st, a + b) == TakeLines(TakeLines(st, a), b)
    decreases |a|
  {
    if a == [] {
      assert a + b == b;
    } else {
      assert (a + b)[1..] == a[1..] + b;
      TakeConcat(TakeLine(st, a[0]), a[1..], b);
    }
  }

  /** A line that is there or not. */
  lemma OptionalTaken(st: State, none: bool, key: string, low: string, value: string, next: State)
    requires Open(st) && Keyword(key) && low == ToLower(key)
    requires next == if none then st else TakeField(st, low, Trim(value))
    ensures TakeLines(st, Unless(none, Line(key, value))) == next
  {
    LineTaken(st, key, low, value);
    assert [Line(key, value)][1..] == [];
  }

  lemma MidTaken(st: State, v: string)
    requires Open(st)
    ensures TakeLines(st, [Line("MID", v)]) == st.(mail := st.mail.(mid := Trim(v)))
  {
    assert Keyword("MID") && ToLower("MID") == "mid";
    OptionalTaken(st, false, "MID", "mid", v, st.(mail := st.mail.(mid := Trim(v))));
  }

  lemma DateTaken(st: State, v: string)
    requires Open(st)
    ensures TakeLines(st, [Line("Date", v)]) == st.(mail := st.mail.(date := Trim(v)))
  {
    assert Keyword("Date") && ToLower("Date") == "date";
    OptionalTaken(st, false, "Date", "date", v, st.(mail := st.mail.(date := Trim(v))));
  }

  lemma FromTaken(st: State, v: string)
    requires Open(st) && st.mail.from == ""
    ensures TakeLines(st, Unless(v == "", Line("From", v))) == st.(mail := st.mail.(from := Trim(v)))
  {
    assert Keyword("From") && ToLower("From") == "from";
    OptionalTaken(st, v == "", "From", "from", v, st.(mail := st.mail.(from := Trim(v))));
  }

  lemma ToTaken(st: State, v: string)
    requires Open(st) && st.mail.to == ""
    ensures TakeLines(st, Unless(v == "", Line("To", v))) == st.(mail := st.mail.(to := Trim(v)))
  {
    assert Keyword("To") && ToLower("To") == "to";
    OptionalTaken(st, v == "", "To", "to", v, st.(mail := st.mail.(to := Trim(v))));
  }

  lemma CcTaken(st: State, v: string)
    requires Open(st) && st.mail.cc == ""
    ensures TakeLines(st, Unless(v == "", Line("Cc", v))) == st.(mail := st.mail.(cc := Trim(v)))
  {
    assert Keyword("Cc") && ToLower("Cc") == "cc";
    OptionalTaken(st, v == "", "Cc", "cc", v, st.(mail := st.mail.(cc := Trim(v))));
  }

  lemma SubjectTaken(st: State, v: string)
    requires Open(st) && st.mail.subject == ""
    ensures TakeLines(st, Unless(v == "", Line("Subject", v))) == st.(mail := st.mail.(subject := Trim(v)))
  {
    assert Keyword("Subject") && ToLower("Subject") == "subject";
    OptionalTaken(st, v == "", "Subject", "subject", v, st.(mail := st.mail.(subject := Trim(v))));
  }

  lemma MboTaken(st: State, v: string)
    requires Open(st) && st.mail.mbo == ""
    ensures TakeLines(st, Unless(v == "", Line("Mbo", v))) == st.(mail := st.mail.(mbo := Trim(v)))
  {
    assert Keyword("Mbo") && ToLower("Mbo") == "mbo";
    OptionalTaken(st, v == "", "Mbo", "mbo", v, st.(mail := st.mail.(mbo := Trim(v))));
  }

  lemma LocationTaken(st: State, v: string)
    requires Open(st) && st.mail.location == ""
    ensures TakeLines(st, Unless(v == "", Line("X-Location", v))) == st.(mail := st.mail.(location := Trim(v)))
  {
    assert Keyword("X-Location") && ToLower("X-Location") == "x-location";
    OptionalTaken(st, v == "", "X-Location", "x-location", v, st.(mail := st.mail.(location := Trim(v))));
  }

  lemma TypeTaken(st: State, isPrivate: bool)
    requires Open(st) && !st.mail.isPrivate
    ensures TakeLines(st, Unless(!isPrivate, Line("Type", "Private"))) == st.(mail := st.mail.(isPrivate := isPrivate))
  {
    assert Keyword("Type") && ToLower("Type") == "type" && ToLower("Private") == "private";
    TrimBehindSpace("Private");
    OptionalTaken(st, !isPrivate, "Type", "type", "Private", st.(mail := st.mail.(isPrivate := isPrivate)));
  }

  lemma P2pTaken(st: State, p2p: bool)
    requires Open(st) && !st.mail.p2p
    ensures TakeLines(st, Unless(!p2p, Line("X-P2P", "True"))) == st.(mail := st.mail.(p2p := p2p))
  {
    assert Keyword("X-P2P") && ToLower("X-P2P") == "x-p2p" && ToLower("True") == "true";
    TrimBehindSpace("True");
    OptionalTaken(st, !p2p, "X-P2P", "x-p2p", "True", st.(mail := st.mail.(p2p := p2p)));
  }

  lemma BodyTaken(st: State, m: Mail)
    requires Open(st) && st.bodyLength == -1
    ensures TakeLines(st, Unless(m.body == [], Line("Body", Decimal(|m.body|)))) == st.(bodyLength := BodyLength(m))
  {
    assert Keyword("Body") && ToLower("Body") == "body";
    NumberTaken(|m.body|);
    OptionalTaken(st, m.body == [], "Body", "body", Decimal(|m.body|), st.(bodyLength := BodyLength(m)));
  }

  lemma NumberTaken(n: nat)
    ensures Trim(Decimal(n)) == Decimal(n) && ParseInt(Decimal(n)) == Some(n)
  {
    var s := Decimal(n);
    assert Digit(s[0]) && Digit(s[|s| - 1]);
    TrimBehindSpace(s);
    DecimalRead(n);
  }

  lemma TakeFour(st: State, a: seq<string>, b: seq<string>, c: seq<string>, d: seq<string>)
    ensures TakeLines(st, a + b + c + d) == TakeLines(TakeLines(TakeLines(TakeLines(st, a), b), c), d)
  {
    TakeConcat(st, a + b + c, d);
    TakeConcat(st, a + b, c);
    TakeConcat(st, a, b);
  }

  lemma FirstTaken(st: State, m: Mail)
    requires Open(st) && st.mail.from == "" && !st.mail.isPrivate
    ensures TakeLines(st, FirstLines(m)) ==
            st.(mail := st.mail.(mid := Trim(m.mid), date := Trim(m.date), isPrivate := m.isPrivate, from := Trim(m.from)))
  {
    MidTaken(st, m.mid);
    var s1 := st.(mail := st.mail.(mid := Trim(m.mid)));
    DateTaken(s1, m.date);
    var s2 := s1.(mail := s1.mail.(date := Trim(m.date)));
    TypeTaken(s2, m.isPrivate);
    FromTaken(s2.(mail := s2.mail.(isPrivate := m.isPrivate)), m.from);
    TakeFour(st, [Line("MID", m.mid)], [Line("Date", m.date)], Unless(!m.isPrivate, Line("Type", "Private")),
             Unless(m.from == "", Line("From", m.from)));
  }

  lemma SecondTaken(st: State, m: Mail)
    requires Open(st) && st.mail.to == "" && st.mail.cc == "" && st.mail.subject == "" && st.mail.mbo == ""
    ensures TakeLines(st, SecondLines(m)) ==
            st.(mail := st.mail.(to := Trim(m.to), cc := Trim(m.cc), subject := Trim(m.subject), mbo := Trim(m.mbo)))
  {
    ToTaken(st, m.to);
    var s1 := st.(mail := st.mail.(to := Trim(m.to)));
    CcTaken(s1, m.cc);
    var s2 := s1.(mail := s1.mail.(cc := Trim(m.cc)));
    SubjectTaken(s2, m.subject);
    MboTaken(s2.(mail := s2.mail.(subject := Trim(m.subject))), m.mbo);
    TakeFour(st, Unless(m.to == "", Line("To", m.to)), Unless(m.cc == "", Line("Cc", m.cc)),
             Unless(m.subject == "", Line("Subject", m.subject)), Unless(m.mbo == "", Line("Mbo", m.mbo)));
  }

  function BodyLength(m: Mail): int { if m.body == [] then -1 else |m.body| }

  lemma ThirdTaken(st: State, m: Mail)
    requires Open(st) && !st.mail.p2p && st.mail.location == "" && st.bodyLength == -1
    ensures TakeLines(st, ThirdLines(m)) ==
            st.(bodyLength := BodyLength(m), mail := st.mail.(p2p := m.p2p, location := Trim(m.location)))
  {
    P2pTaken(st, m.p2p);
    var s1 := st.(mail := st.mail.(p2p := m.p2p));
    LocationTaken(s1, m.location);
    BodyTaken(s1.(mail := s1.mail.(location := Trim(m.location))), m);
    var a, b := Unless(!m.p2p, Line("X-P2P", "True")), Unless(m.location == "", Line("X-Location", m.location));
    TakeConcat(st, a + b, Unless(m.body == [], Line("Body", Decimal(|m.body|))));
    TakeConcat(st, a, b);
  }

  /** What a file line announces: an attachment if the name is more than spaces, with the name trimmed. */
  function Announcement(a: Attachment): (r: seq<Attachment>)
    ensures |r| <= 1
  {
    if TrimEnd(a.name) == "" then [] else [Attachment(Trim(TrimEnd(a.name)), seq(|a.data|, _ => 0))]
  }

  function Announced(attachments: seq<Attachment>): (r: seq<Attachment>)
    ensures |r| <= |attachments|
  {
    if attachments == [] then [] else Announcement(attachments[0]) + Announced(attachments[1..])
  }

  lemma {:induction false} TrimEndBehind(a: string, b: string)
    ensures TrimEnd(a + b) == if TrimEnd(b) == "" then TrimEnd(a) else a + TrimEnd(b)
    decreases |b|
  {
    if b == "" {
      assert a + b == a;
    } else {
      assert (a + b)[..|a + b| - 1] == a + b[..|b| - 1];
      TrimEndBehind(a, b[..|b| - 1]);
    }
  }

  lemma FileValue(n: string, name: string)
    requires n != "" && forall k | 0 <= k < |n| :: Digit(n[k])
    ensures Trim(n + " " + name) == if TrimEnd(name) == "" then n else n + " " + TrimEnd(name)
  {
    var s := n + " " + name;
    assert Digit(s[0]) && Digit(n[|n| - 1]);
    TrimEndBehind(n + " ", name);
    TrimEndBehind(n, " ");
    assert " "[..0] == "" && TrimEnd(" ") == "";
    TrimEndIs(n);
  }

  function With(st: State, more: seq<Attachment>): State {
    st.(mail := st.mail.(attachments := st.mail.attachments + more))
  }

  lemma WithNone(st: State)
    ensures With(st, []) == st
  {
    assert st.mail.attachments + [] == st.mail.attachments;
  }

  lemma WithTwice(st: State, a: seq<Attachment>, b: seq<Attachment>)
    ensures With(With(st, a), b) == With(st, a + b)
  {
    assert st.mail.attachments + a + b == st.mail.attachments + (a + b);
  }

  lemma NamelessFile(st: State, n: string)
    requires forall k | 0 <= k < |n| :: Digit(n[k])
    ensures TakeFile(st, n) == st
  {
    assert IndexOf(n, ' ') == -1;
  }

  lemma NamedFile(st: State, n: string, size: nat, name: string)
    requires n != "" && (forall k | 0 <= k < |n| :: Digit(n[k])) && Trim(n) == n && ParseInt(n) == Some(size)
    ensures TakeFile(st, n + " " + name) == With(st, [Attachment(Trim(name), seq(size, _ => 0))])
  {
    var v := n + " " + name;
    IndexOfIs(v, ' ', |n|);
    assert v[..|n|] == n && v[|n| + 1..] == name;
  }

  lemma FileSaid(st: State, a: Attachment)
    ensures TakeFile(st, Trim(Decimal(|a.data|) + " " + a.name)) == With(st, Announcement(a))
  {
    var n := Decimal(|a.data|);
    FileValue(n, a.name);
    NumberTaken(|a.data|);
    if TrimEnd(a.name) == "" {
      NamelessFile(st, n);
      WithNone(st);
    } else {
      NamedFile(st, n, |a.data|, TrimEnd(a.name));
    }
  }

  lemma FileTaken(st: State, a: Attachment)
    requires Open(st)
    ensures TakeLine(st, FileLine(a)) == With(st, Announcement(a))
  {
    assert Keyword("File") && ToLower("File") == "file";
    var value := Decimal(|a.data|) + " " + a.name;
    LineTaken(st, "File", "file", value);
    FileField(st, Trim(value));
    FileSaid(st, a);
  }

  lemma FileField(st: State, value: string)
    ensures TakeField(st, "file", value) == TakeFile(st, value)
  {
  }

  lemma {:induction false} FilesTaken(st: State, attachments: seq<Attachment>)
    requires Open(st)
    ensures TakeLines(st, FileLines(attachments)) == With(st, Announced(attachments))
    decreases |attachments|
  {
    if attachments == [] {
      WithNone(st);
    } else {
      var a, rest := attachments[0], attachments[1..];
      FileTaken(st, a);
      var next := With(st, Announcement(a));
      FilesTaken(next, rest);
      TakeConcat(st, [FileLine(a)], FileLines(rest));
      assert [FileLine(a)][1..] == [] && TakeLines(next, []) == next;
      WithTwice(st, Announcement(a), Announced(rest));
    }
  }

  /** The mail as its header describes it: all text trimmed, and nothing yet in body and attachments. */
  function Said(m: Mail): Mail {
    Mail(Trim(m.mid), Trim(m.date), m.isPrivate, Trim(m.from), Trim(m.to), Trim(m.cc), Trim(m.subject), Trim(m.mbo), m.p2p,
         Trim(m.location), [], Announced(m.attachments))
  }

  lemma HeaderTaken(m: Mail)
    ensures TakeLines(START, HeaderLines(m)) == State(Said(m), BodyLength(m), false, false)
  {
    FirstTaken(START, m);
    var s1 := TakeLines(START, FirstLines(m));
    SecondTaken(s1, m);
    var s2 := TakeLines(s1, SecondLines(m));
    ThirdTaken(s2, m);
    var s3 := TakeLines(s2, ThirdLines(m));
    FilesTaken(s3, m.attachments);
    TakeFour(START, FirstLines(m), SecondLines(m), ThirdLines(m), FileLines(m.attachments));
    assert [] + Announced(m.attachments) == Announced(m.attachments);
  }

  // ----- the round trip

  lemma ToTextConcat(a: seq<byte>, b: seq<byte>)
    ensures ToText(a + b) == ToText(a) + ToText(b)
  {
  }

  lemma HeaderText(m: Mail, rest: seq<byte>)
    requires Unbroken(m)
    ensures HeaderLines(m) != [] && AllLines(HeaderLines(m))
    ensures ToText(ToBytes(Header(m)) + rest) == Joined(HeaderLines(m)) + "\r\n\r\n" + ToText(rest)
    ensures |Header(m)| == |Joined(HeaderLines(m))| + 4
  {
    HeaderClean(m);
    EndedIs(HeaderLines(m));
    TextBack(Header(m));
    ToTextConcat(ToBytes(Header(m)), rest);
    assert Joined(HeaderLines(m)) + CRLF + CRLF == Joined(HeaderLines(m)) + "\r\n\r\n";
  }

  /** The header is found and read. */
  lemma HeaderRead(m: Mail, rest: seq<byte>)
    requires Unbroken(m)
    ensures Deserialize(ToBytes(Header(m)) + rest) ==
            Contents(ToBytes(Header(m)) + rest, |Header(m)|, State(Said(m), BodyLength(m), false, false))
  {
    var lines, data := HeaderLines(m), ToBytes(Header(m)) + rest;
    HeaderText(m, rest);
    HeaderSplit(data, lines, ToText(rest));
    HeaderFound(data, |Joined(lines)|, lines);
    HeaderTaken(m);
  }

  lemma HeaderSplit(data: seq<byte>, lines: seq<string>, rest: string)
    requires lines != [] && AllLines(lines) && ToText(data) == Joined(lines) + "\r\n\r\n" + rest
    ensures var limit := |Joined(lines)|;
            DoubleNewline(ToText(data)) == limit && limit + 4 <= |data| && Lines(ToText(data)[..limit]) == lines
  {
    HeaderEnds(lines, rest);
    assert ToText(data)[..|Joined(lines)|] == Joined(lines);
    LinesOfJoined(lines);
  }

  lemma HeaderFound(data: seq<byte>, limit: nat, lines: seq<string>)
    requires DoubleNewline(ToText(data)) == limit && limit + 4 <= |data| && Lines(ToText(data)[..limit]) == lines
    ensures Deserialize(data) == Contents(data, limit + 4, TakeLines(START, lines))
  {
  }

  function Blank(attachments: seq<Attachment>): (r: seq<Attachment>)
    ensures |r| == |attachments|
  {
    seq(|attachments|, k requires 0 <= k < |attachments| => Attachment(attachments[k].name, seq(|attachments[k].data|, _ => 0)))
  }

  ghost predicate At(data: seq<byte>, p: nat, what: seq<byte>) {
    p <= |data| && what <= data[p..]
  }

  lemma AtNext(data: seq<byte>, p: nat, a: seq<byte>, b: seq<byte>)
    requires At(data, p, a + b)
    ensures At(data, p + |a|, b) && At(data, p, a) && Filled(data, p, |a|) == a
  {
    assert a <= a + b;
    assert data[p + |a|..] == data[p..][|a|..];
    forall k | 0 <= k < |a| ensures Filled(data, p, |a|)[k] == a[k] { assert data[p..][k] == data[p + k]; }
  }

  lemma FirstPart(data: seq<byte>, p: nat, d: seq<byte>, rest: seq<byte>)
    requires At(data, p, d + BETWEEN + rest)
    ensures At(data, p, d) && Filled(data, p, |d|) == d && At(data, p + |d| + 2, rest)
  {
    assert d + BETWEEN + rest == d + (BETWEEN + rest);
    AtNext(data, p, d, BETWEEN + rest);
    AtNext(data, p + |d|, BETWEEN, rest);
  }

  /** Where the attachments are, they are read. */
  lemma {:induction false} Attached(data: seq<byte>, p: nat, attachments: seq<Attachment>)
    requires At(data, p, Parts(attachments))
    ensures Attach(data, p, Blank(attachments)) == Some(attachments)
    decreases |attachments|
  {
    if attachments != [] {
      FirstPart(data, p, attachments[0].data, Parts(attachments[1..]));
      Attached(data, p + |attachments[0].data| + 2, attachments[1..]);
      assert Blank(attachments)[1..] == Blank(attachments[1..]);
      assert attachments == [attachments[0]] + attachments[1..];
    }
  }

  /** Data that does not change when it is read two bytes early, behind a line end. */
  predicate Drifts(d: seq<byte>) {
    forall k | 0 <= k < |d| :: d[k] == if k % 2 == 0 then 0x0D else 0x0A
  }

  lemma {:induction false} DriftsIs(d: seq<byte>)
    ensures (BETWEEN + d)[..|d|] == d <==> Drifts(d)
  {
    if (BETWEEN + d)[..|d|] == d {
      forall k | 0 <= k < |d| ensures d[k] == if k % 2 == 0 then 0x0D else 0x0A { DriftsAt(d, k); }
    }
  }

  lemma {:induction false} DriftsAt(d: seq<byte>, k: nat)
    requires (BETWEEN + d)[..|d|] == d && k < |d|
    ensures d[k] == if k % 2 == 0 then 0x0D else 0x0A
  {
    assert d[k] == (BETWEEN + d)[k];
    if k >= 2 { DriftsAt(d, k - 2); }
  }

  predicate AllDrift(attachments: seq<Attachment>) {
    forall k | 0 <= k < |attachments| :: Drifts(attachments[k].data)
  }

  /** Two bytes early they are not, unless they drift. */
  lemma {:induction false} AttachedEarly(data: seq<byte>, p: nat, attachments: seq<Attachment>)
    requires At(data, p, BETWEEN + Parts(attachments))
    ensures Attach(data, p, Blank(attachments)).Some?
    ensures Attach(data, p, Blank(attachments)).value == attachments <==> AllDrift(attachments)
    decreases |attachments|
  {
    if attachments != [] {
      var d, rest := attachments[0].data, attachments[1..];
      var early := (BETWEEN + d)[..|d|];
      assert BETWEEN + Parts(attachments) == (BETWEEN + d) + (BETWEEN + Parts(rest));
      AtNext(data, p, BETWEEN + d, BETWEEN + Parts(rest));
      assert BETWEEN + d == early + (BETWEEN + d)[|d|..];
      AtNext(data, p, early, (BETWEEN + d)[|d|..]);
      AttachedEarly(data, p + |d| + 2, rest);
      assert Blank(attachments)[1..] == Blank(rest);
      DriftsIs(d);
      assert attachments == [attachments[0]] + rest;
      assert AllDrift(attachments) <==> Drifts(d) && AllDrift(rest);
    }
  }

  predicate TrimmedText(m: Mail) {
    Trimmed(m.mid) && Trimmed(m.date) && Trimmed(m.from) && Trimmed(m.to) && Trimmed(m.cc) && Trimmed(m.subject) &&
    Trimmed(m.mbo) && Trimmed(m.location)
  }

  predicate Named(attachments: seq<Attachment>) {
    forall k | 0 <= k < |attachments| :: attachments[k].name != "" && Trimmed(attachments[k].name)
  }

  lemma TextKept(m: Mail)
    ensures Said(m) == m.(body := [], attachments := Announced(m.attachments)) <==> TrimmedText(m)
  {
    TrimIs(m.mid);
    TrimIs(m.date);
    TrimIs(m.from);
    TrimIs(m.to);
    TrimIs(m.cc);
    TrimIs(m.subject);
    TrimIs(m.mbo);
    TrimIs(m.location);
  }

  lemma {:induction false} AllAnnounced(attachments: seq<Attachment>)
    requires Named(attachments)
    ensures Announced(attachments) == Blank(attachments)
  {
    if attachments != [] {
      var a := attachments[0];
      TrimEndIs(a.name);
      TrimIs(a.name);
      AllAnnounced(attachments[1..]);
      assert Blank(attachments)[1..] == Blank(attachments[1..]);
      assert Blank(attachments) == [Blank(attachments)[0]] + Blank(attachments)[1..];
    }
  }

  ghost predicate SameNames(a: seq<Attachment>, b: seq<Attachment>) {
    |a| == |b| && forall k | 0 <= k < |a| :: a[k].name == b[k].name
  }

  /** A name that is blank or has spaces at an end does not arrive. */
  lemma {:induction false} NamesKept(attachments: seq<Attachment>)
    requires SameNames(Announced(attachments), attachments)
    ensures Named(attachments)
  {
    if attachments != [] {
      var a, rest, r := attachments[0], attachments[1..], Announced(attachments);
      assert |Announcement(a)| == 1 && r[0] == Announcement(a)[0] && r[1..] == Announced(rest);
      TrimIs(TrimEnd(a.name));
      TrimEndIs(a.name);
      assert r[0].name == a.name;
      forall k | 0 <= k < |rest| ensures Announced(rest)[k].name == rest[k].name {
        assert r[k + 1].name == attachments[k + 1].name;
      }
      NamesKept(rest);
      forall k | 0 <= k < |attachments| ensures attachments[k].name != "" && Trimmed(attachments[k].name) {
        if k > 0 { assert attachments[k] == rest[k - 1]; }
      }
    }
  }

  /** The mail comes back as it was, whatever its texts say on one line each, if and only if no text has
      spaces at its ends, every attachment has a name, and there is a body, or no attachment whose data
      would show that it is read two bytes early. */
  ghost predicate Survives(m: Mail) {
    TrimmedText(m) && Named(m.attachments) && (m.body != [] || AllDrift(m.attachments))
  }

  function Rest(m: Mail): seq<byte> { m.body + BETWEEN + Parts(m.attachments) + [0] }

  /** A header that kept everything. */
  function Kept(m: Mail): State {
    State(m.(body := [], attachments := Blank(m.attachments)), BodyLength(m), false, false)
  }

  lemma WithBody(m: Mail, data: seq<byte>, p: nat)
    requires At(data, p, Rest(m)) && m.body != []
    ensures Contents(data, p, Kept(m)) == Mailed(m)
  {
    var tail := BETWEEN + (Parts(m.attachments) + [0]);
    assert Rest(m) == m.body + tail;
    AtNext(data, p, m.body, tail);
    assert Slice(data, p, p + |m.body|) == m.body;
    AtNext(data, p + |m.body|, BETWEEN, Parts(m.attachments) + [0]);
    AtNext(data, p + |m.body| + 2, Parts(m.attachments), [0]);
    Attached(data, p + |m.body| + 2, m.attachments);
  }

  lemma WithoutBody(m: Mail, data: seq<byte>, p: nat)
    requires At(data, p, Rest(m)) && m.body == []
    ensures Contents(data, p, Kept(m)) == Mailed(m) <==> AllDrift(m.attachments)
  {
    assert Rest(m) == BETWEEN + Parts(m.attachments) + [0];
    AtNext(data, p, BETWEEN + Parts(m.attachments), [0]);
    AttachedEarly(data, p, m.attachments);
    assert Slice(data, p, p + 0) == [];
  }

  /** What is read behind it. */
  lemma ContentsRead(m: Mail, head: seq<byte>)
    ensures Contents(head + Rest(m), |head|, Kept(m)) == Mailed(m) <==> m.body != [] || AllDrift(m.attachments)
  {
    assert (head + Rest(m))[|head|..] == Rest(m);
    if m.body != [] { WithBody(m, head + Rest(m), |head|); } else { WithoutBody(m, head + Rest(m), |head|); }
  }

  lemma NotKept(m: Mail, data: seq<byte>, ptr: nat)
    requires ptr <= |data| && Contents(data, ptr, State(Said(m), BodyLength(m), false, false)) == Mailed(m)
    ensures TrimmedText(m) && Named(m.attachments)
  {
    TextKept(m);
    var st := State(Said(m), BodyLength(m), false, false);
    var n := if st.bodyLength > 0 then st.bodyLength else 0;
    var r := Attach(data, if n > 0 then ptr + n + 2 else ptr, Announced(m.attachments));
    assert r.Some? && r.value == m.attachments;
    NamesKept(m.attachments);
  }

  lemma MailArrives(m: Mail)
    requires Unbroken(m)
    ensures Deserialize(Serialize(m)) == Mailed(m) <==> Survives(m)
  {
    var head := ToBytes(Header(m));
    assert Serialize(m) == head + Rest(m);
    HeaderRead(m, Rest(m));
    if TrimmedText(m) && Named(m.attachments) {
      TextKept(m);
      AllAnnounced(m.attachments);
      ContentsRead(m, head);
    } else if Deserialize(Serialize(m)) == Mailed(m) {
      NotKept(m, Serialize(m), |head|);
    }
  }

  // ----- the loops

  method FindFirstDoubleNewline(data: seq<byte>) returns (r: int)
    ensures r == DoubleNewline(ToText(data))
  {
    ghost var text := ToText(data);
    if |data| < 4 { return -1; }
    for i := 0 to |data| - 3
      invariant DoubleNewline(text) == var d := DoubleNewline(text[i..]); if d < 0 then -1 else i + d
    {
      ghost var s := text[i..];
      assert s[1..] == text[i + 1..];
      Newlines(data, i);
      if data[i] == 0x0D && data[i + 1] == 0x0A && data[i + 2] == 0x0D && data[i + 3] == 0x0A { return i; }
    }
    r := -1;
  }

  lemma Newlines(data: seq<byte>, i: nat)
    requires i + 4 <= |data|
    ensures ToText(data)[i..][..4] == "\r\n\r\n" <==>
            data[i] == 0x0D && data[i + 1] == 0x0A && data[i + 2] == 0x0D && data[i + 3] == 0x0A
  {
    var s := ToText(data)[i..][..4];
    assert s[0] == data[i] as char && s[1] == data[i + 1] as char && s[2] == data[i + 2] as char && s[3] == data[i + 3] as char;
    assert s == [s[0], s[1], s[2], s[3]];
  }

  method WriteHeader(m: Mail) returns (header: string)
    requires Unbroken(m)
    ensures header == Header(m)
  {
    header := Ended(FirstLines(m) + SecondLines(m) + ThirdLines(m));
    ghost var start, files := FirstLines(m) + SecondLines(m) + ThirdLines(m), FileLines(m.attachments);
    assert start + files[..0] == start;
    for k := 0 to |m.attachments|
      invariant header == Ended(start + files[..k])
    {
      FileLineAt(m.attachments, k);
      EndedSnoc(start + files[..k], files[k]);
      assert start + files[..k] + [files[k]] == start + files[..k + 1];
      header := header + FileLine(m.attachments[k]) + CRLF;
    }
    assert files[..|m.attachments|] == files && start + files == HeaderLines(m);
    header := header + CRLF;
  }

  /** serializeMail. */
  method SerializeMail(m: Mail) returns (data: seq<byte>)
    requires Unbroken(m)
    ensures data == Serialize(m)
  {
    var header := WriteHeader(m);
    var parts := ToBytes(header) + m.body + BETWEEN;
    ghost var before := parts;
    assert before + Parts(m.attachments[..0]) == before;
    for k := 0 to |m.attachments|
      invariant parts == before + Parts(m.attachments[..k])
    {
      PartsSnoc(m.attachments, k);
      parts := parts + m.attachments[k].data + BETWEEN;
    }
    assert m.attachments[..|m.attachments|] == m.attachments;
    data := parts + [0];
  }

  lemma {:induction false} FileLineAt(attachments: seq<Attachment>, k: nat)
    requires k < |attachments|
    ensures FileLines(attachments)[k] == FileLine(attachments[k])
  {
    if k > 0 { FileLineAt(attachments[1..], k - 1); }
  }

  lemma {:induction false} EndedSnoc(lines: seq<string>, line: string)
    ensures Ended(lines + [line]) == Ended(lines) + line + CRLF
  {
    if lines == [] {
      assert [] + [line] == [line] && [line][1..] == [];
    } else {
      assert (lines + [line])[1..] == lines[1..] + [line];
      EndedSnoc(lines[1..], line);
    }
  }

  lemma {:induction false} PartsSnoc(attachments: seq<Attachment>, k: nat)
    requires k < |attachments|
    ensures Parts(attachments[..k + 1]) == Parts(attachments[..k]) + attachments[k].data + BETWEEN
  {
    if k == 0 {
      assert attachments[..1] == [attachments[0]] && [attachments[0]][1..] == [];
    } else {
      assert attachments[..k + 1][1..] == attachments[1..][..k] && attachments[..k][1..] == attachments[1..][..k - 1];
      PartsSnoc(attachments[1..], k - 1);
    }
  }

  /** deserializeMail. */
  method DeserializeMail(data: seq<byte>) returns (r: Read)
    ensures r == Deserialize(data)
  {
    var headerLimit := FindFirstDoubleNewline(data);
    if headerLimit < 0 { return NoHeader; }
    var lines := Lines(ToText(data)[..headerLimit]);
    var st := START;
    for k := 0 to |lines|
      invariant TakeLines(st, lines[k..]) == TakeLines(START, lines)
    {
      assert lines[k..][1..] == lines[k + 1..];
      st := TakeLine(st, lines[k]);
    }
    DoubleNewlineFits(ToText(data));
    r := TakeContents(data, headerLimit + 4, st);
  }

  lemma {:induction false} DoubleNewlineFits(s: string)
    ensures DoubleNewline(s) + 4 <= |s| || DoubleNewline(s) == -1
  {
    if |s| >= 4 && s[..4] != "\r\n\r\n" { DoubleNewlineFits(s[1..]); }
  }

  method TakeContents(data: seq<byte>, start: nat, st: State) returns (r: Read)
    requires start <= |data|
    ensures r == Contents(data, start, st)
  {
    if st.threw { return Threw; }
    var ptr: nat := start;
    var body: seq<byte> := [];
    if st.bodyLength > 0 {
      body := Slice(data, ptr, ptr + st.bodyLength);
      ptr := ptr + st.bodyLength + 2;
    } else {
      assert Slice(data, ptr, ptr + 0) == [];
    }
    var attachments := FillAttachments(data, ptr, st.mail.attachments);
    if attachments.None? { return Threw; }
    r := Mailed(st.mail.(body := body, attachments := attachments.value));
  }

  method FillAttachments(data: seq<byte>, from: nat, blank: seq<Attachment>) returns (r: Option<seq<Attachment>>)
    ensures r == Attach(data, from, blank)
  {
    var ptr: nat := from;
    var attachments: seq<Attachment> := [];
    PutNone(Attach(data, from, blank));
    assert blank[0..] == blank;
    for k := 0 to |blank|
      invariant Attach(data, from, blank) == Put(attachments, Attach(data, ptr, blank[k..]))
    {
      if ptr > |data| { return None; }
      var a := blank[k].(data := Filled(data, ptr, |blank[k].data|));
      AttachStep(data, ptr, blank, k, a);
      PutTwice(attachments, a, Attach(data, ptr + |a.data| + 2, blank[k + 1..]));
      attachments := attachments + [a];
      ptr := ptr + |a.data| + 2;
    }
    assert attachments + [] == attachments && blank[|blank|..] == [];
    r := Some(attachments);
  }

  lemma AttachStep(data: seq<byte>, ptr: nat, blank: seq<Attachment>, k: nat, a: Attachment)
    requires k < |blank| && ptr <= |data| && a == blank[k].(data := Filled(data, ptr, |blank[k].data|))
    ensures Attach(data, ptr, blank[k..]) == Put([a], Attach(data, ptr + |a.data| + 2, blank[k + 1..]))
  {
    assert blank[k..][1..] == blank[k + 1..];
  }

  lemma PutNone(r: Option<seq<Attachment>>)
    ensures Put([], r) == r
  {
    if r.Some? { assert [] + r.value == r.value; }
  }

  ghost function Put(front: seq<Attachment>, r: Option<seq<Attachment>>): Option<seq<Attachment>> {
    match r case None => None case Some(rest) => Some(front + rest)
  }

  lemma PutTwice(front: seq<Attachment>, a: Attachment, r: Option<seq<Attachment>>)
    ensures Put(front + [a], r) == Put(front, Put([a], r))
  {
    if r.Some? { assert front + [a] + r.value == front + ([a] + r.value); }
  }
}