/** The client's end of the control channel: INFO replies, of which only the last one counts. */
module Replies {
  import opened Bytes
  import opened Text
  import opened Control
  import opened ControlRoundTrip

  /** The two pointers rsnd_update_server_info ends up with; -1 until a reply is read. */
  datatype Pointers = Pointers(client: int, server: int)

  const UNREAD := Pointers(-1, -1)

  /** One INFO text after its header; None where the client gives up. */
  function ReadInfo(s: string, before: Pointers): Option<Pointers> {
    var at := Find(s, "INFO");
    if at.None? then Some(before)
    else
      var tail := s[at.value + 4..];
      var client, rest := Strtol(tail, 0), StrtolEnd(tail, 0);
      if client == 0 || rest == "" then None
      else if Strtol(rest, 0) <= 0 then None
      else Some(Pointers(client, Strtol(rest, 0)))
  }

  /** The receive buffer after header and body: a body shorter than the header leaves the header's end behind. */
  function Received(header: string, body: string): string {
    CString(if |body| < |header| then body + header[|body|..] else body)
  }

  /** How the reading loop ends: with pointers, with -1, or past the end of its receive buffer. */
  datatype Reading = Read(pointers: Pointers) | GaveUp | Overrun

  /** A body fills the array without a terminator: the searches that follow would leave it too. */
  predicate Unterminated(body: string) { |body| == ARRAY && NoNul(body) }

  /** The reading loop of rsnd_update_server_info. After Overrun the source has no defined result. */
  function ReadReplies(inbox: string, p: Pointers): Reading
    decreases |inbox|
  {
    if inbox == "" then Read(p)
    else if |inbox| < 8 then GaveUp
    else
      var header, rest := inbox[..8], inbox[8..];
      var at := Find(CString(header), "RSD");
      if at.None? then GaveUp
      else
        var len := Strtol(CString(header)[at.value + 3..], 0);
        var k := Stored(len, |rest|);
        if k > ARRAY then Overrun
        else if k < len then GaveUp
        else if Unterminated(rest[..k]) then Overrun
        else
          var p' := ReadInfo(Received(header, rest[..k]), p);
          if p'.None? then GaveUp else ReadReplies(rest[k..], p'.value)
  }

  class Client {
    var inbox: string

    /** The same loop over the control socket, as far as it is defined. */
    method UpdateServerInfo() returns (r: Option<Pointers>)
      modifies this
      ensures old(ReadReplies(inbox, UNREAD)).Read? ==> r == Some(old(ReadReplies(inbox, UNREAD)).pointers)
      ensures old(ReadReplies(inbox, UNREAD)).GaveUp? ==> r == None
    {
      var p := UNREAD;
      ghost var reading := ReadReplies(inbox, UNREAD);
      while inbox != ""
        invariant !reading.Overrun? ==> ReadReplies(inbox, p) == reading
        decreases |inbox|
      {
        if |inbox| < 8 {
          return None;
        }
        var header := inbox[..8];
        inbox := inbox[8..];
        var at := Find(CString(header), "RSD");
        if at.None? {
          return None;
        }
        var len := Strtol(CString(header)[at.value + 3..], 0);
        var k := Stored(len, |inbox|);
        var body := inbox[..k];
        inbox := inbox[k..];
        if k < len {
          return None;
        }
        var p' := ReadInfo(Received(header, body), p);
        if p'.None? {
          return None;
        }
        p := p'.value;
      }
      return Some(p);
    }
  }

  // ----- where the receive buffer ends -----

  /** The length the client reads from a header. */
  function ClientLength(header: string): Option<int> {
    var at := Find(CString(header), "RSD");
    if at.None? then None else Some(Strtol(CString(header)[at.value + 3..], 0))
  }

  /**
   No length is refused here: whatever waits behind it, the body stays in its array exactly for lengths from 0
   to 257.
   */
  lemma ClientBodyStaysIff(header: string)
    requires |header| <= 8 && ClientLength(header).Some?
    ensures (forall waiting :: Stored(ClientLength(header).value, waiting) <= ARRAY)
            <==> 0 <= ClientLength(header).value <= ARRAY
  {
    var h := CString(header);
    CStringShorter(header);
    var len := ClientLength(header).value;
    ShortNumber(h[Find(h, "RSD").value + 3..]);
    SizeOf(len);
    if !(0 <= len <= ARRAY) {
      assert Stored(len, ARRAY + 1) > ARRAY;
    }
  }

  /** And for a given amount waiting, exactly when the length or that amount is at most 257. */
  lemma ClientBodyStaysFor(header: string, waiting: nat)
    requires |header| <= 8 && ClientLength(header).Some?
    ensures Stored(ClientLength(header).value, waiting) <= ARRAY
            <==> 0 <= ClientLength(header).value <= ARRAY || waiting <= ARRAY
  {
    var h := CString(header);
    CStringShorter(header);
    ShortNumber(h[Find(h, "RSD").value + 3..]);
    SizeOf(ClientLength(header).value);
  }

  /** A length of 9999 does it, and so does one of -1. */
  lemma LengthsLeaveArray(rest: string, p: Pointers)
    requires |rest| > ARRAY
    ensures ReadReplies("RSD 9999" + rest, p).Overrun?
    ensures ReadReplies("RSD   -1" + rest, p).Overrun?
  {
    assert "RSD" + " 9999" == "RSD 9999" && "RSD" + "   -1" == "RSD   -1";
    NineThousand();
    OverrunsWhen("RSD", " 9999", rest, p);
    MinusOneAfterBlanks();
    OverrunsWhen("RSD", "   -1", rest, p);
  }

  lemma NineThousand()
    ensures Strtol(" 9999", 0) == 9999
  {
    assert Dec(9) == "9" && Dec(99) == "99" && Dec(999) == "999" && Dec(9999) == "9999";
    ReadPrinted(9999, "", 0);
    assert Dec(9999) + "" == "9999" && " " + "9999" == " 9999";
    Blank("9999", 0);
  }

  lemma OverrunsWhen(tag: string, number: string, rest: string, p: Pointers)
    requires tag == "RSD" && |number| == 5 && NoNul(number) && |rest| > ARRAY
    requires -0x1_0000_0000 < Strtol(number, 0) < 0 || ARRAY < Strtol(number, 0) < 0x1_0000_0000
    ensures ReadReplies(tag + number + rest, p).Overrun?
  {
    var h := tag + number;
    NoNulConcat(tag, number);
    CStringWhole(h);
    assert h[0..3] == "RSD" && At(h, "RSD", 0) && h[3..] == number;
    assert (h + rest)[..8] == h && (h + rest)[8..] == rest;
    SizeOf(Strtol(number, 0));
  }

  // ----- replies as the server prints them -----

  predicate Small(n: int) { -0x8000_0000_0000_0000 <= n < 0x8000_0000_0000_0000 }

  function ReplyBody(client: int, server: int): string { " INFO " + DecInt(client) + " " + DecInt(server) }

  function Printed(ps: seq<Pointers>): string {
    if ps == [] then "" else InfoReply(ps[0].client, ps[0].server) + Printed(ps[1..])
  }

  lemma DecIntReads(n: int, rest: string)
    requires n != 0 && EndsNumber(rest)
    ensures Strtol(DecInt(n) + rest, 0) == n && StrtolEnd(DecInt(n) + rest, 0) == rest
  {
    if n < 0 {
      ReadPrinted(-n, rest, 0);
      var s := "-" + Dec(-n) + rest;
      assert s[1..] == Dec(-n) + rest;
      assert (Dec(-n) + rest)[0] == Dec(-n)[0];
    } else {
      ReadPrinted(n, rest, 0);
    }
  }

  lemma DecIntShape(n: int)
    requires Small(n)
    ensures 0 < |DecInt(n)| <= 20 && NoNul(DecInt(n)) && 'I' !in DecInt(n)
    ensures EndsNumber(" " + DecInt(n))
  {
    var m := if n < 0 then -n else n;
    TensValue();
    DecLength(m, 19, 10_000_000_000_000_000_000);
    DecIsDigits(m);
    DigitsNoNul(Dec(m));
    NoNulConcat("-", Dec(m));
  }

  /** A server pointer of zero prints as "0", which is read as zero in base eight. */
  lemma ZeroReads()
    ensures Strtol(DecInt(0), 0) == 0
  {
  }

  lemma ZeroInFront(s: string)
    ensures Strtol(DecInt(0) + (" " + s), 0) == 0
  {
    var t := DecInt(0) + (" " + s);
    assert t[0] == '0' && t[1] == ' ' && t[1..] == " " + s;
    assert Number(t, 8, 0) == Number(t[1..], 8, 0) == 0;
  }

  lemma ReplyBodyShape(client: int, server: int)
    requires Small(client) && Small(server)
    ensures 9 <= |ReplyBody(client, server)| <= 246 && NoNul(ReplyBody(client, server))
  {
    var c, s := DecInt(client), DecInt(server);
    DecIntShape(client);
    DecIntShape(server);
    NoNulConcat(" INFO " + c, " ");
    NoNulConcat(" INFO ", c);
    NoNulConcat(" INFO " + c + " ", s);
  }

  /** Two printed numbers with a blank before each, read one after the other. */
  lemma TwoNumbers(client: int, server: int)
    ensures var tail := " " + (DecInt(client) + (" " + DecInt(server)));
            && Strtol(tail, 0) == client
            && (client != 0 ==> StrtolEnd(tail, 0) == " " + DecInt(server))
            && Strtol(" " + DecInt(server), 0) == server
  {
    var c, s := DecInt(client), DecInt(server);
    Blank(c + (" " + s), 0);
    if client == 0 { ZeroInFront(s); } else { DecIntReads(client, " " + s); }
    Blank(s, 0);
    assert s + "" == s;
    if server == 0 { ZeroReads(); } else { DecIntReads(server, ""); }
  }

  /** One reply read back: the two numbers, unless the first is zero or the second is not positive. */
  lemma ReplyBodyReads(client: int, server: int, p: Pointers)
    ensures ReadInfo(ReplyBody(client, server), p)
         == if client != 0 && server > 0 then Some(Pointers(client, server)) else None
  {
    var tail: string :| tail == " " + (DecInt(client) + (" " + DecInt(server)));
    assert ReplyBody(client, server) == " INFO" + tail;
    InfoFound(tail);
    TwoNumbers(client, server);
  }

  lemma InfoFound(tail: string)
    ensures Find(" INFO" + tail, "INFO") == Some(1) && (" INFO" + tail)[5..] == tail
  {
    var body := " INFO" + tail;
    assert body[1..5] == "INFO" && At(body, "INFO", 1);
    FirstTwo(body, "INFO", 0);
  }

  lemma HeaderLength(n: nat)
    requires 0 < n < 1000
    ensures var h := "RSD" + Pad5(n);
            && |h| == 8 && CString(h) == h
            && Find(h, "RSD") == Some(0) && Strtol(h[3..], 0) == n
  {
    HeaderAnnounces(n);
    Pad5Reads(n);
    var h := "RSD" + Pad5(n);
    assert h[0..3] == "RSD" && At(h, "RSD", 0);
    assert h[3..] == Pad5(n);
  }

  lemma RepliesUnfolded(head: string, body: string, rest: string, p: Pointers)
    requires |head| == 8 && CString(head) == head && Find(head, "RSD") == Some(0)
    requires Strtol(head[3..], 0) == |body| && 8 <= |body| < ARRAY && NoNul(body)
    ensures ReadReplies(head + (body + rest), p)
         == var p' := ReadInfo(body, p); if p'.None? then GaveUp else ReadReplies(rest, p'.value)
  {
    var inbox := head + (body + rest);
    assert inbox[..8] == head && inbox[8..] == body + rest;
    assert (body + rest)[..|body|] == body && (body + rest)[|body|..] == rest;
    SizeOf(|body|);
    CStringWhole(body);
  }

  lemma FirstReply(client: int, server: int, rest: string, p: Pointers)
    requires Small(client) && Small(server)
    ensures ReadReplies(InfoReply(client, server) + rest, p)
         == if client != 0 && server > 0 then ReadReplies(rest, Pointers(client, server)) else GaveUp
  {
    ReplyBodyShape(client, server);
    ReplyBodyReads(client, server, p);
    FirstFrame(ReplyBody(client, server), rest, p);
  }

  lemma FirstFrame(body: string, rest: string, p: Pointers)
    requires 9 <= |body| <= 246 && NoNul(body)
    ensures ReadReplies(Frame(body) + rest, p)
         == var p' := ReadInfo(body, p); if p'.None? then GaveUp else ReadReplies(rest, p'.value)
  {
    HeaderLength(|body|);
    var head := FrameHead(body, rest);
    RepliesUnfolded(head, body, rest, p);
  }

  /** A frame without INFO counts for nothing: the client reads on behind it with the pointers it had. */
  lemma OtherFrameSkipped(body: string, rest: string, p: Pointers)
    requires 9 <= |body| <= 246 && NoNul(body) && !Contains(body, "INFO")
    ensures ReadReplies(Frame(body) + rest, p) == ReadReplies(rest, p)
  {
    FirstFrame(body, rest, p);
  }

  /** A reply the client takes. */
  /**
   A body shorter than the header leaves the end of the header behind it. So a reply that lacks its server pointer is
   read with the length of its own body in that place.
   */
  lemma ShortReplyReadsItsLength(p: Pointers)
    ensures ReadReplies("RSD    6INFO 7", p) == Read(Pointers(7, 6))
  {
    var all, head, body: string := "RSD    6INFO 7", "RSD    6", "INFO 7";
    assert all[..8] == head && all[8..] == body && body[..6] == body && body[6..] == "";
    SixAnnounced();
    ShortBodyRead();
    SizeOf(6);
  }

  lemma SixAnnounced()
    ensures CString("RSD    6") == "RSD    6" && Find("RSD    6", "RSD") == Some(0)
    ensures Strtol("RSD    6"[3..], 0) == 6
  {
    assert Dec(6) == "6" && Blanks(4) == "    ";
    assert Pad5(6) == "    6" && "RSD" + "    6" == "RSD    6";
    HeaderLength(6);
  }

  lemma ShortBodyRead()
    ensures Received("RSD    6", "INFO 7") == "INFO 7 6"
    ensures ReadInfo("INFO 7 6", UNREAD) == Some(Pointers(7, 6))
  {
    var text: string :| text == "INFO 7 6";
    assert "INFO 7" + "RSD    6"[6..] == text;
    CStringWhole(text);
    InfoInFront(" 7 6");
    assert DecInt(7) == "7" && DecInt(6) == "6" && " " + ("7" + (" " + "6")) == " 7 6" && "INFO" + " 7 6" == text;
    TwoNumbers(7, 6);
  }

  lemma InfoInFront(tail: string)
    ensures Find("INFO" + tail, "INFO") == Some(0) && ("INFO" + tail)[4..] == tail
  {
    assert ("INFO" + tail)[0..4] == "INFO" && At("INFO" + tail, "INFO", 0);
  }

  predicate Counts(p: Pointers) { p.client != 0 && p.server > 0 }

  predicate AllCount(ps: seq<Pointers>) { ps == [] || (Counts(ps[0]) && AllCount(ps[1..])) }

  lemma PrintedFirst(ps: seq<Pointers>, p: Pointers)
    requires ps != [] && Small(ps[0].client) && Small(ps[0].server)
    ensures ReadReplies(Printed(ps), p)
         == if Counts(ps[0]) then ReadReplies(Printed(ps[1..]), ps[0]) else GaveUp
  {
    var rest: string :| rest == Printed(ps[1..]);
    FirstReply(ps[0].client, ps[0].server, rest, p);
  }

  /** What the client is left with: every reply counts until one is refused. */
  function Outcome(ps: seq<Pointers>, p: Pointers): Reading {
    if ps == [] then Read(p) else if Counts(ps[0]) then Outcome(ps[1..], ps[0]) else GaveUp
  }

  predicate ReadAs(inbox: string, p: Pointers, r: Reading) { ReadReplies(inbox, p) == r }

  lemma NextRead(ps: seq<Pointers>, p: Pointers, r: Reading)
    requires ps != [] && Small(ps[0].client) && Small(ps[0].server)
    requires if Counts(ps[0]) then ReadAs(Printed(ps[1..]), ps[0], r) else r == GaveUp
    ensures ReadAs(Printed(ps), p, r)
  {
    PrintedFirst(ps, p);
  }

  lemma {:induction false} PrintedRead(ps: seq<Pointers>, p: Pointers)
    requires forall i :: 0 <= i < |ps| ==> Small(ps[i].client) && Small(ps[i].server)
    ensures ReadAs(Printed(ps), p, Outcome(ps, p))
    decreases |ps|
  {
    if ps != [] {
      if Counts(ps[0]) {
        PrintedRead(ps[1..], ps[0]);
      }
      NextRead(ps, p, Outcome(ps, p));
    }
  }

  lemma {:induction false} LastCounts(ps: seq<Pointers>, p: Pointers)
    ensures Outcome(ps, p) == if AllCount(ps) then Read(if ps == [] then p else ps[|ps| - 1]) else GaveUp
    decreases |ps|
  {
    if ps != [] {
      LastCounts(ps[1..], ps[0]);
    }
  }

  /**
   Replies whose server pointer is positive and whose client pointer is not zero are read exactly, the last one kept;
   any other spoils the reading.
   */
  lemma RepliesRoundTrip(ps: seq<Pointers>, p: Pointers)
    requires forall i :: 0 <= i < |ps| ==> Small(ps[i].client) && Small(ps[i].server)
    ensures ReadReplies(Printed(ps), p)
         == if AllCount(ps) then Read(if ps == [] then p else ps[|ps| - 1]) else GaveUp
  {
    PrintedRead(ps, p);
    LastCounts(ps, p);
  }

  // ----- there and back -----

  function Queries(ns: seq<nat>): seq<Message> {
    if ns == [] then [] else [Info(ns[0])] + Queries(ns[1..])
  }

  function Answers(ns: seq<nat>, played: int): seq<Pointers> {
    if ns == [] then [] else [Pointers(ns[0], played)] + Answers(ns[1..], played)
  }

  lemma {:induction false} QueriesSendable(ns: seq<nat>)
    requires forall i :: 0 <= i < |ns| ==> 0 < ns[i] && Small(ns[i])
    ensures forall i :: 0 <= i < |Queries(ns)| ==> Sendable(Queries(ns)[i])
    decreases |ns|
  {
    if ns != [] { QueriesSendable(ns[1..]); }
  }

  lemma {:induction false} AnswersFit(ns: seq<nat>, played: int)
    requires forall i :: 0 <= i < |ns| ==> 0 < ns[i] && Small(ns[i])
    ensures |Answers(ns, played)| == |ns|
    ensures forall i :: 0 <= i < |ns| ==> Answers(ns, played)[i] == Pointers(ns[i], played)
    decreases |ns|
  {
    if ns != [] { AnswersFit(ns[1..], played); }
  }

  lemma ExpectedInfo(c: Conn, n: nat, ms: seq<Message>)
    ensures Expected(c, [Info(n)] + ms) == Expected(c.(outbox := c.outbox + InfoReply(n, c.played)), ms)
  {
    assert ([Info(n)] + ms)[1..] == ms;
  }

  function Answered(c: Conn, text: string): Conn { c.(inbox := "", outbox := c.outbox + text) }

  lemma AnsweredTwice(c: Conn, reply: string, text: string)
    ensures Answered(c.(outbox := c.outbox + reply), text) == Answered(c, reply + text)
  {
    assert (c.outbox + reply) + text == c.outbox + (reply + text);
  }

  lemma NothingAnswered(c: Conn)
    ensures Expected(c, []) == (Answered(c, ""), 0)
  {
    assert c.outbox + "" == c.outbox;
  }

  lemma {:induction false} AnswersPrinted(c: Conn, ns: seq<nat>)
    ensures Expected(c, Queries(ns)) == (Answered(c, Printed(Answers(ns, c.played))), 0)
    decreases |ns|
  {
    if ns == [] {
      NothingAnswered(c);
    } else {
      var reply: string :| reply == InfoReply(ns[0], c.played);
      var c1: Conn :| c1 == c.(outbox := c.outbox + reply);
      ExpectedInfo(c, ns[0], Queries(ns[1..]));
      AnswersPrinted(c1, ns[1..]);
      FirstAnswer(ns, c.played);
      AnsweredTwice(c, reply, Printed(Answers(ns[1..], c.played)));
    }
  }

  lemma FirstAnswer(ns: seq<nat>, played: int)
    requires ns != []
    ensures Printed(Answers(ns, played)) == InfoReply(ns[0], played) + Printed(Answers(ns[1..], played))
  {
    assert Answers(ns, played)[1..] == Answers(ns[1..], played);
  }

  lemma {:induction false} SamePositive(ns: seq<nat>, played: int)
    requires ns != [] && forall i :: 0 <= i < |ns| ==> ns[i] > 0
    ensures AllCount(Answers(ns, played)) <==> played > 0
    decreases |ns|
  {
    assert Answers(ns, played)[1..] == Answers(ns[1..], played);
    if |ns| > 1 { SamePositive(ns[1..], played); }
  }

  /**
   * The whole exchange: queries sent, handled by the server, and its answers read. The client ends up with its own last
   * counter and the server's pointer exactly when that pointer is positive.
   */
  lemma QueryRoundTrip(c: Conn, ns: seq<nat>)
    requires ns != [] && forall i :: 0 <= i < |ns| ==> 0 < ns[i] && Small(ns[i])
    requires Small(c.played) && c.outbox == "" && c.inbox == Frames(Queries(ns))
    ensures Handle(c).Some?
    ensures ReadReplies(Handle(c).value.0.outbox, UNREAD)
         == if c.played > 0 then Read(Pointers(ns[|ns| - 1], c.played)) else GaveUp
  {
    QueriesSendable(ns);
    MessagesRoundTrip(c, Queries(ns));
    AnswersPrinted(c, ns);
    AnswersFit(ns, c.played);
    RepliesRoundTrip(Answers(ns, c.played), UNREAD);
    assert "" + Printed(Answers(ns, c.played)) == Printed(Answers(ns, c.played));
    SamePositive(ns, c.played);
  }

  // ----- the end of the control channel -----

  /** What rsd_stop and rsnd_close_ctl send, and the text the latter searches what it receives for. */
  const STOP_REQUEST := "RSD    5 STOP"
  const CLOSE_REQUEST := "RSD    9 CLOSECTL"
  const CLOSE_REPLY := "RSD   12 CLOSECTL OK"

  /** Neither ends the handling. */
  predicate GoesOn(m: Message) { m.Info? || m.Identity? }

  predicate EndsWith(s: string, pat: string) { |s| >= |pat| && s[|s| - |pat|..] == pat }

  lemma {:induction false} ExpectedCloses(c: Conn, ms: seq<Message>)
    requires forall i :: 0 <= i < |ms| ==> GoesOn(ms[i])
    ensures var (c', rc) := Expected(c, ms + [CloseCtl]);
            EndsWith(c'.outbox, CLOSE_REPLY) && !c'.open && rc == 0
    decreases |ms|
  {
    if ms == [] {
      assert ms + [CloseCtl] == [CloseCtl];
    } else {
      assert (ms + [CloseCtl])[1..] == ms[1..] + [CloseCtl] && (ms + [CloseCtl])[0] == ms[0];
      match ms[0]
      case Info(n) => ExpectedCloses(c.(outbox := c.outbox + InfoReply(n, c.played)), ms[1..]);
      case Identity(name) => ExpectedCloses(c.(identity := name), ms[1..]);
    }
  }

  lemma EndContains(s: string, pat: string)
    requires EndsWith(s, pat)
    ensures Contains(s, pat)
  {
    assert At(s, pat, |s| - |pat|);
  }

  lemma ShortFrame(body: string, length: string)
    requires 0 < |body| <= 246 && length == Pad5(|body|)
    ensures Frame(body) == "RSD" + length + body
  {
    FrameShape(body);
  }

  lemma Padded()
    ensures Pad5(5) == "    5" && Pad5(9) == "    9" && Pad5(12) == "   12"
  {
    assert Dec(5) == "5" && Dec(9) == "9" && Dec(12) == Dec(1) + "2" == "12";
    assert Blanks(2) == "  " && Blanks(3) == "   " && Blanks(4) == "    ";
  }

  lemma StopText()
    ensures STOP_REQUEST == Frame(Body(Stop))
  {
    Padded();
    ShortFrame(" STOP", "    5");
  }

  lemma CloseText()
    ensures CLOSE_REQUEST == Frame(Body(CloseCtl))
  {
    Padded();
    ShortFrame(" CLOSECTL", "    9");
  }

  lemma ReplyText()
    ensures CLOSE_REPLY == Frame(" CLOSECTL OK")
  {
    Padded();
    ShortFrame(" CLOSECTL OK", "   12");
    assert "RSD" + "   12" == "RSD   12";
    ReplyParts();
  }

  lemma ReplyParts()
    ensures CLOSE_REPLY == "RSD   12" + " CLOSECTL OK"
  {
  }

  /** The texts the two ends write out are frames: each announces the length of its own body. */
  lemma WrittenFrames()
    ensures STOP_REQUEST == Frame(Body(Stop)) && CLOSE_REQUEST == Frame(Body(CloseCtl))
    ensures CLOSE_REPLY == Frame(" CLOSECTL OK")
  {
    StopText();
    CloseText();
    ReplyText();
  }

  /** What a closed connection has sent, and what the server returns. */
  predicate Closed(c: Conn, rc: int) {
    EndsWith(c.outbox, CLOSE_REPLY) && Contains(c.outbox, CLOSE_REPLY) && !c.open && rc == 0
  }

  lemma ClosedInTheEnd(c: Conn, ms: seq<Message>, c': Conn, rc: int)
    requires Expected(c, ms + [CloseCtl]) == (c', rc) && forall i :: 0 <= i < |ms| ==> GoesOn(ms[i])
    ensures Closed(c', rc)
  {
    ExpectedCloses(c, ms);
    EndContains(c'.outbox, CLOSE_REPLY);
  }

  /**
   Closing works: whatever counters and names were sent before it, the request makes the server close, and the client
   finds what it searches for in the replies.
   */
  lemma CloseIsAnswered(c: Conn, ms: seq<Message>)
    requires c.inbox == Frames(ms + [CloseCtl])
    requires forall i :: 0 <= i < |ms| ==> Sendable(ms[i]) && GoesOn(ms[i])
    ensures Handle(c).Some? && Closed(Handle(c).value.0, Handle(c).value.1)
  {
    MessagesRoundTrip(c, ms + [CloseCtl]);
    var (c', rc) := Expected(c, ms + [CloseCtl]);
    ClosedInTheEnd(c, ms, c', rc);
  }
}
