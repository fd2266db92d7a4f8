/** What the client prints on the control channel is what the server acts on. */
module ControlRoundTrip {
  import opened Bytes
  import opened Text
  import opened Control

  // ----- frames -----

  lemma {:induction false} CStringWhole(s: string)
    requires NoNul(s)
    ensures CString(s) == s
  {
    if s != "" {
      assert s[0] in s;
      assert NoNul(s[1..]) by {
        forall c | c in s[1..] ensures c in s {}
      }
      CStringWhole(s[1..]);
      assert [s[0]] + s[1..] == s;
    }
  }

  lemma NoNulConcat(s: string, t: string)
    ensures NoNul(s + t) <==> NoNul(s) && NoNul(t)
  {
    if !NoNul(s) {
      assert '\0' in s + t;
    }
    if !NoNul(t) {
      var i: nat :| i < |t| && t[i] == '\0';
      assert (s + t)[|s| + i] == '\0';
    }
  }

  lemma {:induction false} DigitsNoNul(s: string)
    requires AllDigits(s)
    ensures NoNul(s)
  {
  }

  lemma {:induction false} BlanksNoNul(k: nat)
    ensures NoNul(Blanks(k))
  {
    if k > 0 {
      BlanksNoNul(k - 1);
      NoNulConcat(" ", Blanks(k - 1));
    }
  }

  /** The header of a short frame announces its body. */
  lemma HeaderAnnounces(n: nat)
    requires 0 < n < 1000
    ensures var h := "RSD" + Pad5(n); |h| == 8 && CString(h) == h && Announced(h) == Some(n)
  {
    var h := "RSD" + Pad5(n);
    Pad5Reads(n);
    DecIsDigits(n);
    DigitsNoNul(Dec(n));
    BlanksNoNul(5 - |Dec(n)|);
    NoNulConcat(Blanks(5 - |Dec(n)|), Dec(n));
    NoNulConcat("RSD", Pad5(n));
    CStringWhole(h);
    AnnouncedTail(Pad5(n));
  }

  lemma FromBlankOfHeader(s: string)
    requires s != "" && s[0] == ' '
    ensures FromBlank("RSD" + s) == s
  {
    assert ("D" + s)[1..] == s;
    assert FromBlank("D" + s) == FromBlank(s);
    assert ("SD" + s)[1..] == "D" + s;
    assert FromBlank("SD" + s) == FromBlank("D" + s);
    assert ("RSD" + s)[1..] == "SD" + s;
  }

  lemma AnnouncedTail(tail: string)
    requires tail != "" && tail[0] == ' '
    ensures Announced("RSD" + tail) == Some(Strtol(tail, 0))
  {
    var h := "RSD" + tail;
    assert h[0..3] == "RSD" && At(h, "RSD", 0) && h[0..] == h;
    FromBlankOfHeader(tail);
  }

  lemma FrameShape(body: string)
    requires 0 < |body| <= 246
    ensures Frame(body) == "RSD" + Pad5(|body|) + body && |Frame(body)| == 8 + |body|
  {
    Pad5Reads(|body|);
  }

  function Next(c: Conn, p: Option<Proto>, rest: string): Option<(Conn, int)> {
    var c2 := c.(inbox := rest);
    if p.None? then Handle(c2)
    else
      var (c3, more, rc) := Act(c2, p.value);
      if more then Handle(c3) else Some((c3, rc))
  }

  lemma HandleUnfolded(c: Conn, head: string, body: string, rest: string)
    requires |head| == 8 && Announced(CString(head)) == Some(|body|) && 0 < |body| <= 256
    requires c.inbox == head + (body + rest)
    ensures Handle(c) == Next(c, GetProto(CString(body)), rest)
  {
    SizeOf(|body|);
    assert c.inbox[..8] == head && c.inbox[8..] == body + rest;
    HandleBody(c, head, body + rest, |body|);
    assert (body + rest)[..|body|] == body && (body + rest)[|body|..] == rest;
  }

  /** One turn of the loop, for a header that announces a body the socket holds. */
  lemma HandleBody(c: Conn, head: string, after: string, k: nat)
    requires |head| == 8 && |c.inbox| >= 8 && c.inbox[..8] == head && c.inbox[8..] == after
    requires Announced(CString(head)) == Some(k) && Stored(k, |after|) == k && 0 < k <= 256
    ensures k <= |after| && Handle(c) == Next(c, GetProto(CString(after[..k])), after[k..])
  {
  }

  /** The header of a short frame, and the frame around it. */
  lemma FrameHead(body: string, rest: string) returns (head: string)
    requires 0 < |body| <= 246
    ensures |head| == 8 && CString(head) == head && head == "RSD" + Pad5(|body|)
    ensures Announced(head) == Some(|body|)
    ensures Frame(body) + rest == head + (body + rest)
  {
    FrameShape(body);
    HeaderAnnounces(|body|);
    head :| head == "RSD" + Pad5(|body|);
    Rejoin(head, body, rest);
  }

  lemma Rejoin(head: string, body: string, rest: string)
    ensures (head + body) + rest == head + (body + rest)
  {
  }

  /** A whole frame at the head of the socket: its body is parsed and acted on, and the rest waits. */
  lemma HandleFrame(c: Conn, body: string, rest: string)
    requires 0 < |body| <= 246 && NoNul(body)
    requires c.inbox == Frame(body) + rest
    ensures Handle(c) == Next(c, GetProto(body), rest)
  {
    CStringWhole(body);
    var head := FrameHead(body, rest);
    HandleUnfolded(c, head, body, rest);
  }

  // ----- parsing one body -----

  /** A name whose frame the server takes as it is. */
  predicate Deliverable(name: string) {
    |name| <= 236 && !Contains(name, "NULL") && !Contains(name, "STOP") && !Contains(name, "INFO ")
  }

  lemma FirstTwo(s: string, pat: string, i: nat)
    requires |pat| >= 2
    ensures At(s, pat, i) ==> s[i] == pat[0] && s[i + 1] == pat[1]
  {
    if At(s, pat, i) {
      assert s[i..i + |pat|][0] == s[i] && s[i..i + |pat|][1] == s[i + 1];
    }
  }

  /** No command word can begin inside the word IDENTITY. */
  lemma NoWordBefore(name: string, pat: string, i: nat)
    requires pat == "NULL" || pat == "STOP" || pat == "INFO "
    requires i < 9
    ensures !At("IDENTITY " + name, pat, i)
  {
    var s := "IDENTITY " + name;
    FirstTwo(s, pat, i);
    assert s[i] == "IDENTITY "[i];
    assert i < 8 ==> s[i + 1] == "IDENTITY "[i + 1];
  }

  lemma ShiftedAt(prefix: string, name: string, pat: string, i: nat)
    ensures At(prefix + name, pat, |prefix| + i) <==> At(name, pat, i)
  {
    if i + |pat| <= |name| {
      assert (prefix + name)[|prefix| + i..|prefix| + i + |pat|] == name[i..i + |pat|];
    }
  }

  lemma WordInName(name: string, pat: string)
    requires pat == "NULL" || pat == "STOP" || pat == "INFO "
    ensures Contains("IDENTITY " + name, pat) <==> Contains(name, pat)
  {
    var s: string :| s == "IDENTITY " + name;
    if Contains(s, pat) {
      var i := Find(s, pat).value;
      if i < 9 {
        NoWordBefore(name, pat, i);
      } else {
        ShiftedAt("IDENTITY ", name, pat, i - 9);
      }
    }
    if Contains(name, pat) {
      var i := Find(name, pat).value;
      ShiftedAt("IDENTITY ", name, pat, i);
    }
  }

  lemma IdentityBody(name: string)
    ensures GetProto(" IDENTITY " + name) == Some(IdentityMsg(name))
            <==> !Contains(name, "NULL") && !Contains(name, "STOP") && !Contains(name, "INFO ")
    ensures GetProto(" IDENTITY " + name).Some?
    ensures !GetProto(" IDENTITY " + name).value.CloseMsg?
    ensures GetProto(" IDENTITY " + name).value.IdentityMsg? ==> GetProto(" IDENTITY " + name).value.name == name
  {
    var s := "IDENTITY " + name;
    assert (" IDENTITY " + name)[1..] == s;
    assert SkipSpaces(" IDENTITY " + name) == s;
    WordInName(name, "NULL");
    WordInName(name, "STOP");
    WordInName(name, "INFO ");
    assert s[0..9] == "IDENTITY " && At(s, "IDENTITY ", 0);
    assert s[9..] == name;
  }

  lemma InfoBody(n: nat)
    ensures GetProto(" INFO " + Dec(n)) == Some(InfoMsg(n))
    ensures NoNul(" INFO " + Dec(n))
  {
    var d := Dec(n);
    var s := "INFO " + d;
    assert (" INFO " + d)[1..] == s;
    DecIsDigits(n);
    DigitsNoNul(d);
    NoNulConcat(" INFO ", d);
    assert 'U' !in s && 'S' !in s by {
      forall i | 0 <= i < |s| ensures s[i] != 'U' && s[i] != 'S' {
        if i < 5 { assert s[i] == "INFO "[i]; } else { assert s[i] == d[i - 5]; }
      }
    }
    ContainedChar(s, "NULL", 1);
    ContainedChar(s, "STOP", 0);
    assert s[0..5] == "INFO " && At(s, "INFO ", 0);
    assert s[5..] == d && d + "" == d;
    ReadPrinted(n, "", 10);
    assert SkipSpaces(" INFO " + d) == s;
    assert Strtol(d, 10) == n;
    assert Contains(s, "INFO ");
    assert !Contains(s, "NULL");
    assert !Contains(s, "STOP");
  }

  lemma StopBody()
    ensures GetProto(" STOP") == Some(StopMsg) && NoNul(" STOP")
  {
    assert " STOP"[1..] == "STOP";
    ContainedChar("STOP", "NULL", 0);
    assert At("STOP", "STOP", 0);
  }

  lemma CloseBody()
    ensures GetProto(" CLOSECTL") == Some(CloseMsg) && NoNul(" CLOSECTL")
  {
    var s := "CLOSECTL";
    assert " CLOSECTL"[1..] == s;
    ContainedChar(s, "NULL", 0);
    ContainedChar(s, "STOP", 3);
    ContainedChar(s, "INFO ", 0);
    ContainedChar(s, "IDENTITY ", 0);
    assert At(s, "CLOSECTL", 0);
  }

  /** Which word of a body decides: the first of five it contains, wherever the word stands. */
  lemma WordsDecide(body: string)
    ensures var s := SkipSpaces(body);
            && (GetProto(body) == Some(NullMsg) <==> Contains(s, "NULL"))
            && (GetProto(body) == Some(StopMsg) <==> Contains(s, "STOP") && !Contains(s, "NULL"))
            && ((GetProto(body).Some? && GetProto(body).value.InfoMsg?)
                <==> Contains(s, "INFO ") && !Contains(s, "STOP") && !Contains(s, "NULL"))
            && (GetProto(body) == None ==> !Contains(s, "CLOSECTL") && !Contains(s, "IDENTITY "))
  {
  }

  /** A NULL message, and one with no known word, change nothing: the next frame is handled. */
  lemma IdleFrame(c: Conn, body: string, rest: string)
    requires 0 < |body| <= 246 && NoNul(body) && c.inbox == Frame(body) + rest
    requires GetProto(body) == None || GetProto(body) == Some(NullMsg)
    ensures Handle(c) == Handle(c.(inbox := rest))
  {
    HandleFrame(c, body, rest);
  }

  // ----- lists of messages -----

  /** A message the frame can carry: a 64-bit counter, a deliverable name, or a bare word. */
  predicate Sendable(m: Message) {
    match m
    case Info(n) => n < 0x8000_0000_0000_0000
    case Identity(name) => NoNul(name) && Deliverable(name)
    case _ => true
  }

  /** The reference: the messages acted on in order; STOP and CLOSECTL end the handling and leave the rest unread. */
  function Expected(c: Conn, ms: seq<Message>): (Conn, int)
    decreases |ms|
  {
    if ms == [] then (c.(inbox := ""), 0)
    else
      match ms[0]
      case Info(n) => Expected(c.(outbox := c.outbox + InfoReply(n, c.played)), ms[1..])
      case Identity(name) => Expected(c.(identity := name), ms[1..])
      case Stop => (c.(inbox := Frames(ms[1..])), -1)
      case CloseCtl => (c.(inbox := Frames(ms[1..]), outbox := c.outbox + CLOSED, open := false), 0)
  }

  function ProtoOf(m: Message): Proto {
    match m
    case Info(n) => InfoMsg(n)
    case Identity(name) => IdentityMsg(name)
    case Stop => StopMsg
    case CloseCtl => CloseMsg
  }

  lemma InfoLength(n: nat)
    requires n < 0x8000_0000_0000_0000
    ensures |Dec(n)| <= 19
  {
    TensValue();
    DecLength(n, 19, 10_000_000_000_000_000_000);
  }

  lemma TensValue()
    ensures Tens(19) == 10_000_000_000_000_000_000
  {
    assert Tens(4) == 10_000;
    assert Tens(8) == 100_000_000;
    assert Tens(12) == 1_000_000_000_000;
    assert Tens(16) == 10_000_000_000_000_000;
  }

  lemma BodyParses(m: Message)
    requires Sendable(m)
    ensures 0 < |Body(m)| <= 246 && NoNul(Body(m)) && GetProto(Body(m)) == Some(ProtoOf(m))
  {
    match m
    case Info(n) => InfoBody(n); InfoLength(n);
    case Identity(name) => IdentityBody(name); NoNulConcat(" IDENTITY ", name);
    case Stop => StopBody();
    case CloseCtl => CloseBody();
  }

  lemma {:induction false} ExpectedIgnoresInbox(c: Conn, ms: seq<Message>, s: string)
    ensures Expected(c.(inbox := s), ms) == Expected(c, ms)
    decreases |ms|
  {
    if ms != [] {
      match ms[0]
      case Info(n) => ExpectedIgnoresInbox(c.(outbox := c.outbox + InfoReply(n, c.played)), ms[1..], s);
      case Identity(name) => ExpectedIgnoresInbox(c.(identity := name), ms[1..], s);
      case Stop =>
      case CloseCtl =>
    }
  }

  lemma ExpectedStep(c: Conn, ms: seq<Message>)
    requires ms != []
    ensures var (c', more, rc) := Act(c.(inbox := Frames(ms[1..])), ProtoOf(ms[0]));
            Expected(c, ms) == if more then Expected(c', ms[1..]) else (c', rc)
  {
    var rest: string :| rest == Frames(ms[1..]);
    match ms[0]
    case Info(n) =>
      var reply: string :| reply == InfoReply(n, c.played);
      ExpectedIgnoresInbox(c.(outbox := c.outbox + reply), ms[1..], rest);
    case Identity(name) => ExpectedIgnoresInbox(c.(identity := name), ms[1..], rest);
    case Stop =>
    case CloseCtl =>
  }

  lemma ActKeepsInbox(c: Conn, p: Proto)
    ensures Act(c, p).0.inbox == c.inbox
  {
  }

  /** Any list of sendable messages, printed one after the other, is handled as that list. */
  lemma {:induction false} MessagesRoundTrip(c: Conn, ms: seq<Message>)
    requires c.inbox == Frames(ms) && forall i :: 0 <= i < |ms| ==> Sendable(ms[i])
    ensures Handle(c) == Some(Expected(c, ms))
    decreases |ms|
  {
    if ms != [] {
      var rest: string :| rest == Frames(ms[1..]);
      BodyParses(ms[0]);
      HandleFrame(c, Body(ms[0]), rest);
      ExpectedStep(c, ms);
      var (c', more, rc) := Act(c.(inbox := rest), ProtoOf(ms[0]));
      ActKeepsInbox(c.(inbox := rest), ProtoOf(ms[0]));
      if more {
        MessagesRoundTrip(c', ms[1..]);
      }
    }
  }

  /**
   What the frame of `name` brings the server: the leading characters of a body that is longer than 246, all
   of a shorter one.
   */
  function Arriving(name: string): string { if |name| <= 236 then name else name[..236] }

  /** How many bytes more than the frame holds its header announces. */
  function Missing(name: string): nat { if |name| <= 236 then 0 else Min(8, |name| - 236) }

  /** The body the server takes for the frame of `name` when `rest` follows. */
  function Taken(name: string, rest: string): string
    requires Missing(name) <= |rest|
  {
    " IDENTITY " + (Arriving(name) + rest[..Missing(name)])
  }

  /**
   Any name, in front of anything: a name of at most 236 bytes makes a whole frame. A longer one makes a frame of 246
   body bytes whose header announces up to eight more; the server takes those from what follows, or, when they are
   not there yet, gives up with the identity as it was.
   */
  lemma IdentityFrame(c: Conn, name: string, rest: string)
    requires NoNul(name) && |name| <= 255
    requires c.inbox == Frame(Body(Identity(name))) + rest
    ensures |rest| >= Missing(name) ==>
              Handle(c) == Next(c, GetProto(CString(Taken(name, rest))), rest[Missing(name)..])
    ensures |rest| < Missing(name) ==> Handle(c) == Some((c.(inbox := ""), 0))
  {
    if |name| <= 236 {
      WholeName(c, name, rest);
    } else if |rest| >= Missing(name) {
      OverlongName(c, name, rest);
    } else {
      var sent := " IDENTITY " + Arriving(name);
      var head := OverlongHead(name, sent, rest);
      ShortBody(c, head, sent + rest, 246 + Missing(name));
    }
  }

  lemma WholeName(c: Conn, name: string, rest: string)
    requires NoNul(name) && |name| <= 236
    requires c.inbox == Frame(" IDENTITY " + name) + rest
    ensures Handle(c) == Next(c, GetProto(CString(Taken(name, rest))), rest[0..])
  {
    NoNulConcat(" IDENTITY ", name);
    CStringWhole(" IDENTITY " + name);
    HandleFrame(c, " IDENTITY " + name, rest);
    assert rest[0..] == rest && Taken(name, rest) == " IDENTITY " + name;
  }

  lemma OverlongName(c: Conn, name: string, rest: string)
    requires 236 < |name| <= 255 && |rest| >= Missing(name)
    requires c.inbox == Frame(" IDENTITY " + name) + rest
    ensures Handle(c) == Next(c, GetProto(CString(Taken(name, rest))), rest[Missing(name)..])
  {
    var sent := " IDENTITY " + Arriving(name);
    var head := OverlongHead(name, sent, rest);
    Regroup(" IDENTITY ", Arriving(name), rest, Missing(name));
    HandleUnfolded(c, head, Taken(name, rest), rest[Missing(name)..]);
  }

  lemma Regroup(a: string, b: string, rest: string, k: nat)
    requires k <= |rest|
    ensures (a + b) + rest == (a + (b + rest[..k])) + rest[k..]
  {
    assert rest == rest[..k] + rest[k..];
  }

  /** The frame of an over-long name: its header counts up to 254 body bytes, and 246 follow. */
  lemma OverlongHead(name: string, sent: string, rest: string) returns (head: string)
    requires 236 < |name| <= 255 && sent == " IDENTITY " + Arriving(name)
    ensures |sent| == 246 && |head| == 8 && CString(head) == head && Announced(head) == Some(246 + Missing(name))
    ensures Frame(" IDENTITY " + name) + rest == head + (sent + rest)
  {
    var tmp := Cut(" IDENTITY " + name);
    assert |tmp| == 246 + Missing(name);
    Pad5Reads(|tmp|);
    HeaderAnnounces(|tmp|);
    head := "RSD" + Pad5(|tmp|);
    assert tmp[..246] == sent;
    assert Frame(" IDENTITY " + name) == (head + tmp)[..254] == head + tmp[..246];
    assert (head + sent) + rest == head + (sent + rest);
  }

  lemma ShortBody(c: Conn, head: string, body: string, len: nat)
    requires |head| == 8 && Announced(CString(head)) == Some(len) && |body| < len <= 256
    requires c.inbox == head + body
    ensures Handle(c) == Some((c.(inbox := ""), 0))
  {
    assert c.inbox[..8] == head && c.inbox[8..] == body;
    assert body[|body|..] == "";
  }

  /**
   A frame on its own: exactly the deliverable names arrive, any other leaves the identity of the connection
   as it was.
   */
  lemma IdentityArrivesIff(c: Conn, name: string)
    requires NoNul(name) && |name| <= 255
    requires c.inbox == Frame(Body(Identity(name)))
    ensures Handle(c).Some?
    ensures Handle(c).value.0.identity == if Deliverable(name) then name else c.identity
  {
    assert c.inbox == Frame(Body(Identity(name))) + "";
    IdentityFrame(c, name, "");
    if |name| <= 236 {
      NoNulConcat(" IDENTITY ", name);
      CStringWhole(" IDENTITY " + name);
      assert Taken(name, "") == " IDENTITY " + name;
      IdentityBody(name);
    }
  }

  /**
   With frames behind it an over-long name does not vanish: unless a command word is in the way, the identity becomes
   its first 236 bytes and the first bytes of the next frame, whose rest is then taken for a header.
   */
  lemma OverlongNameSwallows(c: Conn, name: string, rest: string)
    requires NoNul(name) && 236 < |name| <= 255 && |rest| >= 8 && NoNul(rest)
    requires c.inbox == Frame(Body(Identity(name))) + rest
    ensures var taken := name[..236] + rest[..Missing(name)];
            !Contains(taken, "NULL") && !Contains(taken, "STOP") && !Contains(taken, "INFO ") ==>
              Handle(c) == Handle(c.(inbox := rest[Missing(name)..], identity := taken))
  {
    IdentityFrame(c, name, rest);
    TakenWhole(name, rest);
    IdentityBody(name[..236] + rest[..Missing(name)]);
  }

  lemma TakenWhole(name: string, rest: string)
    requires NoNul(name) && 236 < |name| && |rest| >= 8 && NoNul(rest)
    ensures CString(Taken(name, rest)) == " IDENTITY " + (name[..236] + rest[..Missing(name)])
  {
    var front, back := name[..236], rest[..Missing(name)];
    assert name == front + name[236..] && rest == back + rest[Missing(name)..];
    NoNulConcat(front, name[236..]);
    NoNulConcat(back, rest[Missing(name)..]);
    NoNulConcat(front, back);
    NoNulConcat(" IDENTITY ", front + back);
    CStringWhole(Taken(name, rest));
  }

  // ----- where the receive buffer ends -----

  lemma {:induction false} CStringShorter(s: string)
    ensures |CString(s)| <= |s|
  {
    if s != "" && s[0] != '\0' { CStringShorter(s[1..]); }
  }

  lemma {:induction false} FromBlankShorter(s: string)
    ensures |FromBlank(s)| <= |s|
  {
    if s != "" && s[0] != ' ' { FromBlankShorter(s[1..]); }
  }

  /** A header announces far less than a long holds. */
  lemma AnnouncedRange(header: string)
    requires |header| <= 8 && Announced(CString(header)).Some?
    ensures -0x1_0000_0000 < Announced(CString(header)).value < 0x1_0000_0000
  {
    var h := CString(header);
    CStringShorter(header);
    FromBlankShorter(h[Find(h, "RSD").value..]);
    ShortNumber(FromBlank(h[Find(h, "RSD").value..]));
  }

  /**
   Lengths over 256 are refused, so the body stays in its array exactly when its length is not negative or too
   little is there.
   */
  lemma ServerBodyStaysIff(header: string, waiting: nat)
    requires |header| <= 8 && Announced(CString(header)).Some?
    ensures var len := Announced(CString(header)).value;
            (len <= 256 ==> Stored(len, waiting) <= ARRAY) <==> len >= 0 || waiting <= ARRAY
  {
    AnnouncedRange(header);
    SizeOf(Announced(CString(header)).value);
  }

  /** A frame that announces more than 256 bytes is not received: the server reads on in what should be its body. */
  lemma OversizeSkipped(c: Conn, header: string, rest: string)
    requires c.inbox == header + rest && |header| == 8
    requires Announced(CString(header)).Some? && Announced(CString(header)).value > 256
    ensures Handle(c) == Handle(c.(inbox := rest))
  {
    assert c.inbox[..8] == header && c.inbox[8..] == rest;
  }

  /** A shorter one that is not empty is: its body is acted on when it is all there, and otherwise ends the handling. */
  lemma BodyReceived(c: Conn, header: string, rest: string, len: nat)
    requires c.inbox == header + rest && |header| == 8
    requires Announced(CString(header)) == Some(len) && 0 < len <= 256
    ensures Handle(c) == if |rest| < len then Some((c.(inbox := ""), 0))
                         else Next(c, GetProto(CString(rest[..len])), rest[len..])
  {
    if |rest| < len {
      ShortBody(c, header, rest, len);
    } else {
      assert c.inbox[..8] == header && c.inbox[8..] == rest;
      SizeOf(len);
      HandleBody(c, header, rest, len);
    }
  }

  /** The header "RSD   -1" does it: with more than 257 bytes behind it the array is left. */
  lemma NegativeLengthLeavesArray(c: Conn, rest: string)
    requires c.inbox == "RSD   -1" + rest && |rest| > ARRAY
    ensures Handle(c) == None
  {
    MinusOne();
    assert c.inbox[..8] == "RSD   -1" && c.inbox[8..] == rest;
    SizeOf(-1);
  }

  lemma MinusOne()
    ensures CString("RSD   -1") == "RSD   -1" && Announced("RSD   -1") == Some(-1)
  {
    var tail: string :| tail == "   -1";
    assert "RSD" + tail == "RSD   -1";
    CStringWhole("RSD" + tail);
    MinusOneAfterBlanks();
    AnnouncedTail(tail);
  }

  lemma MinusOneAfterBlanks()
    ensures Strtol("   -1", 0) == -1
  {
    var number := "-1";
    assert number[1..] == "1" && Number("1", 10, 0) == 1;
    assert Blanks(1) == " " && Blanks(2) == "  " && Blanks(3) == "   ";
    BlanksSkipped(3, number, 0);
    assert Blanks(3) + number == "   -1";
  }
}
