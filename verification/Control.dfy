/** The control channel: frames "RSD%5d<body>", printed at one end and parsed at the other. */
module Control {
  import opened Bytes
  import opened Text

  /** snprintf into 255 bytes keeps 254 characters; both printing steps do. */
  const ROOM := 254

  function Cut(s: string): (r: string)
    ensures |r| <= ROOM && r <= s && (|s| <= ROOM ==> r == s)
  {
    if |s| <= ROOM then s else s[..ROOM]
  }

  function Frame(body: string): string {
    var tmp := Cut(body);
    Cut("RSD" + Pad5(|tmp|) + tmp)
  }

  // ----- the messages of the client -----

  datatype Message = Info(written: nat) | Identity(name: string) | Stop | CloseCtl

  function Body(m: Message): string {
    match m
    case Info(n) => " INFO " + Dec(n)
    case Identity(name) => " IDENTITY " + name
    case Stop => " STOP"
    case CloseCtl => " CLOSECTL"
  }

  function Frames(ms: seq<Message>): string {
    if ms == [] then "" else Frame(Body(ms[0])) + Frames(ms[1..])
  }

  // ----- the server -----

  datatype Proto = NullMsg | StopMsg | InfoMsg(clientPtr: int) | IdentityMsg(name: string) | CloseMsg

  /** A buffer as a C string: it ends at the first NUL. */
  function CString(s: string): string {
    if s == "" || s[0] == '\0' then "" else [s[0]] + CString(s[1..])
  }

  predicate NoNul(s: string) { '\0' !in s }

  /** get_proto. */
  function GetProto(header: string): Option<Proto> {
    var s := SkipSpaces(header);
    if Contains(s, "NULL") then Some(NullMsg)
    else if Contains(s, "STOP") then Some(StopMsg)
    else if Contains(s, "INFO ") then Some(InfoMsg(Strtol(s[5..], 10)))
    else if Contains(s, "IDENTITY ") then Some(IdentityMsg(s[9..]))
    else if Contains(s, "CLOSECTL") then Some(CloseMsg)
    else None
  }

  /** The control side of one connection; `played` is the server pointer less what the backend still holds. */
  datatype Conn = Conn(inbox: string, outbox: string, identity: string, open: bool, played: int)

  function InfoReply(client: int, played: int): string { Frame(" INFO " + DecInt(client) + " " + DecInt(played)) }

  const CLOSED := "RSD   12 CLOSECTL OK"

  /** What one parsed message does; the flag says whether the loop goes on, the number what it returns if not. */
  function Act(c: Conn, p: Proto): (Conn, bool, int) {
    match p
    case NullMsg => (c, true, 0)
    case StopMsg => (c, false, -1)
    case InfoMsg(client) => (c.(outbox := c.outbox + InfoReply(client, c.played)), true, 0)
    case IdentityMsg(name) => (c.(identity := name), true, 0)
    case CloseMsg => (c.(outbox := c.outbox + CLOSED, open := false), false, 0)
  }

  function FromBlank(s: string): string {
    if s == "" || s[0] == ' ' then s else FromBlank(s[1..])
  }

  /** The length a frame header announces; None when the eight bytes are no header. */
  function Announced(header: string): Option<int> {
    var at := Find(header, "RSD");
    if at.None? then None else Some(Strtol(FromBlank(header[at.value..]), 0))
  }

  /** Both ends receive a body into an array of this size. */
  const ARRAY := 257

  /** A length handed to recv is converted to size_t. */
  function AsSize(len: int): nat { len % 0x1_0000_0000_0000_0000 }

  lemma SizeOf(len: int)
    requires -0x1_0000_0000 < len < 0x1_0000_0000
    ensures AsSize(len) == if len < 0 then len + 0x1_0000_0000_0000_0000 else len
  {
  }

  /** What a recv asked for `len` bytes stores when `waiting` are there. */
  function Stored(len: int, waiting: nat): nat { if AsSize(len) < waiting then AsSize(len) else waiting }

  /**
   handle_ctl_request: everything waiting in the socket is handled, until a message or a short read ends it.
   None when a body is received past the end of the array: the source then has no defined result.
   */
  function Handle(c: Conn): Option<(Conn, int)>
    decreases |c.inbox|
  {
    if c.inbox == "" then Some((c, 0))
    else
      var n := Min(8, |c.inbox|);
      var len := Announced(CString(c.inbox[..n]));
      var c1 := c.(inbox := c.inbox[n..]);
      if len.None? || len.value > 256 then Handle(c1)
      else
        var k := Stored(len.value, |c1.inbox|);
        var c2 := c1.(inbox := c1.inbox[k..]);
        if k > ARRAY then None
        else if k == 0 || k != len.value then Some((c2, 0))
        else
          var p := GetProto(CString(c1.inbox[..k]));
          if p.None? then Handle(c2)
          else
            var (c3, more, rc) := Act(c2, p.value);
            if more then Handle(c3) else Some((c3, rc))
  }

  /** The same loop over the socket and the fields of the connection. */
  class Server {
    var inbox: string
    var outbox: string
    var identity: string
    var open: bool
    var played: int

    ghost function State(): Conn
      reads this
    {
      Conn(inbox, outbox, identity, open, played)
    }

    method Recv(n: nat) returns (s: string)
      modifies `inbox
      ensures s == old(inbox)[..Min(n, |old(inbox)|)]
      ensures inbox == old(inbox)[Min(n, |old(inbox)|)..]
    {
      var k := Min(n, |inbox|);
      s, inbox := inbox[..k], inbox[k..];
    }

    method HandleCtlRequest() returns (rc: int)
      modifies this
      ensures old(Handle(State())).Some? ==> old(Handle(State())) == Some((State(), rc))
    {
      while inbox != ""
        invariant Handle(State()) == Handle(old(State()))
        decreases |inbox|
      {
        var header := Recv(8);
        var len := Announced(CString(header));
        if len.None? || len.value > 256 {
          continue;
        }
        var body := Recv(AsSize(len.value));
        if |body| == 0 || |body| != len.value {
          return 0;
        }
        var p := GetProto(CString(body));
        if p.Some? {
          var more, result := Perform(p.value);
          if !more {
            return result;
          }
        }
      }
      rc := 0;
    }

    /** The switch of handle_ctl_request. */
    method Perform(p: Proto) returns (more: bool, rc: int)
      modifies `outbox, `identity, `open
      ensures (State(), more, rc) == Act(old(State()), p)
    {
      more, rc := true, 0;
      match p {
        case NullMsg =>
        case StopMsg => more, rc := false, -1;
        case InfoMsg(client) => outbox := outbox + InfoReply(client, played);
        case IdentityMsg(name) => identity := name;
        case CloseMsg => outbox, open, more := outbox + CLOSED, false, false;
      }
    }
  }
}
