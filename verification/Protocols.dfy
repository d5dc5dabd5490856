/** The messages between clients, services and the central server: texts made by `dump` and
    read back by `parse`. */
module Protocols {
  import opened ByteStrings
  import opened Lexical
  import opened Parsers
  import opened Printers
  import opened Results
  import opened Strings
  import opened Values
  import Brokers

  const REGISTER := Ascii("register")
  const UNREGISTER := Ascii("unregister")
  const CONNECT := Ascii("connect")
  const CONNECTION_CREATED := Ascii("connection_created")
  const CONNECTION_FAILED := Ascii("connection_failed")
  const OK := Ascii("ok")
  const ERROR := Ascii("error")
  const TYPE := Ascii("type")
  const STATUS := Ascii("status")
  const NODE_ID := Ascii("node_id")
  const ERROR_MESSAGE := Ascii("error_message")
  const NEWLINE: byte := 0x0A
  const PACKET_SIZE := 1024

  const TYPES: set<Bytes> := {REGISTER, UNREGISTER, CONNECT, CONNECTION_CREATED, CONNECTION_FAILED}

  /** `makeRequest`. */
  function MakeRequest(kind: Bytes, id: Bytes): Bytes {
    DumpText(Obj(map[TYPE := Str(kind), NODE_ID := Str(id)]), -1) + [NEWLINE]
  }

  /** `makeResponse`. */
  function MakeResponse(success: bool, message: Bytes): Bytes {
    var status := map[STATUS := Str(if success then OK else ERROR)];
    DumpText(Obj(if success then status else status[ERROR_MESSAGE := Str(message)]), -1) + [NEWLINE]
  }

  // ---- Reading messages ---------------------------------------------------------

  /** A `char` buffer as a string: up to the first NUL. */
  function CString(s: Bytes): Bytes {
    if s == [] || s[0] == 0 then [] else [s[0]] + CString(s[1..])
  }

  /** `j[key]` on a parsed message: a missing member is null. */
  function Field(j: Json, key: Bytes): Result<Json> {
    match j
    case Obj(members) => Ok(if key in members then members[key] else Null)
    case Null => Ok(Null)
    case _ => Err(DomainError)
  }

  /** `string id = j[key]`. */
  function TextField(j: Json, key: Bytes): Result<Bytes> {
    var v :- Field(j, key);
    if v.Str? then Ok(v.s) else Err(DomainError)
  }

  /** What the server takes a message for: the questions that `handleRequest` asks, in order. */
  function ReadRequest(buffer: Bytes): Result<Brokers.Request> {
    var j :- ParseText(CString(buffer));
    var kind :- Field(j, TYPE);
    if Eq(kind, Str(REGISTER)) then
      var id :- TextField(j, NODE_ID); Ok(Brokers.Register(id))
    else if Eq(kind, Str(UNREGISTER)) then
      var id :- TextField(j, NODE_ID); Ok(Brokers.Unregister(id))
    else if Eq(kind, Str(CONNECT)) then
      var id :- TextField(j, NODE_ID); Ok(Brokers.Connect(id))
    else if Eq(kind, Str(CONNECTION_CREATED)) then
      var id :- TextField(j, NODE_ID); Ok(Brokers.Status(id, true))
    else if Eq(kind, Str(CONNECTION_FAILED)) then
      var id :- TextField(j, NODE_ID); Ok(Brokers.Status(id, false))
    else Ok(Brokers.Unexpected)
  }

  datatype Reply = Success | Failure(message: Bytes)

  /** What a client takes a response for: anything but `ok` has to carry a message. */
  function ReadResponse(buffer: Bytes): Result<Reply> {
    var j :- ParseText(CString(buffer));
    var status :- Field(j, STATUS);
    if Eq(status, Str(OK)) then Ok(Success)
    else
      var message :- TextField(j, ERROR_MESSAGE); Ok(Failure(message))
  }

  /** The request that a pair of type and id stands for. */
  function Meant(kind: Bytes, id: Bytes): Brokers.Request {
    if kind == REGISTER then Brokers.Register(id)
    else if kind == UNREGISTER then Brokers.Unregister(id)
    else if kind == CONNECT then Brokers.Connect(id)
    else if kind == CONNECTION_CREATED then Brokers.Status(id, true)
    else if kind == CONNECTION_FAILED then Brokers.Status(id, false)
    else Brokers.Unexpected
  }

  // ---- What a printed message looks like ------------------------------------------

  /** No byte below the space. */
  predicate NoControls(s: Bytes) {
    forall i :: 0 <= i < |s| ==> s[i] >= 0x20
  }

  lemma {:induction false} EscapedHasNoControls(s: Bytes)
    ensures NoControls(EscapeText(s)) && |s| <= |EscapeText(s)| <= 6 * |s|
  {
    if s != [] {
      EscapedHasNoControls(s[1..]);
      EscapedByte(s[0]);
    }
  }

  lemma EscapedByte(b: byte)
    ensures NoControls(EscapeChar(b)) && 1 <= |EscapeChar(b)| <= 6
  {
  }

  lemma {:induction false} PlainText(s: Bytes)
    requires forall i :: 0 <= i < |s| ==> EscapeChar(s[i]) == [s[i]]
    ensures EscapeText(s) == s
  {
    if s != [] {
      PlainText(s[1..]);
    }
  }

  lemma TwoKeys(a: Bytes, b: Bytes)
    requires Less(a, b)
    ensures a != b && SortedKeys({a, b}) == [a, b]
  {
    LessTotal(a, b);
    assert Sorted([a, b]);
    SortedUnique(SortedKeys({a, b}), [a, b]);
  }

  const COMPACT := Layout(false, 0)

  /** The last member of a compact object, and one that others follow. */
  lemma MemberText(j: Json, keys: seq<Bytes>, x: Bytes)
    requires j.Obj? && keys != [] && (forall k :: k in keys ==> k in j.members)
    requires j.members[keys[0]] == Str(x)
    ensures keys[0] in keys
    ensures DumpMembers(j, keys, COMPACT, 0) ==
            Quoted(keys[0]) + [':' as byte] + Quoted(x)
            + (if |keys| == 1 then ['}' as byte] else [',' as byte] + DumpMembers(j, keys[1..], COMPACT, 0))
  {
    hide Quoted, Dump, DumpMembers;
    DumpMembersStep(j, keys, COMPACT, 0);
    StringText(x, COMPACT, 0);
    assert Spaces(0) == [];
  }

  /** An object with two string members. */
  lemma TwoMembers(a: Bytes, x: Bytes, b: Bytes, y: Bytes)
    requires Less(a, b)
    ensures DumpText(Obj(map[a := Str(x), b := Str(y)]), -1) ==
            ['{' as byte] + Quoted(a) + [':' as byte] + Quoted(x) + [',' as byte]
            + Quoted(b) + [':' as byte] + Quoted(y) + ['}' as byte]
  {
    hide Quoted, Less, SortedKeys, Dump, DumpMembers;
    var j := Obj(map[a := Str(x), b := Str(y)]);
    TwoKeys(a, b);
    assert j.members.Keys == {a, b};
    ObjectText(j, COMPACT, 0);
    assert [a, b][1..] == [b];
    MemberText(j, [b], y);
    MemberText(j, [a, b], x);
  }

  lemma StringText(s: Bytes, l: Layout, indent: nat)
    ensures Dump(Str(s), l, indent) == Quoted(s)
  {
  }

  lemma RequestText(kind: Bytes, id: Bytes)
    ensures MakeRequest(kind, id) ==
            ['{' as byte] + Quoted(NODE_ID) + [':' as byte] + Quoted(id) + [',' as byte]
            + Quoted(TYPE) + [':' as byte] + Quoted(kind) + ['}' as byte] + [NEWLINE]
  {
    hide Quoted, DumpText;
    assert NODE_ID[0] < TYPE[0];
    assert Less(NODE_ID, TYPE);
    TwoMembers(NODE_ID, id, TYPE, kind);
    assert map[TYPE := Str(kind), NODE_ID := Str(id)] == map[NODE_ID := Str(id), TYPE := Str(kind)];
  }

  lemma PlainLetters(s: Bytes)
    requires forall i :: 0 <= i < |s| ==> 0x5D < s[i] < 0x80
    ensures Quoted(s) == [QUOTE] + s + [QUOTE]
  {
    PlainText(s);
  }

  lemma TypesArePlain(kind: Bytes)
    requires kind in TYPES
    ensures |Quoted(kind)| == |kind| + 2 && |kind| <= |CONNECTION_CREATED|
  {
    hide Quoted;
    PlainLetters(kind);
  }

  /** The length of a request, exactly. */
  lemma RequestLength(kind: Bytes, id: Bytes)
    requires kind in TYPES
    ensures |MakeRequest(kind, id)| == 25 + |kind| + |EscapeText(id)|
  {
    hide EscapeText, DumpText;
    RequestText(kind, id);
    TypesArePlain(kind);
    PlainLetters(NODE_ID);
    PlainLetters(TYPE);
  }

  predicate FitsPacket(kind: Bytes, id: Bytes) {
    |MakeRequest(kind, id)| <= PACKET_SIZE
  }

  lemma {:induction false} WorstID(n: nat)
    ensures |EscapeText(seq(n, _ => 1 as byte))| == 6 * n
  {
    var s := seq(n, _ => 1 as byte);
    if n > 0 {
      WorstID(n - 1);
      assert s[1..] == seq(n - 1, _ => 1 as byte);
      assert |EscapeChar(1)| == 6;
    }
  }

  /** Requests about ids of length `n` are sure to fit the packet if and only if `n` is at
      most 163. */
  lemma RequestsFitUpTo163(n: nat)
    ensures n <= 163 <==> forall kind, id: Bytes :: kind in TYPES && |id| == n ==> FitsPacket(kind, id)
  {
    hide MakeRequest, EscapeText;
    forall kind, id: Bytes | kind in TYPES && |id| == n && n <= 163 ensures FitsPacket(kind, id) {
      RequestLength(kind, id);
      TypesArePlain(kind);
      EscapedHasNoControls(id);
    }
    var worst := seq(n, _ => 1 as byte);
    RequestLength(CONNECTION_CREATED, worst);
    WorstID(n);
    assert n > 163 ==> !FitsPacket(CONNECTION_CREATED, worst);
  }

  /** One line: a single newline, at the end, and no NUL anywhere. */
  predicate OneLine(s: Bytes) {
    s != [] && s[|s|-1] == NEWLINE && NoControls(s[..|s|-1])
  }

  lemma QuotedHasNoControls(s: Bytes)
    ensures NoControls(Quoted(s))
  {
    hide EscapeText;
    EscapedHasNoControls(s);
  }

  lemma RequestIsOneLine(kind: Bytes, id: Bytes)
    ensures OneLine(MakeRequest(kind, id))
  {
    hide Quoted, DumpText;
    RequestText(kind, id);
    QuotedHasNoControls(NODE_ID);
    QuotedHasNoControls(TYPE);
    QuotedHasNoControls(id);
    QuotedHasNoControls(kind);
  }

  lemma {:induction false} CStringStops(s: Bytes, junk: Bytes)
    requires forall i :: 0 <= i < |s| ==> s[i] != 0
    ensures CString(s + [0] + junk) == s
  {
    var buffer := s + [0] + junk;
    if s != [] {
      assert buffer[1..] == s[1..] + [0] + junk;
      CStringStops(s[1..], junk);
    }
  }

  lemma BufferHoldsLine(s: Bytes, junk: Bytes)
    requires OneLine(s)
    ensures CString(s + [0] + junk) == s
  {
    forall i | 0 <= i < |s| ensures s[i] != 0 {
      if i < |s| - 1 { assert s[i] == s[..|s|-1][i]; }
    }
    CStringStops(s, junk);
  }

  lemma CanonOfText(members: map<Bytes, Json>)
    requires forall k :: k in members ==> members[k].Str?
    ensures Canon(Obj(members)) == Obj(members)
  {
    forall k | k in members ensures Canon(members[k]) == members[k] { }
  }

  lemma LineParsed(members: map<Bytes, Json>)
    requires forall k :: k in members ==> members[k].Str?
    ensures ParseText(DumpText(Obj(members), -1) + [NEWLINE]) == Ok(Obj(members))
  {
    hide Dump, ParseText, Canon;
    ParseOfDump(Obj(members), COMPACT, 0, [NEWLINE]);
    CanonOfText(members);
  }

  /** The server reads a request as it was meant, whatever bytes the id consists of and
      whatever was in the buffer before. */
  lemma RequestRoundTrip(kind: Bytes, id: Bytes, junk: Bytes)
    ensures ReadRequest(MakeRequest(kind, id) + [0] + junk) == Ok(Meant(kind, id))
  {
    hide ParseText, DumpText, CString, OneLine;
    var members := map[TYPE := Str(kind), NODE_ID := Str(id)];
    assert NODE_ID[0] < TYPE[0];
    RequestIsOneLine(kind, id);
    BufferHoldsLine(MakeRequest(kind, id), junk);
    LineParsed(members);
  }

  lemma ResponseText(success: bool, message: Bytes)
    ensures OneLine(MakeResponse(success, message))
  {
    hide Quoted, Dump;
    assert ERROR_MESSAGE[0] < STATUS[0];
    QuotedHasNoControls(STATUS);
    QuotedHasNoControls(OK);
    if success {
      OneMember(STATUS, OK);
    } else {
      QuotedHasNoControls(ERROR_MESSAGE);
      QuotedHasNoControls(ERROR);
      QuotedHasNoControls(message);
      TwoMembers(ERROR_MESSAGE, message, STATUS, ERROR);
      assert map[STATUS := Str(ERROR)][ERROR_MESSAGE := Str(message)]
          == map[ERROR_MESSAGE := Str(message), STATUS := Str(ERROR)];
    }
  }

  lemma OneMember(a: Bytes, x: Bytes)
    ensures DumpText(Obj(map[a := Str(x)]), -1) ==
            ['{' as byte] + Quoted(a) + [':' as byte] + Quoted(x) + ['}' as byte]
  {
    hide Quoted, Less, SortedKeys, Dump, DumpMembers;
    var j := Obj(map[a := Str(x)]);
    assert j.members.Keys == {a};
    SortedUnique(SortedKeys({a}), [a]);
    DumpMembersStep(j, [a], COMPACT, 0);
    ObjectText(j, COMPACT, 0);
    StringText(x, COMPACT, 0);
    assert Spaces(0) == [];
  }

  /** So does a client with a response. */
  lemma ResponseRoundTrip(success: bool, message: Bytes, junk: Bytes)
    ensures ReadResponse(MakeResponse(success, message) + [0] + junk) == Ok(if success then Success else Failure(message))
  {
    hide ParseText, DumpText, CString, OneLine;
    var status := map[STATUS := Str(if success then OK else ERROR)];
    var members := if success then status else status[ERROR_MESSAGE := Str(message)];
    assert ERROR_MESSAGE[0] < STATUS[0] && |OK| < |ERROR|;
    ResponseText(success, message);
    BufferHoldsLine(MakeResponse(success, message), junk);
    LineParsed(members);
  }

  // ---- The messages as literal text ---------------------------------------------------

  predicate IsAscii(s: string) {
    forall i :: 0 <= i < |s| ==> s[i] < 128 as char
  }

  lemma AsciiConcat(a: string, b: string)
    requires IsAscii(a) && IsAscii(b)
    ensures IsAscii(a + b) && Ascii(a + b) == Ascii(a) + Ascii(b)
  {
    var x, y := Ascii(a + b), Ascii(a) + Ascii(b);
    forall i | 0 <= i < |x| ensures x[i] == y[i] {
      assert x[i] as int == (a + b)[i] as int;
    }
  }

  lemma AsciiThree(a: string, b: string, c: string)
    requires IsAscii(a) && IsAscii(b) && IsAscii(c)
    ensures IsAscii(a + b + c) && Ascii(a + b + c) == Ascii(a) + Ascii(b) + Ascii(c)
  {
    hide IsAscii;
    AsciiConcat(a, b);
    AsciiConcat(a + b, c);
  }

  lemma IDPart()
    ensures Ascii("{\"node_id\":") == ['{' as byte] + Quoted(NODE_ID) + [':' as byte]
  {
    hide EscapeText;
    PlainLetters(NODE_ID);
  }

  lemma TypePart()
    ensures Ascii(",\"type\":\"") == [',' as byte] + Quoted(TYPE) + [':' as byte] + [QUOTE]
    ensures Ascii("\"}\n") == [QUOTE] + ['}' as byte] + [NEWLINE]
  {
    hide EscapeText;
    PlainLetters(TYPE);
  }

  lemma PlainType(kind: Bytes)
    requires kind in TYPES
    ensures Quoted(kind) == [QUOTE] + kind + [QUOTE]
  {
    hide Quoted;
    PlainLetters(kind);
  }

  lemma Regroup(front: Bytes, id: Bytes, comma: Bytes, name: Bytes, colon: Bytes, q: Bytes, kind: Bytes, brace: Bytes, line: Bytes)
    ensures front + id + comma + name + colon + (q + kind + q) + brace + line
         == front + id + ((comma + name + colon + q) + kind + (q + brace + line))
  {
  }

  /** The text of a request. */
  lemma RequestLiteral(kind: string, tail: string, id: Bytes)
    requires IsAscii(kind) && Ascii(kind) in TYPES
    requires tail == ",\"type\":\"" + kind + "\"}\n"
    ensures IsAscii(tail)
    ensures MakeRequest(Ascii(kind), id) == Ascii("{\"node_id\":") + Quoted(id) + Ascii(tail)
  {
    hide MakeRequest, Quoted, Ascii;
    RequestText(Ascii(kind), id);
    PlainType(Ascii(kind));
    IDPart();
    TypePart();
    AsciiThree(",\"type\":\"", kind, "\"}\n");
    Regroup(['{' as byte] + Quoted(NODE_ID) + [':' as byte], Quoted(id), [',' as byte], Quoted(TYPE), [':' as byte],
            [QUOTE], Ascii(kind), ['}' as byte], [NEWLINE]);
  }

  /** The five requests, letter by letter. */
  const REQUEST_HEAD := Ascii("{\"node_id\":")
  const REGISTER_TAIL := Ascii(",\"type\":\"register\"}\n")
  const UNREGISTER_TAIL := Ascii(",\"type\":\"unregister\"}\n")
  const CONNECT_TAIL := Ascii(",\"type\":\"connect\"}\n")
  const CONNECTION_CREATED_TAIL := Ascii(",\"type\":\"connection_created\"}\n")
  const CONNECTION_FAILED_TAIL := Ascii(",\"type\":\"connection_failed\"}\n")

  lemma RequestsLiterally(id: Bytes)
    ensures MakeRequest(REGISTER, id) == REQUEST_HEAD + Quoted(id) + REGISTER_TAIL
    ensures MakeRequest(UNREGISTER, id) == REQUEST_HEAD + Quoted(id) + UNREGISTER_TAIL
    ensures MakeRequest(CONNECT, id) == REQUEST_HEAD + Quoted(id) + CONNECT_TAIL
    ensures MakeRequest(CONNECTION_CREATED, id) == REQUEST_HEAD + Quoted(id) + CONNECTION_CREATED_TAIL
    ensures MakeRequest(CONNECTION_FAILED, id) == REQUEST_HEAD + Quoted(id) + CONNECTION_FAILED_TAIL
  {
    hide MakeRequest, Quoted, Ascii, IsAscii;
    RegisterLiterally(id);
    UnregisterLiterally(id);
    ConnectLiterally(id);
    ConnectionCreatedLiterally(id);
    ConnectionFailedLiterally(id);
  }

  lemma RegisterLiterally(id: Bytes)
    ensures MakeRequest(REGISTER, id) == REQUEST_HEAD + Quoted(id) + REGISTER_TAIL
  {
    hide MakeRequest, Quoted, Ascii;
    RequestLiteral("register", ",\"type\":\"register\"}\n", id);
  }

  lemma UnregisterLiterally(id: Bytes)
    ensures MakeRequest(UNREGISTER, id) == REQUEST_HEAD + Quoted(id) + UNREGISTER_TAIL
  {
    hide MakeRequest, Quoted, Ascii;
    RequestLiteral("unregister", ",\"type\":\"unregister\"}\n", id);
  }

  lemma ConnectLiterally(id: Bytes)
    ensures MakeRequest(CONNECT, id) == REQUEST_HEAD + Quoted(id) + CONNECT_TAIL
  {
    hide MakeRequest, Quoted, Ascii;
    RequestLiteral("connect", ",\"type\":\"connect\"}\n", id);
  }

  lemma ConnectionCreatedLiterally(id: Bytes)
    ensures MakeRequest(CONNECTION_CREATED, id) == REQUEST_HEAD + Quoted(id) + CONNECTION_CREATED_TAIL
  {
    hide MakeRequest, Quoted, Ascii;
    RequestLiteral("connection_created", ",\"type\":\"connection_created\"}\n", id);
  }

  lemma ConnectionFailedLiterally(id: Bytes)
    ensures MakeRequest(CONNECTION_FAILED, id) == REQUEST_HEAD + Quoted(id) + CONNECTION_FAILED_TAIL
  {
    hide MakeRequest, Quoted, Ascii;
    RequestLiteral("connection_failed", ",\"type\":\"connection_failed\"}\n", id);
  }

  /** The two kinds of response. */
  const OK_RESPONSE := Ascii("{\"status\":\"ok\"}\n")
  const ERROR_HEAD := Ascii("{\"error_message\":")
  const ERROR_TAIL := Ascii(",\"status\":\"error\"}\n")

  lemma ResponsesLiterally(message: Bytes)
    ensures MakeResponse(true, message) == OK_RESPONSE
    ensures MakeResponse(false, message) == ERROR_HEAD + Quoted(message) + ERROR_TAIL
  {
    hide MakeResponse, Quoted, Ascii;
    OkLiterally(message);
    ErrorLiterally(message);
  }

  lemma OkLiterally(message: Bytes)
    ensures MakeResponse(true, message) == OK_RESPONSE
  {
    hide Dump, EscapeText;
    OneMember(STATUS, OK);
    PlainLetters(STATUS);
    PlainLetters(OK);
    assert Ascii("{\"status\":\"ok\"}\n")
        == ['{' as byte] + ([QUOTE] + STATUS + [QUOTE]) + [':' as byte] + ([QUOTE] + OK + [QUOTE]) + ['}' as byte] + [NEWLINE];
  }

  lemma ErrorLiterally(message: Bytes)
    ensures MakeResponse(false, message) == ERROR_HEAD + Quoted(message) + ERROR_TAIL
  {
    hide Dump, Quoted, Ascii;
    MessageBeforeStatus();
    TwoMembers(ERROR_MESSAGE, message, STATUS, ERROR);
    assert map[STATUS := Str(ERROR)][ERROR_MESSAGE := Str(message)]
        == map[ERROR_MESSAGE := Str(message), STATUS := Str(ERROR)];
    ErrorParts();
    Around(['{' as byte] + Quoted(ERROR_MESSAGE) + [':' as byte], Quoted(message), [',' as byte], Quoted(STATUS), [':' as byte],
           Quoted(ERROR), ['}' as byte], [NEWLINE]);
  }

  lemma MessageBeforeStatus()
    ensures Less(ERROR_MESSAGE, STATUS)
  {
    assert ERROR_MESSAGE[0] < STATUS[0];
  }

  lemma ErrorParts()
    ensures ERROR_HEAD == ['{' as byte] + Quoted(ERROR_MESSAGE) + [':' as byte]
    ensures ERROR_TAIL == [',' as byte] + Quoted(STATUS) + [':' as byte] + Quoted(ERROR) + ['}' as byte] + [NEWLINE]
  {
    hide EscapeText;
    PlainLetters(STATUS);
    PlainLetters(ERROR);
    PlainErrorMessage();
  }

  lemma PlainErrorMessage()
    ensures Quoted(ERROR_MESSAGE) == [QUOTE] + ERROR_MESSAGE + [QUOTE]
  {
    hide Quoted;
    PlainLetters(ERROR_MESSAGE);
  }

  lemma Around(front: Bytes, message: Bytes, comma: Bytes, name: Bytes, colon: Bytes, value: Bytes, brace: Bytes, line: Bytes)
    ensures front + message + comma + name + colon + value + brace + line
         == front + message + (comma + name + colon + value + brace + line)
  {
  }

  // ---- Messages from anywhere ------------------------------------------------------------

  /** A request need not come from `makeRequest`: any object, in any layout and with any other
      members, is taken for what its type and its id say. Without a known type it is
      unexpected, and with one but without a textual id it ends the server. */
  lemma AnyObjectIsRead(buffer: Bytes, members: map<Bytes, Json>)
    requires ParseText(CString(buffer)) == Ok(Obj(members))
    ensures ReadRequest(buffer) ==
            if TYPE in members && members[TYPE].Str? && members[TYPE].s in TYPES then
              if NODE_ID in members && members[NODE_ID].Str? then Ok(Meant(members[TYPE].s, members[NODE_ID].s))
              else Err(DomainError)
            else Ok(Brokers.Unexpected)
  {
    hide ParseText, CString;
  }

  /** What is no object, or no JSON at all. Null counts as an empty object. */
  lemma NoObjectIsRead(buffer: Bytes)
    requires !(ParseText(CString(buffer)).Ok? && ParseText(CString(buffer)).value.Obj?)
    ensures ReadRequest(buffer) ==
            match ParseText(CString(buffer))
            case Err(e) => Err(e)
            case Ok(j) => if j.Null? then Ok(Brokers.Unexpected) else Err(DomainError)
  {
    hide ParseText, CString;
  }

  /** Likewise any object is a response: success if and only if its status is `ok`, otherwise a
      failure, whose message has to be there. */
  lemma AnyObjectIsResponse(buffer: Bytes, members: map<Bytes, Json>)
    requires ParseText(CString(buffer)) == Ok(Obj(members))
    ensures ReadResponse(buffer) ==
            if STATUS in members && members[STATUS] == Str(OK) then Ok(Success)
            else if ERROR_MESSAGE in members && members[ERROR_MESSAGE].Str? then Ok(Failure(members[ERROR_MESSAGE].s))
            else Err(DomainError)
  {
    hide ParseText, CString;
  }

  // ---- The server's messages ------------------------------------------------------------

  function ReasonText(reason: Brokers.Reason): Bytes {
    match reason
    case AlreadyRegistered => Ascii("ID already registered")
    case NotRegistered => Ascii("ID not registered")
    case NotExpected => Ascii("REGISTER or CONNECT request expected")
    case NoService => Ascii("Could not connect to service")
  }

  /** What the server, or a child of it, writes into a connection. */
  function Wire(message: Brokers.Message): Bytes {
    match message
    case Accepted => MakeResponse(true, [])
    case Rejected(reason) => MakeResponse(false, ReasonText(reason))
    case ProxyConnect(clientID) => MakeRequest(CONNECT, clientID)
  }

  /** The other side reads what was meant. */
  lemma WireIsRead(message: Brokers.Message, junk: Bytes)
    ensures match message
            case Accepted => ReadResponse(Wire(message) + [0] + junk) == Ok(Success)
            case Rejected(reason) => ReadResponse(Wire(message) + [0] + junk) == Ok(Failure(ReasonText(reason)))
            case ProxyConnect(clientID) => ReadRequest(Wire(message) + [0] + junk) == Ok(Brokers.Connect(clientID))
  {
    hide MakeRequest, MakeResponse, ReadRequest, ReadResponse;
    match message
    case Accepted => ResponseRoundTrip(true, [], junk);
    case Rejected(reason) => ResponseRoundTrip(false, ReasonText(reason), junk);
    case ProxyConnect(clientID) =>
      RequestRoundTrip(CONNECT, clientID, junk);
      assert |CONNECT| != |REGISTER| && |CONNECT| != |UNREGISTER|;
  }
}
