/** The central server: its tables of registered services and pending clients, and what it
    does with one request. */
module Brokers {
  import opened ByteStrings
  import opened Decimals

  /** A descriptor number, a C `int`. */
  type Fd = int

  predicate ValidFd(fd: Fd) {
    0 <= fd <= INT_MAX
  }

  /** The request that arrives on a new connection. `NoData` stands for a failing `recv`. */
  datatype Request =
    | Register(id: Bytes)
    | Unregister(id: Bytes)
    | Connect(id: Bytes)
    | Status(clientID: Bytes, success: bool)
    | Unexpected
    | NoData

  datatype Reason =
    | AlreadyRegistered
    | NotRegistered
    | NotExpected
    | NoService

  datatype Message =
    | Accepted
    | Rejected(reason: Reason)
    | ProxyConnect(clientID: Bytes)

  /** What the parent process does to the outside. A forked child gets both descriptors; it
      tells the client the outcome and, on success, relays between the two. */
  datatype Effect =
    | Opened(fd: Fd)               // returned by accept
    | Send(fd: Fd, message: Message)
    | Fork(clientFd: Fd, serverFd: Fd, success: bool)
    | Close(fd: Fd)

  /** `open` are the parent's open descriptors; `leftover` those that nothing refers to any
      more: failed registrations and failed reads. */
  datatype State = State(
    listener: Fd,
    registered: map<Bytes, Fd>,
    pending: set<Bytes>,
    open: set<Fd>,
    leftover: set<Fd>)

  /** The entry of `pendingConnections` for a descriptor. */
  function ClientID(fd: Fd): Bytes
    requires ValidFd(fd)
  {
    ToString(fd)
  }

  predicate IsClientID(s: Bytes) {
    ValidFd(Atoi(s)) && s == ClientID(Atoi(s))
  }

  lemma ClientIDRoundTrip(fd: Fd)
    requires ValidFd(fd)
    ensures IsClientID(ClientID(fd)) && Atoi(ClientID(fd)) == fd
  {
    AtoiOfToString(fd);
  }

  /** The descriptors of the pending clients. */
  function PendingFds(b: State): set<Fd> {
    set fd | fd in b.open && ValidFd(fd) && ClientID(fd) in b.pending
  }

  /** The descriptors are accounted for: every open one is exactly one of the listener, the
      control connection of one registered service, a pending client, or left over. */
  ghost predicate Consistent(b: State) {
    && (forall fd :: fd in b.open ==> ValidFd(fd))
    && (forall c :: c in b.pending ==> IsClientID(c) && Atoi(c) in b.open)
    && (forall i, j :: i in b.registered && j in b.registered && i != j ==> b.registered[i] != b.registered[j])
    && (forall i :: i in b.registered ==> b.registered[i] in b.open)
    && b.registered.Values !! PendingFds(b)
    && b.leftover !! b.registered.Values
    && b.leftover !! PendingFds(b)
    && b.listener !in b.registered.Values + PendingFds(b) + b.leftover
    && b.open == {b.listener} + b.registered.Values + PendingFds(b) + b.leftover
  }

  /** `accept`: a descriptor that was not open. */
  function Accept(b: State, fd: Fd): State {
    b.(open := b.open + {fd})
  }

  // ---- One request, as specified ----------------------------------------------

  /** The tables after a request on descriptor `fd`. */
  function Handle(b: State, fd: Fd, req: Request): State
    requires ValidFd(fd)
  {
    match req
    case Register(id) =>
      if id in b.registered then b.(leftover := b.leftover + {fd})
      else b.(registered := b.registered[id := fd])
    case Unregister(id) =>
      if id in b.registered then
        b.(registered := b.registered - {id}, open := b.open - {b.registered[id]} - {fd})
      else b.(open := b.open - {fd})
    case Connect(id) =>
      if id in b.registered then b.(pending := b.pending + {ClientID(fd)})
      else b.(open := b.open - {fd})
    case Status(clientID, _) =>
      if clientID in b.pending && IsClientID(clientID) then
        b.(pending := b.pending - {clientID}, open := b.open - {Atoi(clientID)} - {fd})
      else b.(open := b.open - {fd})
    case Unexpected => b.(open := b.open - {fd})
    case NoData => b.(leftover := b.leftover + {fd})
  }

  /** What the parent does to the outside, in order. */
  function Effects(b: State, fd: Fd, req: Request): seq<Effect>
    requires ValidFd(fd)
  {
    match req
    case Register(id) => [Send(fd, if id in b.registered then Rejected(AlreadyRegistered) else Accepted)]
    case Unregister(id) =>
      (if id in b.registered then [Close(b.registered[id])] else []) + [Send(fd, Accepted), Close(fd)]
    case Connect(id) =>
      if id in b.registered then [Send(b.registered[id], ProxyConnect(ClientID(fd)))]
      else [Send(fd, Rejected(NotRegistered)), Close(fd)]
    case Status(clientID, success) =>
      if clientID in b.pending && IsClientID(clientID) then
        [Fork(Atoi(clientID), fd, success), Close(Atoi(clientID)), Close(fd)]
      else [Send(fd, Rejected(NotRegistered)), Close(fd)]
    case Unexpected => [Send(fd, Rejected(NotExpected)), Close(fd)]
    case NoData => []
  }

  // ---- What every request keeps -----------------------------------------------

  lemma PendingAfterAdding(b: State, fd: Fd, c: Fd)
    requires ValidFd(fd) && ValidFd(c)
    ensures ClientID(c) in b.pending + {ClientID(fd)} <==> c == fd || ClientID(c) in b.pending
    ensures ClientID(c) in b.pending - {ClientID(fd)} <==> c != fd && ClientID(c) in b.pending
  {
    ClientIDRoundTrip(fd);
    ClientIDRoundTrip(c);
  }

  lemma NotYetPending(b: State, fd: Fd)
    requires Consistent(b) && ValidFd(fd) && fd !in b.open
    ensures ClientID(fd) !in b.pending && fd !in b.registered.Values && fd !in b.leftover
  {
    ClientIDRoundTrip(fd);
  }

  lemma ValuesAdd(m: map<Bytes, Fd>, k: Bytes, v: Fd)
    requires k !in m
    ensures m[k := v].Values == m.Values + {v}
  {
    var m' := m[k := v];
    forall x ensures x in m'.Values <==> x in m.Values + {v} {
      if x in m.Values {
        var i :| i in m && m[i] == x;
        assert m'[i] == x;
      }
      assert m'[k] == v;
    }
  }

  lemma ValuesRemove(m: map<Bytes, Fd>, k: Bytes)
    requires k in m && forall i, j :: i in m && j in m && i != j ==> m[i] != m[j]
    ensures (m - {k}).Values == m.Values - {m[k]}
  {
    var m' := m - {k};
    forall x ensures x in m'.Values <==> x in m.Values - {m[k]} {
      if x in m.Values && x != m[k] {
        var i :| i in m && m[i] == x;
        assert m'[i] == x;
      }
    }
  }

  lemma KeptWithoutTrace(b: State, fd: Fd)
    requires Consistent(b) && ValidFd(fd) && fd !in b.open
    ensures Accept(b, fd).(open := Accept(b, fd).open - {fd}) == b
    ensures Consistent(Accept(b, fd).(leftover := b.leftover + {fd}))
  {
    hide ClientID;
    NotYetPending(b, fd);
    assert Accept(b, fd).open - {fd} == b.open;
    assert PendingFds(Accept(b, fd)) == PendingFds(b);
  }

  lemma KeptByRegister(b: State, fd: Fd, id: Bytes)
    requires Consistent(b) && ValidFd(fd) && fd !in b.open && id !in b.registered
    ensures Consistent(Handle(Accept(b, fd), fd, Register(id)))
  {
    hide ClientID;
    NotYetPending(b, fd);
    ValuesAdd(b.registered, id, fd);
    assert PendingFds(Accept(b, fd)) == PendingFds(b);
  }

  lemma KeptByUnregister(b: State, fd: Fd, id: Bytes)
    requires Consistent(b) && ValidFd(fd) && fd !in b.open && id in b.registered
    ensures Consistent(Handle(Accept(b, fd), fd, Unregister(id)))
  {
    hide ClientID;
    var b' := Handle(Accept(b, fd), fd, Unregister(id));
    var gone := b.registered[id];
    NotYetPending(b, fd);
    ValuesRemove(b.registered, id);
    assert gone !in PendingFds(b);
    assert b'.open == b.open - {gone};
    assert PendingFds(b') == PendingFds(b);
  }

  lemma KeptByConnect(b: State, fd: Fd, id: Bytes)
    requires Consistent(b) && ValidFd(fd) && fd !in b.open && id in b.registered
    ensures Consistent(Handle(Accept(b, fd), fd, Connect(id)))
  {
    hide ClientID;
    var b' := Handle(Accept(b, fd), fd, Connect(id));
    NotYetPending(b, fd);
    ClientIDRoundTrip(fd);
    forall c | ValidFd(c) { PendingAfterAdding(b, fd, c); }
    assert PendingFds(b') == PendingFds(b) + {fd};
  }

  lemma KeptByStatus(b: State, fd: Fd, clientID: Bytes, success: bool)
    requires Consistent(b) && ValidFd(fd) && fd !in b.open && clientID in b.pending
    ensures Consistent(Handle(Accept(b, fd), fd, Status(clientID, success)))
  {
    hide ClientID;
    var b' := Handle(Accept(b, fd), fd, Status(clientID, success));
    var client := Atoi(clientID);
    NotYetPending(b, fd);
    forall c | ValidFd(c) { PendingAfterAdding(b, client, c); }
    assert client in PendingFds(b);
    assert b'.open == b.open - {client};
    assert PendingFds(b') == PendingFds(b) - {client};
  }

  /** Handling a request keeps the accounting. */
  lemma HandleKeepsConsistent(b: State, fd: Fd, req: Request)
    requires Consistent(b) && ValidFd(fd) && fd !in b.open
    ensures Consistent(Handle(Accept(b, fd), fd, req))
  {
    hide Consistent;
    KeptWithoutTrace(b, fd);
    match req
    case Register(id) => if id !in b.registered { KeptByRegister(b, fd, id); }
    case Unregister(id) => if id in b.registered { KeptByUnregister(b, fd, id); }
    case Connect(id) => if id in b.registered { KeptByConnect(b, fd, id); }
    case Status(clientID, success) => if clientID in b.pending { KeptByStatus(b, fd, clientID, success); }
    case _ =>
  }

  /** Every descriptor is open when something is sent to it, handed to a child or closed, none
      is open when it is accepted, and acceptances and closings turn `open` into `open'`. */
  predicate Proper(open: set<Fd>, effects: seq<Effect>, open': set<Fd>)
    decreases |effects|
  {
    if effects == [] then open == open' else
    match effects[0]
    case Opened(fd) => fd !in open && Proper(open + {fd}, effects[1..], open')
    case Send(fd, _) => fd in open && Proper(open, effects[1..], open')
    case Fork(c, s, _) => c in open && s in open && c != s && Proper(open, effects[1..], open')
    case Close(fd) => fd in open && Proper(open - {fd}, effects[1..], open')
  }

  lemma ProperReply(open: set<Fd>, fd: Fd, message: Message)
    requires fd in open
    ensures Proper(open, [Send(fd, message), Close(fd)], open - {fd})
  {
    assert [Send(fd, message), Close(fd)][1..] == [Close(fd)];
    assert Proper(open, [Close(fd)], open - {fd}) by { assert [Close(fd)][1..] == []; }
  }

  lemma ProperHandOver(open: set<Fd>, client: Fd, fd: Fd, success: bool)
    requires fd in open && client in open && client != fd
    ensures Proper(open, [Fork(client, fd, success), Close(client), Close(fd)], open - {client} - {fd})
  {
    assert [Fork(client, fd, success), Close(client), Close(fd)][1..] == [Close(client), Close(fd)];
    assert [Close(client), Close(fd)][1..] == [Close(fd)];
    assert Proper(open - {client}, [Close(fd)], open - {client} - {fd}) by { assert [Close(fd)][1..] == []; }
    assert Proper(open, [Close(client), Close(fd)], open - {client} - {fd});
  }

  /** Nothing is sent to, handed to a child or closed that is not open at that moment. */
  lemma EffectsAreProper(b: State, fd: Fd, req: Request)
    requires Consistent(b) && ValidFd(fd) && fd !in b.open
    ensures var b1 := Accept(b, fd);
            Proper(b1.open, Effects(b1, fd, req), Handle(b1, fd, req).open)
  {
    hide ClientID;
    var b1 := Accept(b, fd);
    var effects := Effects(b1, fd, req);
    ProperReply(b1.open, fd, Accepted);
    ProperReply(b1.open, fd, Rejected(NotRegistered));
    ProperReply(b1.open, fd, Rejected(NotExpected));
    match req
    case Unregister(id) =>
      if id in b.registered {
        var gone := b.registered[id];
        ProperReply(b1.open - {gone}, fd, Accepted);
        assert effects == [Close(gone)] + [Send(fd, Accepted), Close(fd)];
        assert effects[1..] == [Send(fd, Accepted), Close(fd)];
      } else {
        assert effects == [Send(fd, Accepted), Close(fd)];
      }
    case Status(clientID, success) =>
      if clientID in b.pending { ProperHandOver(b1.open, Atoi(clientID), fd, success); }
    case _ =>
  }

  // ---- Who is told what -------------------------------------------------------

  /** The messages that go to one descriptor. */
  function MessagesTo(effects: seq<Effect>, fd: Fd): seq<Message> {
    if effects == [] then []
    else (if effects[0].Send? && effects[0].fd == fd then [effects[0].message] else []) + MessagesTo(effects[1..], fd)
  }

  lemma FewMessages(x: Effect, y: Effect, z: Effect, fd: Fd)
    ensures MessagesTo([], fd) == []
    ensures MessagesTo([x], fd) == if x.Send? && x.fd == fd then [x.message] else []
    ensures MessagesTo([x, y], fd) == MessagesTo([x], fd) + MessagesTo([y], fd)
    ensures MessagesTo([x, y, z], fd) == MessagesTo([x], fd) + MessagesTo([y], fd) + MessagesTo([z], fd)
  {
    assert [x][1..] == [] && [y][1..] == [] && [z][1..] == [];
    assert [x, y][1..] == [y] && [y, z][1..] == [z] && [x, y, z][1..] == [y, z];
    assert MessagesTo([y, z], fd) == MessagesTo([y], fd) + MessagesTo([z], fd);
  }

  /** A registration is accepted if and only if the server afterwards holds the id for just this
      connection; otherwise it is told that the id is taken, and the id keeps its descriptor. */
  lemma RegistrationIsAnswered(b: State, fd: Fd, id: Bytes)
    requires Consistent(b) && ValidFd(fd) && fd !in b.open
    ensures var b1 := Accept(b, fd);
            var b' := Handle(b1, fd, Register(id));
            var held := id in b'.registered && b'.registered[id] == fd;
            && MessagesTo(Effects(b1, fd, Register(id)), fd) == [if held then Accepted else Rejected(AlreadyRegistered)]
            && b'.registered == (if held then b.registered[id := fd] else b.registered) && b'.pending == b.pending
            && (!held ==> id in b.registered)
            && (held <==> id !in b.registered) && fd in b'.open
  {
    FewMessages(Effects(Accept(b, fd), fd, Register(id))[0], Close(fd), Close(fd), fd);
    NotYetPending(b, fd);
  }

  /** An id is unregistered, and its control connection closed, whether it was registered or
      not, and whoever asks; all other ids stay. */
  lemma UnregistrationIsAnswered(b: State, fd: Fd, id: Bytes)
    requires Consistent(b) && ValidFd(fd) && fd !in b.open
    ensures var b1 := Accept(b, fd);
            var b' := Handle(b1, fd, Unregister(id));
            && MessagesTo(Effects(b1, fd, Unregister(id)), fd) == [Accepted]
            && id !in b'.registered && fd !in b'.open && (id in b.registered ==> b.registered[id] !in b'.open)
            && b'.pending == b.pending
            && forall other :: other in b.registered && other != id ==>
                 other in b'.registered && b'.registered[other] == b.registered[other]
  {
    var effects := Effects(Accept(b, fd), fd, Unregister(id));
    NotYetPending(b, fd);
    if id in b.registered {
      assert effects == [Close(b.registered[id]), Send(fd, Accepted), Close(fd)];
      FewMessages(effects[0], effects[1], effects[2], fd);
    } else {
      assert effects == [Send(fd, Accepted), Close(fd)];
      FewMessages(effects[0], effects[1], Close(fd), fd);
    }
  }

  /** A connect request for an unknown id is rejected and leaves no trace. For a known one the
      client is not told anything yet but is pending, and the one message that is sent goes to
      the service registered under the id and names this client. */
  lemma ConnectIsAnswered(b: State, fd: Fd, id: Bytes)
    requires Consistent(b) && ValidFd(fd) && fd !in b.open
    ensures var b1 := Accept(b, fd);
            var b' := Handle(b1, fd, Connect(id));
            var effects := Effects(b1, fd, Connect(id));
            if id in b.registered then
              && MessagesTo(effects, b.registered[id]) == [ProxyConnect(ClientID(fd))] && |effects| == 1
              && b.registered[id] != fd && fd in b'.open && Atoi(ClientID(fd)) == fd
              && b'.pending == b.pending + {ClientID(fd)} && b'.registered == b.registered
            else MessagesTo(effects, fd) == [Rejected(NotRegistered)] && b' == b
  {
    hide ClientID;
    var effects := Effects(Accept(b, fd), fd, Connect(id));
    NotYetPending(b, fd);
    ClientIDRoundTrip(fd);
    KeptWithoutTrace(b, fd);
    if id in b.registered {
      FewMessages(effects[0], Close(fd), Close(fd), b.registered[id]);
    } else {
      assert effects == [Send(fd, Rejected(NotRegistered)), Close(fd)];
      FewMessages(effects[0], effects[1], Close(fd), fd);
    }
  }

  /** A report about an unknown client is rejected and leaves no trace. One about a pending
      client is handed to a child together with both connections and not answered; the client
      is then pending no more, and the parent has closed both. */
  lemma StatusIsAnswered(b: State, fd: Fd, clientID: Bytes, success: bool)
    requires Consistent(b) && ValidFd(fd) && fd !in b.open
    ensures var b1 := Accept(b, fd);
            var b' := Handle(b1, fd, Status(clientID, success));
            var effects := Effects(b1, fd, Status(clientID, success));
            if clientID in b.pending then
              && effects[0] == Fork(Atoi(clientID), fd, success)
              && (forall f :: MessagesTo(effects, f) == [])
              && b'.pending == b.pending - {clientID} && b'.registered == b.registered
              && b'.open == b.open - {Atoi(clientID)}
            else MessagesTo(effects, fd) == [Rejected(NotRegistered)] && b' == b
  {
    hide ClientID;
    var effects := Effects(Accept(b, fd), fd, Status(clientID, success));
    NotYetPending(b, fd);
    KeptWithoutTrace(b, fd);
    if clientID in b.pending {
      forall f ensures MessagesTo(effects, f) == [] { FewMessages(effects[0], effects[1], effects[2], f); }
      assert b.open + {fd} - {Atoi(clientID)} - {fd} == b.open - {Atoi(clientID)};
    } else {
      assert effects == [Send(fd, Rejected(NotRegistered)), Close(fd)];
      FewMessages(effects[0], effects[1], Close(fd), fd);
    }
  }

  /** Any other request is rejected, a failing read is not answered; neither changes a table. */
  lemma OthersAreAnswered(b: State, fd: Fd)
    requires Consistent(b) && ValidFd(fd) && fd !in b.open
    ensures var b1 := Accept(b, fd);
            && MessagesTo(Effects(b1, fd, Unexpected), fd) == [Rejected(NotExpected)]
            && Handle(b1, fd, Unexpected) == b
            && Effects(b1, fd, NoData) == [] && Handle(b1, fd, NoData) == b1.(leftover := b.leftover + {fd})
  {
    KeptWithoutTrace(b, fd);
    FewMessages(Send(fd, Rejected(NotExpected)), Close(fd), Close(fd), fd);
  }

  /** The forked child: it tells the client the outcome, and relays or not; either way its two
      descriptors are closed in the end, by the relay or by itself. */
  function ChildEffects(clientFd: Fd, serverFd: Fd, success: bool): seq<Effect> {
    if success then [Send(clientFd, Accepted), Close(clientFd), Close(serverFd)]
    else [Send(clientFd, Rejected(NoService)), Close(clientFd), Close(serverFd)]
  }

  /** The client is told once, that it is connected if and only if the report says so, and the
      worker is told nothing. */
  lemma ChildTellsClient(clientFd: Fd, serverFd: Fd, success: bool)
    requires clientFd != serverFd
    ensures var effects := ChildEffects(clientFd, serverFd, success);
            && |MessagesTo(effects, clientFd)| == 1 && (MessagesTo(effects, clientFd)[0] == Accepted <==> success)
            && MessagesTo(effects, serverFd) == []
            && Proper({clientFd, serverFd}, effects, {})
  {
    var effects := ChildEffects(clientFd, serverFd, success);
    FewMessages(effects[0], effects[1], effects[2], clientFd);
    FewMessages(effects[0], effects[1], effects[2], serverFd);
    assert effects[1..] == [Close(clientFd), Close(serverFd)];
    assert [Close(clientFd), Close(serverFd)][1..] == [Close(serverFd)];
    assert [Close(serverFd)][1..] == [];
    assert Proper({serverFd}, [Close(serverFd)], {});
    assert {clientFd, serverFd} - {clientFd} == {serverFd};
  }

  lemma PendingAreIDs(b: State)
    requires Consistent(b)
    ensures forall c :: c in b.pending ==> IsClientID(c)
  {
  }

  /** An id keeps its descriptor until a request unregisters that id. */
  lemma RegistrationIsStable(b: State, fd: Fd, req: Request, id: Bytes)
    requires Consistent(b) && ValidFd(fd) && fd !in b.open && id in b.registered
    requires req != Unregister(id)
    ensures id in Handle(Accept(b, fd), fd, req).registered
    ensures Handle(Accept(b, fd), fd, req).registered[id] == b.registered[id]
  {
  }

  predicate Arrives(b: State, arrival: (Fd, Request)) {
    ValidFd(arrival.0) && arrival.0 !in b.open
  }

  /** The state after a sequence of arrivals, each on a descriptor that is not open then. */
  function HandleAll(b: State, arrivals: seq<(Fd, Request)>): State
    decreases |arrivals|
  {
    if arrivals == [] then b else
    var (fd, req) := arrivals[0];
    HandleAll(if Arrives(b, arrivals[0]) then Handle(Accept(b, fd), fd, req) else b, arrivals[1..])
  }

  /** The accounting holds over every run, whatever the peers send. */
  lemma {:induction false} AlwaysConsistent(b: State, arrivals: seq<(Fd, Request)>)
    requires Consistent(b)
    ensures Consistent(HandleAll(b, arrivals))
    decreases |arrivals|
  {
    hide Consistent, Handle;
    if arrivals != [] {
      var (fd, req) := arrivals[0];
      if Arrives(b, arrivals[0]) {
        HandleKeepsConsistent(b, fd, req);
        AlwaysConsistent(Handle(Accept(b, fd), fd, req), arrivals[1..]);
      } else {
        AlwaysConsistent(b, arrivals[1..]);
      }
    }
  }

  /** What the parent does to the outside over a whole run, in order. */
  function AllEffects(b: State, arrivals: seq<(Fd, Request)>): seq<Effect>
    decreases |arrivals|
  {
    if arrivals == [] then []
    else if !Arrives(b, arrivals[0]) then AllEffects(b, arrivals[1..])
    else
      var (fd, req) := arrivals[0];
      [Opened(fd)] + Effects(Accept(b, fd), fd, req) + AllEffects(Handle(Accept(b, fd), fd, req), arrivals[1..])
  }

  lemma {:induction false} ProperConcat(open: set<Fd>, a: seq<Effect>, mid: set<Fd>, b: seq<Effect>, open': set<Fd>)
    requires Proper(open, a, mid) && Proper(mid, b, open')
    ensures Proper(open, a + b, open')
    decreases |a|
  {
    if a == [] {
      assert a + b == b;
    } else {
      assert (a + b)[0] == a[0] && (a + b)[1..] == a[1..] + b;
      match a[0]
      case Opened(fd) => ProperConcat(open + {fd}, a[1..], mid, b, open');
      case Send(_, _) => ProperConcat(open, a[1..], mid, b, open');
      case Fork(_, _, _) => ProperConcat(open, a[1..], mid, b, open');
      case Close(fd) => ProperConcat(open - {fd}, a[1..], mid, b, open');
    }
  }

  lemma ProperOpening(b: State, fd: Fd)
    requires fd !in b.open
    ensures Proper(b.open, [Opened(fd)], Accept(b, fd).open)
  {
    assert [Opened(fd)][1..] == [];
  }

  /** Over every run, whatever the peers send: the descriptors that are open at the end are
      those that were open or accepted and not closed since, and at no point is one used,
      closed or handed on that is not open. */
  lemma {:induction false} AllEffectsAreProper(b: State, arrivals: seq<(Fd, Request)>)
    requires Consistent(b)
    ensures Proper(b.open, AllEffects(b, arrivals), HandleAll(b, arrivals).open)
    decreases |arrivals|
  {
    hide Consistent, Handle, Effects, Accept;
    if arrivals != [] {
      var (fd, req) := arrivals[0];
      if Arrives(b, arrivals[0]) {
        var b1 := Accept(b, fd);
        var b2 := Handle(b1, fd, req);
        HandleKeepsConsistent(b, fd, req);
        AllEffectsAreProper(b2, arrivals[1..]);
        ProperOpening(b, fd);
        EffectsAreProper(b, fd, req);
        ProperConcat(b.open, [Opened(fd)], b1.open, Effects(b1, fd, req), b2.open);
        ProperConcat(b.open, [Opened(fd)] + Effects(b1, fd, req), b2.open, AllEffects(b2, arrivals[1..]),
                     HandleAll(b, arrivals).open);
      } else {
        AllEffectsAreProper(b, arrivals[1..]);
      }
    }
  }

  /** Over every run, whatever else arrives: an id keeps its descriptor, which stays open, as
      long as nobody unregisters that id. */
  lemma {:induction false} RegistrationStays(b: State, arrivals: seq<(Fd, Request)>, id: Bytes)
    requires Consistent(b) && id in b.registered
    requires forall i :: 0 <= i < |arrivals| ==> arrivals[i].1 != Unregister(id)
    ensures var b' := HandleAll(b, arrivals);
            id in b'.registered && b'.registered[id] == b.registered[id] && b.registered[id] in b'.open
    decreases |arrivals|
  {
    hide Handle, Accept, PendingFds;
    if arrivals != [] {
      var (fd, req) := arrivals[0];
      assert forall i :: 0 <= i < |arrivals| - 1 ==> arrivals[1..][i] == arrivals[i + 1];
      if Arrives(b, arrivals[0]) {
        HandleKeepsConsistent(b, fd, req);
        RegistrationIsStable(b, fd, req, id);
        RegistrationStays(Handle(Accept(b, fd), fd, req), arrivals[1..], id);
      } else {
        RegistrationStays(b, arrivals[1..], id);
      }
    }
  }

  // ---- The server object ------------------------------------------------------

  class Server {
    var serverMap: map<Bytes, Fd>
    var pendingConnections: set<Bytes>
    var sockFd: Fd

    /** The outside: the descriptors open in the parent, those nothing refers to, and what
        the parent has done. */
    ghost var open: set<Fd>
    ghost var leftover: set<Fd>
    ghost var log: seq<Effect>

    ghost function View(): State
      reads this
    {
      State(sockFd, serverMap, pendingConnections, open, leftover)
    }

    ghost predicate Valid()
      reads this
    {
      Consistent(View())
    }

    constructor (sockFd: Fd)
      requires ValidFd(sockFd)
      ensures Valid() && log == []
      ensures View() == State(sockFd, map[], {}, {sockFd}, {})
    {
      this.sockFd := sockFd;
      serverMap, pendingConnections := map[], {};
      open, leftover, log := {sockFd}, {}, [];
    }

    /** `registerServer`: 0 on success, -1 if the id is taken. */
    method RegisterServer(id: Bytes, serverFd: Fd) returns (r: int)
      modifies this`serverMap
      ensures r == if id in old(serverMap) then -1 else 0
      ensures serverMap == if id in old(serverMap) then old(serverMap) else old(serverMap)[id := serverFd]
    {
      if id in serverMap {
        return -1;
      }
      serverMap := serverMap[id := serverFd];
      return 0;
    }

    method SendTo(fd: Fd, message: Message)
      modifies this`log
      ensures log == old(log) + [Send(fd, message)]
    {
      log := log + [Send(fd, message)];
    }

    method CloseFd(fd: Fd)
      modifies this`log, this`open
      ensures log == old(log) + [Close(fd)] && open == old(open) - {fd}
    {
      log := log + [Close(fd)];
      open := open - {fd};
    }

    /** `updateConnectionStatus`, in the parent. */
    method UpdateConnectionStatus(clientID: Bytes, serverFd: Fd, success: bool)
      requires clientID in pendingConnections ==> IsClientID(clientID)
      modifies this`pendingConnections, this`open, this`log
      ensures clientID in old(pendingConnections) ==>
                && pendingConnections == old(pendingConnections) - {clientID}
                && open == old(open) - {Atoi(clientID)}
                && log == old(log) + [Fork(Atoi(clientID), serverFd, success), Close(Atoi(clientID))]
      ensures clientID !in old(pendingConnections) ==>
                && pendingConnections == old(pendingConnections) && open == old(open)
                && log == old(log) + [Send(serverFd, Rejected(NotRegistered))]
    {
      if clientID in pendingConnections {
        var clientFd := Atoi(clientID);
        log := log + [Fork(clientFd, serverFd, success)];
        pendingConnections := pendingConnections - {clientID};
        CloseFd(clientFd);
      } else {
        SendTo(serverFd, Rejected(NotRegistered));
      }
    }

    /** `handleRequest` on a descriptor that `accept` has just returned; -1 if nothing could
        be read. */
    method HandleRequest(requestFd: Fd, req: Request) returns (r: int)
      requires Valid() && ValidFd(requestFd) && requestFd !in open
      modifies this
      ensures Valid() && sockFd == old(sockFd)
      ensures r == if req.NoData? then -1 else 0
      ensures View() == Handle(Accept(old(View()), requestFd), requestFd, req)
      ensures log == old(log) + Effects(Accept(old(View()), requestFd), requestFd, req)
    {
      hide ClientID, Consistent;
      HandleKeepsConsistent(View(), requestFd, req);
      PendingAreIDs(View());
      open := open + {requestFd};
      r := 0;
      match req
      case NoData =>
        leftover := leftover + {requestFd};
        r := -1;
      case Register(id) =>
        var failed := RegisterServer(id, requestFd);
        if failed != 0 {
          leftover := leftover + {requestFd};
          SendTo(requestFd, Rejected(AlreadyRegistered));
        } else {
          SendTo(requestFd, Accepted);
        }
      case Unregister(id) =>
        if id in serverMap {
          CloseFd(serverMap[id]);
          serverMap := serverMap - {id};
        }
        SendTo(requestFd, Accepted);
        CloseFd(requestFd);
      case Connect(id) =>
        if id in serverMap {
          var clientID := ClientID(requestFd);
          pendingConnections := pendingConnections + {clientID};
          SendTo(serverMap[id], ProxyConnect(clientID));
        } else {
          SendTo(requestFd, Rejected(NotRegistered));
          CloseFd(requestFd);
        }
      case Status(clientID, success) =>
        UpdateConnectionStatus(clientID, requestFd, success);
        CloseFd(requestFd);
      case Unexpected =>
        SendTo(requestFd, Rejected(NotExpected));
        CloseFd(requestFd);
    }
  }
}
