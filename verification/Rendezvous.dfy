/** The whole system: the central server, the services' control connections, the workers that
    services fork, and the connections waiting to be accepted. Connections have identities that
    the programs never see; the programs only know descriptor numbers, which are reused.

    Every step is a function, so that a run is a sequence of steps. A message may get lost at
    any point. Services are honest: a worker reports only on the request it was forked for. */
module Rendezvous {
  import opened ByteStrings
  import opened Decimals
  import opened Brokers

  /** Where the matter of one pending client is at the moment. */
  datatype Stage =
    | Queued                                  // in the control connection of the service
    | Handled                                 // a worker of the service is at it
    | Answered(conn: nat, success: bool)      // the worker's report waits to be accepted

  /** A proxy-connect request and what comes of it. The programs know `fd` only; `client` is
      the connection meant, `service` the control connection the request was sent over. */
  datatype Token = Token(fd: Fd, client: nat, service: nat, stage: Stage)

  /** What a connection that waits to be accepted is going to say. */
  datatype Arrival =
    | Peer(req: Request)
    | Report(serial: nat, success: bool)

  datatype Ask = Ask(id: Bytes, service: nat)

  datatype Pair = Pair(client: nat, service: nat, worker: nat)

  datatype Sys = Sys(
    broker: State,
    conn: map<Fd, nat>,          // the connection behind each descriptor of the server
    next: nat,                   // the next unused connection identity
    backlog: map<nat, Arrival>,
    tokens: map<nat, Token>,
    nextToken: nat,
    asked: map<nat, Ask>,        // history: for whom a client asked, and who was that then
    replies: multiset<nat>,      // history: status replies, by client
    pairs: seq<Pair>)            // history: who was connected with whom

  datatype Step =
    | Open(req: Request)                         // somebody connects to the server
    | AcceptNext(c: nat, fd: Fd, broken: bool)   // the server accepts and handles a request
    | Take(serial: nat)                          // a service reads a request and forks a worker
    | Answer(serial: nat, success: bool)         // the worker reports over a new connection
    | Lose(serial: nat)                          // a request or a worker gets lost
    | Vanish(c: nat)                             // a waiting connection breaks

  // ---- Transitions ------------------------------------------------------------

  /** The request that the server reads from the waiting connection `c`. */
  function RequestOf(s: Sys, c: nat): Request
    requires c in s.backlog
  {
    match s.backlog[c]
    case Peer(req) => req
    case Report(serial, success) =>
      if serial in s.tokens && ValidFd(s.tokens[serial].fd) then Status(ClientID(s.tokens[serial].fd), success)
      else NoData
  }

  /** The connection behind a descriptor of the server. */
  function At(s: Sys, fd: Fd): nat {
    if fd in s.conn then s.conn[fd] else s.next
  }

  predicate Enabled(s: Sys, step: Step) {
    match step
    case Open(req) => !req.Status?
    case AcceptNext(c, fd, _) =>
      c in s.backlog && ValidFd(fd) && fd !in s.broker.open
    case Take(serial) =>
      && serial in s.tokens && s.tokens[serial].stage.Queued?
      && forall other :: other in s.tokens && other < serial && s.tokens[other].service == s.tokens[serial].service
                         ==> !s.tokens[other].stage.Queued?
    case Answer(serial, _) => serial in s.tokens && s.tokens[serial].stage.Handled?
    case Lose(serial) => serial in s.tokens && !s.tokens[serial].stage.Answered?
    case Vanish(c) => c in s.backlog
  }

  /** The tokens without the one whose report the waiting connection `c` carries. */
  function TokensWithout(s: Sys, c: nat): map<nat, Token>
    requires c in s.backlog
  {
    if s.backlog[c].Report? then s.tokens - {s.backlog[c].serial} else s.tokens
  }

  /** A connect request for an id that is registered. */
  predicate Asks(s: Sys, req: Request) {
    req.Connect? && req.id in s.broker.registered
  }

  /** A report on a client that is pending. */
  predicate Answers(s: Sys, req: Request) {
    req.Status? && req.clientID in s.broker.pending && IsClientID(req.clientID)
  }

  function ConnAfter(s: Sys, c: nat, fd: Fd, open: set<Fd>): map<Fd, nat> {
    map f | f in s.conn.Keys + {fd} && f in open :: if f == fd then c else At(s, f)
  }

  /** The server sends a proxy-connect request over the control connection of the service. */
  function TokensAfter(s: Sys, c: nat, fd: Fd, req: Request): map<nat, Token>
    requires c in s.backlog
  {
    if Asks(s, req) then
      TokensWithout(s, c)[s.nextToken := Token(fd, c, At(s, s.broker.registered[req.id]), Queued)]
    else TokensWithout(s, c)
  }

  function AskedAfter(s: Sys, c: nat, req: Request): map<nat, Ask> {
    if Asks(s, req) then s.asked[c := Ask(req.id, At(s, s.broker.registered[req.id]))] else s.asked
  }

  /** A client gets a reply when its id is unknown or when a report on it is handled. */
  function RepliesAfter(s: Sys, c: nat, req: Request): multiset<nat> {
    if req.Connect? && req.id !in s.broker.registered then s.replies + multiset{c}
    else if Answers(s, req) then s.replies + multiset{At(s, Atoi(req.clientID))}
    else s.replies
  }

  function PairsAfter(s: Sys, c: nat, req: Request): seq<Pair>
    requires c in s.backlog
  {
    if Answers(s, req) && req.success then s.pairs + [Pair(At(s, Atoi(req.clientID)), Sender(s, c), c)]
    else s.pairs
  }

  /** Accepting connection `c` as descriptor `fd` and handling its request. */
  function DoAccept(s: Sys, c: nat, fd: Fd, req: Request): Sys
    requires c in s.backlog && ValidFd(fd)
  {
    var broker := Handle(Accept(s.broker, fd), fd, req);
    Sys(broker, ConnAfter(s, c, fd, broker.open), s.next, s.backlog - {c},
        TokensAfter(s, c, fd, req), if Asks(s, req) then s.nextToken + 1 else s.nextToken,
        AskedAfter(s, c, req), RepliesAfter(s, c, req), PairsAfter(s, c, req))
  }

  /** The service whose worker opened connection `c`. */
  function Sender(s: Sys, c: nat): nat
    requires c in s.backlog
  {
    if s.backlog[c].Report? && s.backlog[c].serial in s.tokens then s.tokens[s.backlog[c].serial].service else c
  }

  function Do(s: Sys, step: Step): Sys
    requires Enabled(s, step)
  {
    match step
    case Open(req) => s.(backlog := s.backlog[s.next := Peer(req)], next := s.next + 1)
    case AcceptNext(c, fd, broken) => DoAccept(s, c, fd, if broken then NoData else RequestOf(s, c))
    case Take(serial) => s.(tokens := s.tokens[serial := s.tokens[serial].(stage := Handled)])
    case Answer(serial, success) =>
      s.(tokens := s.tokens[serial := s.tokens[serial].(stage := Answered(s.next, success))],
         backlog := s.backlog[s.next := Report(serial, success)],
         next := s.next + 1)
    case Lose(serial) => s.(tokens := s.tokens - {serial})
    case Vanish(c) => s.(backlog := s.backlog - {c}, tokens := TokensWithout(s, c))
  }

  function Initial(listener: Fd): Sys {
    Sys(State(listener, map[], {}, {listener}, {}), map[], 0, map[], map[], 0, map[], multiset{}, [])
  }

  // ---- The invariant ----------------------------------------------------------

  /** Descriptors and connection identities. */
  ghost predicate ConnInv(s: Sys) {
    && Consistent(s.broker)
    && s.conn.Keys == s.broker.open - {s.broker.listener}
    && (forall f, g :: f in s.conn && g in s.conn && f != g ==> s.conn[f] != s.conn[g])
    && (forall f :: f in s.conn ==> s.conn[f] < s.next && s.conn[f] !in s.backlog)
    && (forall c :: c in s.backlog ==> c < s.next)
    && (forall c :: c in s.backlog && s.backlog[c].Peer? ==> !s.backlog[c].req.Status?)
  }

  /** A token stands for a pending client: its number still denotes the connection meant. */
  predicate TokenOk(s: Sys, t: Token) {
    && ValidFd(t.fd) && ClientID(t.fd) in s.broker.pending
    && t.fd in s.conn && s.conn[t.fd] == t.client
    && t.client in s.asked && s.asked[t.client].service == t.service
  }

  ghost predicate TokenInv(s: Sys) {
    && (forall n :: n in s.tokens ==> n < s.nextToken && TokenOk(s, s.tokens[n]))
    && (forall n, m :: n in s.tokens && m in s.tokens && n != m ==> s.tokens[n].fd != s.tokens[m].fd)
    && (forall n :: n in s.tokens && s.tokens[n].stage.Answered? ==>
          s.tokens[n].stage.conn in s.backlog
          && s.backlog[s.tokens[n].stage.conn] == Report(n, s.tokens[n].stage.success))
    && (forall c :: c in s.backlog && s.backlog[c].Report? ==>
          s.backlog[c].serial in s.tokens
          && s.tokens[s.backlog[c].serial].stage == Answered(c, s.backlog[c].success))
  }

  /** A connection that is still open in the server as a pending client. */
  predicate IsPending(s: Sys, c: nat) {
    exists fd :: fd in s.conn && ValidFd(fd) && ClientID(fd) in s.broker.pending && s.conn[fd] == c
  }

  ghost predicate HistoryInv(s: Sys) {
    && (forall c :: s.replies[c] <= 1)
    && (forall c :: c in s.replies ==> c < s.next && c !in s.backlog && !IsPending(s, c))
    && (forall c :: c in s.asked ==> c < s.next && c !in s.backlog)
    && (forall i :: 0 <= i < |s.pairs| ==>
          s.pairs[i].client in s.replies
          && s.pairs[i].client in s.asked && s.asked[s.pairs[i].client].service == s.pairs[i].service)
    && (forall i, j :: 0 <= i < j < |s.pairs| ==> s.pairs[i].client != s.pairs[j].client)
  }

  ghost predicate Inv(s: Sys) {
    ConnInv(s) && TokenInv(s) && HistoryInv(s)
  }

  lemma InitialInv(listener: Fd)
    requires ValidFd(listener)
    ensures Inv(Initial(listener))
  {
  }

  // ---- Steps outside the server -----------------------------------------------

  lemma OutsideKeepsConn(s: Sys, step: Step)
    requires Inv(s) && Enabled(s, step) && !step.AcceptNext?
    ensures ConnInv(Do(s, step))
  {
    hide ClientID, Consistent, TokenInv, HistoryInv;
  }

  lemma OutsideKeepsHistory(s: Sys, step: Step)
    requires Inv(s) && Enabled(s, step) && !step.AcceptNext?
    ensures HistoryInv(Do(s, step))
  {
    hide ClientID, Consistent, TokenInv;
    var s' := Do(s, step);
    forall c ensures IsPending(s', c) == IsPending(s, c) { SamePending(s, s', c); }
    hide IsPending;
  }

  lemma SamePending(s: Sys, s': Sys, c: nat)
    requires s.conn == s'.conn && s.broker == s'.broker
    ensures IsPending(s, c) == IsPending(s', c)
  {
  }

  lemma OutsideKeepsTokens(s: Sys, step: Step)
    requires Inv(s) && Enabled(s, step) && !step.AcceptNext?
    ensures TokenInv(Do(s, step))
  {
    hide Consistent, HistoryInv, TokenOk;
    var s' := Do(s, step);
    forall n | n in s'.tokens ensures n < s'.nextToken && TokenOk(s', s'.tokens[n]) {
      SameTokenOk(s, s.tokens[n], s', s'.tokens[n]);
    }
    match step
    case Answer(serial, success) => AnswerKeepsTokens(s, serial, success);
    case Vanish(c) => KeptTokens(s, c);
    case _ => SameReports(s, step);
  }

  lemma SameReports(s: Sys, step: Step)
    requires Inv(s) && Enabled(s, step) && (step.Open? || step.Take? || step.Lose?)
    requires forall n :: n in Do(s, step).tokens ==> n < Do(s, step).nextToken && TokenOk(Do(s, step), Do(s, step).tokens[n])
    ensures TokenInv(Do(s, step))
  {
    hide Consistent, HistoryInv, TokenOk;
  }

  lemma SameTokenOk(s: Sys, t: Token, s': Sys, t': Token)
    requires s.conn == s'.conn && s.broker == s'.broker && s.asked == s'.asked
    requires t.fd == t'.fd && t.client == t'.client && t.service == t'.service
    ensures TokenOk(s, t) == TokenOk(s', t')
  {
  }

  lemma AnswerKeepsTokens(s: Sys, serial: nat, success: bool)
    requires Inv(s) && Enabled(s, Answer(serial, success))
    requires forall n :: n in Do(s, Answer(serial, success)).tokens ==>
               n < Do(s, Answer(serial, success)).nextToken
               && TokenOk(Do(s, Answer(serial, success)), Do(s, Answer(serial, success)).tokens[n])
    ensures TokenInv(Do(s, Answer(serial, success)))
  {
    hide Do, ConnInv, HistoryInv, TokenOk;
    var s' := Do(s, Answer(serial, success));
    forall n
      ensures n in s'.tokens <==> n in s.tokens
      ensures n in s'.tokens ==> s'.tokens[n].fd == s.tokens[n].fd
      ensures n in s'.tokens && s'.tokens[n].stage.Answered? ==>
                s'.tokens[n].stage.conn in s'.backlog
                && s'.backlog[s'.tokens[n].stage.conn] == Report(n, s'.tokens[n].stage.success)
    {
      AnsweredBefore(s, serial, success, n);
    }
    forall c | c in s'.backlog && s'.backlog[c].Report?
      ensures s'.backlog[c].serial in s'.tokens
      ensures s'.tokens[s'.backlog[c].serial].stage == Answered(c, s'.backlog[c].success)
    {
      ReportedBefore(s, serial, success, c);
    }
  }

  lemma AnsweredBefore(s: Sys, serial: nat, success: bool, n: nat)
    requires Inv(s) && Enabled(s, Answer(serial, success))
    ensures var s' := Do(s, Answer(serial, success));
            && (n in s'.tokens <==> n in s.tokens)
            && (n in s.tokens ==> s'.tokens[n].fd == s.tokens[n].fd)
            && (n in s.tokens && s'.tokens[n].stage.Answered? ==>
                  s'.tokens[n].stage.conn in s'.backlog
                  && s'.backlog[s'.tokens[n].stage.conn] == Report(n, s'.tokens[n].stage.success))
  {
    hide Consistent, HistoryInv, TokenOk;
  }

  lemma ReportedBefore(s: Sys, serial: nat, success: bool, c: nat)
    requires Inv(s) && Enabled(s, Answer(serial, success))
    requires c in Do(s, Answer(serial, success)).backlog && Do(s, Answer(serial, success)).backlog[c].Report?
    ensures var s' := Do(s, Answer(serial, success));
            s'.backlog[c].serial in s'.tokens
            && s'.tokens[s'.backlog[c].serial].stage == Answered(c, s'.backlog[c].success)
  {
    hide Consistent, HistoryInv, TokenOk;
  }

  // ---- Accepting and handling a request ---------------------------------------

  /** What can be read from an accepted connection: its request, or nothing if it broke. */
  predicate Readable(s: Sys, c: nat, req: Request)
    requires c in s.backlog
  {
    req == NoData || req == RequestOf(s, c)
  }

  lemma HandleOpen(b: State, fd: Fd, req: Request)
    requires Consistent(b) && ValidFd(fd) && fd !in b.open
    ensures Handle(Accept(b, fd), fd, req).open <= b.open + {fd}
    ensures Handle(Accept(b, fd), fd, req).listener == b.listener
    ensures b.listener in Handle(Accept(b, fd), fd, req).open && b.listener != fd
  {
    hide ClientID;
    HandleKeepsConsistent(b, fd, req);
  }

  /** The part of `DoAccept` that is the same for all requests. */
  lemma AcceptShape(s: Sys, c: nat, fd: Fd, req: Request)
    requires ConnInv(s) && c in s.backlog && ValidFd(fd) && fd !in s.broker.open
    ensures var s' := DoAccept(s, c, fd, req);
            && s'.broker == Handle(Accept(s.broker, fd), fd, req) && Consistent(s'.broker)
            && s'.broker.listener == s.broker.listener
            && s'.next == s.next && s'.backlog == s.backlog - {c}
            && fd !in s.conn
            && s'.conn.Keys == s'.broker.open - {s'.broker.listener}
            && (forall f :: f in s'.conn ==> s'.conn[f] == if f == fd then c else At(s, f))
            && (forall f :: f in s'.conn && f != fd ==> f in s.conn)
  {
    HandleKeepsConsistent(s.broker, fd, req);
    HandleOpen(s.broker, fd, req);
    hide ClientID, Consistent, Handle;
  }

  lemma AcceptKeepsConn(s: Sys, c: nat, fd: Fd, req: Request)
    requires Inv(s) && c in s.backlog && ValidFd(fd) && fd !in s.broker.open
    ensures ConnInv(DoAccept(s, c, fd, req))
  {
    hide ClientID, TokenInv, HistoryInv, Consistent, Handle, DoAccept;
    AcceptShape(s, c, fd, req);
  }

  /** A report speaks about its own token's client and about no other token. */
  lemma ReportedToken(s: Sys, c: nat)
    requires Inv(s) && c in s.backlog && s.backlog[c].Report?
    ensures var n := s.backlog[c].serial;
            && n in s.tokens
            && RequestOf(s, c) == Status(ClientID(s.tokens[n].fd), s.backlog[c].success)
            && s.tokens[n].fd in s.conn
            && s.conn[s.tokens[n].fd] == s.tokens[n].client
            && forall m :: m in s.tokens && m != n ==> ClientID(s.tokens[m].fd) != ClientID(s.tokens[n].fd)
  {
    hide Consistent, HistoryInv;
    var n := s.backlog[c].serial;
    forall m | m in s.tokens && m != n ensures ClientID(s.tokens[m].fd) != ClientID(s.tokens[n].fd) {
      ClientIDRoundTrip(s.tokens[m].fd);
      ClientIDRoundTrip(s.tokens[n].fd);
    }
  }

  /** The client of a token that is not being reported on stays pending. */
  lemma OtherStaysPending(s: Sys, c: nat, fd: Fd, req: Request, n: nat)
    requires Inv(s) && c in s.backlog && ValidFd(fd) && Readable(s, c, req)
    requires n in TokensWithout(s, c)
    ensures ValidFd(s.tokens[n].fd) && ClientID(s.tokens[n].fd) in s.broker.pending
    ensures ClientID(s.tokens[n].fd) in Handle(Accept(s.broker, fd), fd, req).pending
  {
    hide HistoryInv, ConnInv, ClientID;
    assert TokenOk(s, s.tokens[n]);
    if s.backlog[c].Report? {
      ReportedToken(s, c);
    } else {
      PeersDoNotReport(s, c);
    }
  }

  lemma PeersDoNotReport(s: Sys, c: nat)
    requires Inv(s) && c in s.backlog && s.backlog[c].Peer?
    ensures !RequestOf(s, c).Status?
  {
    hide HistoryInv, TokenInv, Consistent;
  }

  /** A token that is not being reported on stays in order. */
  lemma OtherTokenOk(s: Sys, c: nat, fd: Fd, req: Request, n: nat)
    requires Inv(s) && c in s.backlog && ValidFd(fd) && fd !in s.broker.open && Readable(s, c, req)
    requires n in TokensWithout(s, c)
    ensures TokenOk(DoAccept(s, c, fd, req), s.tokens[n])
    ensures s.tokens[n].fd != fd
  {
    var t := s.tokens[n];
    var s' := DoAccept(s, c, fd, req);
    OtherStaysPending(s, c, fd, req, n);
    AcceptShape(s, c, fd, req);
    ClientIDRoundTrip(t.fd);
    assert TokenOk(s, t);
    PendingIsConnected(s'.broker, t.fd);
    AskedStays(s, c, fd, req, t.client);
    hide *;
  }

  lemma PendingIsConnected(b: State, fd: Fd)
    requires Consistent(b) && ValidFd(fd) && ClientID(fd) in b.pending
    ensures fd in b.open - {b.listener}
  {
    ClientIDRoundTrip(fd);
  }

  lemma AskedStays(s: Sys, c: nat, fd: Fd, req: Request, client: nat)
    requires HistoryInv(s) && c in s.backlog && ValidFd(fd) && client in s.asked
    ensures client in DoAccept(s, c, fd, req).asked && DoAccept(s, c, fd, req).asked[client] == s.asked[client]
  {
  }

  lemma AcceptKeepsTokens(s: Sys, c: nat, fd: Fd, req: Request)
    requires Inv(s) && c in s.backlog && ValidFd(fd) && fd !in s.broker.open && Readable(s, c, req)
    ensures TokenInv(DoAccept(s, c, fd, req))
  {
    hide Inv, TokenOk, TokensWithout, Handle, ConnAfter, AskedAfter, RepliesAfter, PairsAfter, RequestOf;
    var s' := DoAccept(s, c, fd, req);
    var kept := TokensWithout(s, c);
    KeptTokens(s, c);
    forall n | n in kept ensures TokenOk(s', s.tokens[n]) && s.tokens[n].fd != fd {
      OtherTokenOk(s, c, fd, req, n);
    }
    if Asks(s, req) {
      NewTokenOk(s, c, fd, req);
    }
  }

  /** Without the token reported on, tokens and waiting reports still match. */
  lemma KeptTokens(s: Sys, c: nat)
    requires Inv(s) && c in s.backlog
    ensures var kept := TokensWithout(s, c);
            && (forall n :: n in kept ==> n in s.tokens && kept[n] == s.tokens[n] && n < s.nextToken)
            && (forall n, m :: n in kept && m in kept && n != m ==> kept[n].fd != kept[m].fd)
            && (forall n :: n in kept && kept[n].stage.Answered? ==>
                  && kept[n].stage.conn in s.backlog - {c}
                  && s.backlog[kept[n].stage.conn] == Report(n, kept[n].stage.success))
            && (forall d :: d in s.backlog && d != c && s.backlog[d].Report? ==>
                  && s.backlog[d].serial in kept
                  && kept[s.backlog[d].serial].stage == Answered(d, s.backlog[d].success))
  {
    hide ConnInv, HistoryInv, TokenOk;
  }

  lemma NewTokenOk(s: Sys, c: nat, fd: Fd, req: Request)
    requires Inv(s) && c in s.backlog && ValidFd(fd) && fd !in s.broker.open && Asks(s, req)
    ensures TokenOk(DoAccept(s, c, fd, req), Token(fd, c, At(s, s.broker.registered[req.id]), Queued))
  {
    hide HistoryInv, TokenInv;
    ClientIDRoundTrip(fd);
    AcceptShape(s, c, fd, req);
    var s' := DoAccept(s, c, fd, req);
    PendingIsConnected(s'.broker, fd);
    hide ClientID, Consistent;
  }

  /** Accepting makes at most the new connection pending. */
  lemma PendingAfter(s: Sys, c: nat, fd: Fd, req: Request, x: nat)
    requires Inv(s) && c in s.backlog && ValidFd(fd) && fd !in s.broker.open
    requires IsPending(DoAccept(s, c, fd, req), x)
    ensures IsPending(s, x) || (x == c && Asks(s, req))
  {
    hide HistoryInv, TokenInv, DoAccept, Consistent;
    var s' := DoAccept(s, c, fd, req);
    AcceptShape(s, c, fd, req);
    var f :| f in s'.conn && ValidFd(f) && ClientID(f) in s'.broker.pending && s'.conn[f] == x;
    NotYetPending(s.broker, fd);
    PendingBefore(s.broker, fd, req, f);
  }

  lemma PendingBefore(b: State, fd: Fd, req: Request, f: Fd)
    requires Consistent(b) && ValidFd(fd) && ValidFd(f) && ClientID(f) in Handle(Accept(b, fd), fd, req).pending
    ensures ClientID(f) in b.pending || (f == fd && req.Connect? && req.id in b.registered)
  {
    ClientIDRoundTrip(f);
    ClientIDRoundTrip(fd);
    hide ClientID, Consistent;
  }

  lemma AcceptKeepsHistory(s: Sys, c: nat, fd: Fd, req: Request)
    requires Inv(s) && c in s.backlog && ValidFd(fd) && fd !in s.broker.open && Readable(s, c, req)
    ensures HistoryInv(DoAccept(s, c, fd, req))
  {
    hide Inv, HistoryInv, IsPending, DoAccept;
    var s' := DoAccept(s, c, fd, req);
    forall x | IsPending(s', x) ensures IsPending(s, x) || (x == c && Asks(s, req)) {
      PendingAfter(s, c, fd, req, x);
    }
    if req.Status? {
      ReportKeepsHistory(s, c, fd, req);
    } else {
      RequestKeepsHistory(s, c, fd, req);
    }
  }

  lemma RequestKeepsHistory(s: Sys, c: nat, fd: Fd, req: Request)
    requires Inv(s) && c in s.backlog && ValidFd(fd) && fd !in s.broker.open && !req.Status?
    requires forall x :: IsPending(DoAccept(s, c, fd, req), x) ==> IsPending(s, x) || (x == c && Asks(s, req))
    ensures HistoryInv(DoAccept(s, c, fd, req))
  {
    hide TokenInv, Consistent, IsPending, Handle, ConnAfter, TokensAfter;
    NotPendingYet(s, c);
    assert c !in s.replies && c !in s.asked;
  }

  lemma NotPendingYet(s: Sys, c: nat)
    requires ConnInv(s) && c in s.backlog
    ensures !IsPending(s, c) && c < s.next
  {
    hide Consistent;
  }

  lemma ReportKeepsHistory(s: Sys, c: nat, fd: Fd, req: Request)
    requires Inv(s) && c in s.backlog && ValidFd(fd) && fd !in s.broker.open && Readable(s, c, req)
    requires req.Status?
    requires forall x :: IsPending(DoAccept(s, c, fd, req), x) ==> IsPending(s, x)
    ensures HistoryInv(DoAccept(s, c, fd, req))
  {
    hide ConnInv, TokenInv, IsPending, DoAccept;
    if s.backlog[c].Peer? { PeersDoNotReport(s, c); }
    ReportEffect(s, c, fd);
    NoLongerPending(s, c, fd);
    assert s.tokens[s.backlog[c].serial].client !in s.replies;
  }

  /** A report answers the client of its token, and connects it with the token's service. */
  lemma ReportEffect(s: Sys, c: nat, fd: Fd)
    requires Inv(s) && c in s.backlog && ValidFd(fd) && s.backlog[c].Report?
    ensures s.backlog[c].serial in s.tokens
    ensures var t := s.tokens[s.backlog[c].serial];
            var s' := DoAccept(s, c, fd, RequestOf(s, c));
            && IsPending(s, t.client) && t.client < s.next && t.client !in s.backlog
            && t.client in s.asked && s.asked[t.client].service == t.service
            && s'.asked == s.asked && s'.backlog == s.backlog - {c} && s'.next == s.next
            && s'.replies == s.replies + multiset{t.client}
            && s'.pairs == if s.backlog[c].success then s.pairs + [Pair(t.client, t.service, c)] else s.pairs
  {
    hide Consistent, HistoryInv;
    ReportedToken(s, c);
    var t := s.tokens[s.backlog[c].serial];
    assert TokenOk(s, t);
    PendingTokenClient(s, t);
    hide ClientID;
  }

  lemma PendingTokenClient(s: Sys, t: Token)
    requires TokenOk(s, t)
    ensures IsPending(s, t.client)
    ensures IsClientID(ClientID(t.fd)) && Atoi(ClientID(t.fd)) == t.fd
  {
    ClientIDRoundTrip(t.fd);
  }

  /** After a report the client in question is pending no more. */
  lemma NoLongerPending(s: Sys, c: nat, fd: Fd)
    requires Inv(s) && c in s.backlog && ValidFd(fd) && fd !in s.broker.open && s.backlog[c].Report?
    ensures s.backlog[c].serial in s.tokens
    ensures !IsPending(DoAccept(s, c, fd, RequestOf(s, c)), s.tokens[s.backlog[c].serial].client)
  {
    ReportedToken(s, c);
    var t := s.tokens[s.backlog[c].serial];
    assert TokenOk(s, t);
    ClientIDRoundTrip(t.fd);
    hide ClientID, HistoryInv, TokenInv;
    var s' := DoAccept(s, c, fd, RequestOf(s, c));
    assert t.fd !in s'.conn;
  }

  // ---- The history is what the server does --------------------------------------

  /** The connection behind a descriptor while connection `c`, accepted as `fd`, is handled. */
  function Behind(s: Sys, c: nat, fd: Fd, f: Fd): nat {
    if f == fd then c else At(s, f)
  }

  /** The status reply to a client that an effect makes: a rejected connect request, or the
      child's message to the client it is forked for. */
  function ReplyOf(s: Sys, c: nat, fd: Fd, req: Request, e: Effect): multiset<nat> {
    match e
    case Send(f, Rejected(_)) => if req.Connect? then multiset{Behind(s, c, fd, f)} else multiset{}
    case Fork(f, _, _) => multiset{Behind(s, c, fd, f)}
    case _ => multiset{}
  }

  /** The pair that a forked child relays between. */
  function PairOf(s: Sys, c: nat, fd: Fd, e: Effect): seq<Pair>
    requires c in s.backlog
  {
    match e
    case Fork(f, g, true) => [Pair(Behind(s, c, fd, f), Sender(s, c), Behind(s, c, fd, g))]
    case _ => []
  }

  /** The request that is forwarded, with the descriptor number that it carries as text. */
  function TokenOf(s: Sys, c: nat, fd: Fd, e: Effect): seq<Token> {
    match e
    case Send(f, ProxyConnect(m)) => [Token(Atoi(m), Behind(s, c, fd, Atoi(m)), Behind(s, c, fd, f), Queued)]
    case _ => []
  }

  function RepliesIn(s: Sys, c: nat, fd: Fd, req: Request, effects: seq<Effect>): multiset<nat> {
    if effects == [] then multiset{}
    else ReplyOf(s, c, fd, req, effects[0]) + RepliesIn(s, c, fd, req, effects[1..])
  }

  function PairsIn(s: Sys, c: nat, fd: Fd, effects: seq<Effect>): seq<Pair>
    requires c in s.backlog
  {
    if effects == [] then [] else PairOf(s, c, fd, effects[0]) + PairsIn(s, c, fd, effects[1..])
  }

  function TokensIn(s: Sys, c: nat, fd: Fd, effects: seq<Effect>): seq<Token> {
    if effects == [] then [] else TokenOf(s, c, fd, effects[0]) + TokensIn(s, c, fd, effects[1..])
  }

  /** The tokens with some new ones, under the next serial numbers. */
  function Numbered(tokens: map<nat, Token>, next: nat, more: seq<Token>): map<nat, Token>
    decreases |more|
  {
    if more == [] then tokens else Numbered(tokens[next := more[0]], next + 1, more[1..])
  }

  /** What is recorded after one, two or three effects. */
  lemma FewEffects(s: Sys, c: nat, fd: Fd, req: Request, x: Effect, y: Effect, z: Effect)
    requires c in s.backlog
    ensures RepliesIn(s, c, fd, req, [x]) == ReplyOf(s, c, fd, req, x)
    ensures PairsIn(s, c, fd, [x]) == PairOf(s, c, fd, x) && TokensIn(s, c, fd, [x]) == TokenOf(s, c, fd, x)
    ensures RepliesIn(s, c, fd, req, [x, y]) == ReplyOf(s, c, fd, req, x) + ReplyOf(s, c, fd, req, y)
    ensures PairsIn(s, c, fd, [x, y]) == PairOf(s, c, fd, x) + PairOf(s, c, fd, y)
    ensures TokensIn(s, c, fd, [x, y]) == TokenOf(s, c, fd, x) + TokenOf(s, c, fd, y)
    ensures RepliesIn(s, c, fd, req, [x, y, z])
         == ReplyOf(s, c, fd, req, x) + ReplyOf(s, c, fd, req, y) + ReplyOf(s, c, fd, req, z)
    ensures PairsIn(s, c, fd, [x, y, z]) == PairOf(s, c, fd, x) + PairOf(s, c, fd, y) + PairOf(s, c, fd, z)
    ensures TokensIn(s, c, fd, [x, y, z]) == TokenOf(s, c, fd, x) + TokenOf(s, c, fd, y) + TokenOf(s, c, fd, z)
  {
    hide ReplyOf, PairOf, TokenOf;
    LastEffect(s, c, fd, req, x);
    LastEffect(s, c, fd, req, y);
    LastEffect(s, c, fd, req, z);
    assert [x, y][1..] == [y] && [y, z][1..] == [z] && [x, y, z][1..] == [y, z];
    assert RepliesIn(s, c, fd, req, [y, z]) == ReplyOf(s, c, fd, req, y) + ReplyOf(s, c, fd, req, z);
    assert PairsIn(s, c, fd, [y, z]) == PairOf(s, c, fd, y) + PairOf(s, c, fd, z);
    assert TokensIn(s, c, fd, [y, z]) == TokenOf(s, c, fd, y) + TokenOf(s, c, fd, z);
  }

  lemma LastEffect(s: Sys, c: nat, fd: Fd, req: Request, x: Effect)
    requires c in s.backlog
    ensures RepliesIn(s, c, fd, req, [x]) == ReplyOf(s, c, fd, req, x)
    ensures PairsIn(s, c, fd, [x]) == PairOf(s, c, fd, x) && TokensIn(s, c, fd, [x]) == TokenOf(s, c, fd, x)
  {
    hide ReplyOf, PairOf, TokenOf;
    assert [x][1..] == [];
  }

  /** What `effects` amount to is what `s'` records more than `s`. */
  predicate Recorded(s: Sys, c: nat, fd: Fd, req: Request, effects: seq<Effect>, s': Sys)
    requires c in s.backlog
  {
    && s'.replies == s.replies + RepliesIn(s, c, fd, req, effects)
    && s'.pairs == s.pairs + PairsIn(s, c, fd, effects)
    && s'.tokens == Numbered(TokensWithout(s, c), s.nextToken, TokensIn(s, c, fd, effects))
    && s'.nextToken == s.nextToken + |TokensIn(s, c, fd, effects)|
  }

  /** The tokens, replies and pairs recorded when a connection is accepted are those that the
      server's messages and forks amount to: nothing is recorded that is not done, and nothing
      done is left out. */
  lemma HistoryFollowsEffects(s: Sys, c: nat, fd: Fd, req: Request)
    requires ConnInv(s) && c in s.backlog && ValidFd(fd) && fd !in s.broker.open
    ensures Recorded(s, c, fd, req, Effects(Accept(s.broker, fd), fd, req), DoAccept(s, c, fd, req))
  {
    hide Recorded, Effects, DoAccept, ConnInv;
    match req
    case Connect(_) => ConnectRecorded(s, c, fd, req);
    case Status(_, _) => StatusRecorded(s, c, fd, req);
    case _ => NothingRecorded(s, c, fd, req);
  }

  lemma ConnectRecorded(s: Sys, c: nat, fd: Fd, req: Request)
    requires ConnInv(s) && c in s.backlog && ValidFd(fd) && fd !in s.broker.open && req.Connect?
    ensures Recorded(s, c, fd, req, Effects(Accept(s.broker, fd), fd, req), DoAccept(s, c, fd, req))
  {
    hide Handle, ConnAfter, AskedAfter, RepliesIn, PairsIn, TokensIn, ClientID, TokensWithout, PendingFds, Numbered, Consistent;
    ClientIDRoundTrip(fd);
    NoneNumbered(TokensWithout(s, c), s.nextToken);
    RegisteredIsOpen(s.broker);
    if req.id in s.broker.registered {
      FewEffects(s, c, fd, req, Send(s.broker.registered[req.id], ProxyConnect(ClientID(fd))), Close(fd), Close(fd));
    } else {
      FewEffects(s, c, fd, req, Send(fd, Rejected(NotRegistered)), Close(fd), Close(fd));
    }
  }

  lemma StatusRecorded(s: Sys, c: nat, fd: Fd, req: Request)
    requires ConnInv(s) && c in s.backlog && ValidFd(fd) && fd !in s.broker.open && req.Status?
    ensures Recorded(s, c, fd, req, Effects(Accept(s.broker, fd), fd, req), DoAccept(s, c, fd, req))
  {
    hide DoAccept, RepliesIn, PairsIn, TokensIn, ClientID, TokensWithout, PendingFds, Numbered, Consistent;
    StatusHistory(s, c, fd, req);
    NoneNumbered(TokensWithout(s, c), s.nextToken);
    RegisteredIsOpen(s.broker);
    assert s.pairs + [] == s.pairs && s.replies + multiset{} == s.replies;
    if Answers(s, req) {
      var client := Atoi(req.clientID);
      var effects := Effects(Accept(s.broker, fd), fd, req);
      assert effects == [Fork(client, fd, req.success), Close(client), Close(fd)];
      assert Behind(s, c, fd, client) == At(s, client) && Behind(s, c, fd, fd) == c;
      FewEffects(s, c, fd, req, Fork(client, fd, req.success), Close(client), Close(fd));
    } else {
      var effects := Effects(Accept(s.broker, fd), fd, req);
      assert effects == [Send(fd, Rejected(NotRegistered)), Close(fd)];
      FewEffects(s, c, fd, req, Send(fd, Rejected(NotRegistered)), Close(fd), Close(fd));
    }
  }

  lemma StatusHistory(s: Sys, c: nat, fd: Fd, req: Request)
    requires c in s.backlog && ValidFd(fd) && req.Status?
    ensures var s' := DoAccept(s, c, fd, req);
            && s'.replies == RepliesAfter(s, c, req) && s'.pairs == PairsAfter(s, c, req)
            && s'.tokens == TokensWithout(s, c) && s'.nextToken == s.nextToken
  {
    hide Handle, ConnAfter, AskedAfter, TokensWithout;
  }

  lemma NothingRecorded(s: Sys, c: nat, fd: Fd, req: Request)
    requires c in s.backlog && ValidFd(fd) && !req.Connect? && !req.Status?
    ensures Recorded(s, c, fd, req, Effects(Accept(s.broker, fd), fd, req), DoAccept(s, c, fd, req))
  {
    hide DoAccept, RepliesIn, PairsIn, TokensIn, TokensWithout, Numbered;
    NoHistory(s, c, fd, req);
    NoneNumbered(TokensWithout(s, c), s.nextToken);
    NoEffects(s, c, fd, req);
    match req
    case Register(id) =>
      FewEffects(s, c, fd, req, Send(fd, if id in s.broker.registered then Rejected(AlreadyRegistered) else Accepted), Close(fd), Close(fd));
    case Unregister(id) => UnregisterEffects(s, c, fd, id);
    case Unexpected => FewEffects(s, c, fd, req, Send(fd, Rejected(NotExpected)), Close(fd), Close(fd));
    case NoData =>
  }

  lemma UnregisterEffects(s: Sys, c: nat, fd: Fd, id: Bytes)
    requires c in s.backlog && ValidFd(fd)
    ensures var req := Unregister(id);
            var effects := Effects(Accept(s.broker, fd), fd, req);
            RepliesIn(s, c, fd, req, effects) == multiset{} && PairsIn(s, c, fd, effects) == [] && TokensIn(s, c, fd, effects) == []
  {
    hide RepliesIn, PairsIn, TokensIn, Behind;
    var req := Unregister(id);
    if id in s.broker.registered {
      assert Effects(Accept(s.broker, fd), fd, req) == [Close(s.broker.registered[id]), Send(fd, Accepted), Close(fd)];
      FewEffects(s, c, fd, req, Close(s.broker.registered[id]), Send(fd, Accepted), Close(fd));
    } else {
      assert Effects(Accept(s.broker, fd), fd, req) == [Send(fd, Accepted), Close(fd)];
      FewEffects(s, c, fd, req, Send(fd, Accepted), Close(fd), Close(fd));
    }
  }

  lemma NoHistory(s: Sys, c: nat, fd: Fd, req: Request)
    requires c in s.backlog && ValidFd(fd) && !req.Connect? && !req.Status?
    ensures var s' := DoAccept(s, c, fd, req);
            && s'.replies == s.replies && s'.pairs == s.pairs
            && s'.tokens == TokensWithout(s, c) && s'.nextToken == s.nextToken
  {
    hide Handle, ConnAfter, AskedAfter, TokensWithout;
  }

  lemma NoneNumbered(tokens: map<nat, Token>, next: nat)
    ensures Numbered(tokens, next, []) == tokens
    ensures forall t: Token :: Numbered(tokens, next, [t]) == tokens[next := t]
  {
    forall t: Token ensures Numbered(tokens, next, [t]) == tokens[next := t] {
      assert [t][1..] == [];
    }
  }

  lemma RegisteredIsOpen(b: State)
    requires Consistent(b)
    ensures forall id :: id in b.registered ==> b.registered[id] in b.open
    ensures forall id :: id in b.pending ==> Atoi(id) in b.open
  {
  }

  lemma NoEffects(s: Sys, c: nat, fd: Fd, req: Request)
    requires c in s.backlog
    ensures RepliesIn(s, c, fd, req, []) == multiset{} && PairsIn(s, c, fd, []) == [] && TokensIn(s, c, fd, []) == []
  {
  }

  // ---- Runs -------------------------------------------------------------------

  /** The state after a sequence of steps from the start. */
  function After(listener: Fd, steps: seq<Step>): Sys {
    if steps == [] then Initial(listener) else
    var s := After(listener, steps[..|steps|-1]);
    var step := steps[|steps|-1];
    if Enabled(s, step) then Do(s, step) else s
  }

  lemma StepKeepsInv(s: Sys, step: Step)
    requires Inv(s) && Enabled(s, step)
    ensures Inv(Do(s, step))
  {
    if step.AcceptNext? {
      var req := if step.broken then NoData else RequestOf(s, step.c);
      AcceptKeepsConn(s, step.c, step.fd, req);
      AcceptKeepsTokens(s, step.c, step.fd, req);
      AcceptKeepsHistory(s, step.c, step.fd, req);
    } else {
      OutsideKeepsConn(s, step);
      OutsideKeepsTokens(s, step);
      OutsideKeepsHistory(s, step);
    }
  }

  lemma {:induction false} RunKeepsInv(listener: Fd, steps: seq<Step>)
    requires ValidFd(listener)
    ensures Inv(After(listener, steps))
  {
    hide Inv, Do, Enabled;
    if steps == [] {
      InitialInv(listener);
    } else {
      RunKeepsInv(listener, steps[..|steps|-1]);
      var s := After(listener, steps[..|steps|-1]);
      if Enabled(s, steps[|steps|-1]) { StepKeepsInv(s, steps[|steps|-1]); }
    }
  }

  /** The tokens that speak about client number `fd`. */
  function TokensFor(s: Sys, fd: Fd): set<nat> {
    set n | n in s.tokens && s.tokens[n].fd == fd
  }

  /** In every run: one token at most for a pending client and none for any other number, and
      the number in a token still denotes the connection the token was made for. */
  lemma TokenDiscipline(listener: Fd, steps: seq<Step>, fd: Fd)
    requires ValidFd(listener) && ValidFd(fd)
    ensures var s := After(listener, steps);
            && |TokensFor(s, fd)| <= (if ClientID(fd) in s.broker.pending then 1 else 0)
            && forall n :: n in TokensFor(s, fd) ==> fd in s.conn && s.conn[fd] == s.tokens[n].client
  {
    hide After, Consistent, HistoryInv, ConnInv;
    RunKeepsInv(listener, steps);
    var s := After(listener, steps);
    var ts := TokensFor(s, fd);
    if ts != {} {
      var n :| n in ts;
      assert TokenOk(s, s.tokens[n]);
      assert ts == {n};
    }
  }

  /** In every run: no client gets two status replies or is connected twice, and only clients
      that have their reply and are no longer pending are connected. */
  lemma RepliedAndPairedOnce(listener: Fd, steps: seq<Step>)
    requires ValidFd(listener)
    ensures var s := After(listener, steps);
            && (forall c :: s.replies[c] <= 1)
            && (forall i, j :: 0 <= i < j < |s.pairs| ==> s.pairs[i].client != s.pairs[j].client)
            && (forall i :: 0 <= i < |s.pairs| ==> s.replies[s.pairs[i].client] == 1 && !IsPending(s, s.pairs[i].client))
  {
    hide After, ConnInv, TokenInv, IsPending;
    RunKeepsInv(listener, steps);
  }

  /** In every run the server's descriptors are accounted for. */
  lemma DescriptorsAccountedFor(listener: Fd, steps: seq<Step>)
    requires ValidFd(listener)
    ensures Consistent(After(listener, steps).broker)
  {
    hide After, Consistent, TokenInv, HistoryInv;
    RunKeepsInv(listener, steps);
  }

  /** Step `k` of the run accepts the connect request of `client` for `id` while `service` is
      registered under that id. */
  predicate AsksAt(listener: Fd, steps: seq<Step>, k: nat, client: nat, id: Bytes, service: nat)
    requires k < |steps|
  {
    var s := After(listener, steps[..k]);
    && steps[k].AcceptNext? && steps[k].c == client && Enabled(s, steps[k])
    && s.backlog[client] == Peer(Connect(id))
    && id in s.broker.registered && s.broker.registered[id] in s.conn
    && s.conn[s.broker.registered[id]] == service
  }

  lemma {:induction false} AskedInRun(listener: Fd, steps: seq<Step>, client: nat) returns (k: nat)
    requires ValidFd(listener) && client in After(listener, steps).asked
    ensures k < |steps|
    ensures var ask := After(listener, steps).asked[client];
            AsksAt(listener, steps, k, client, ask.id, ask.service)
  {
    hide Do, Enabled, Inv;
    var front, step := steps[..|steps|-1], steps[|steps|-1];
    var s := After(listener, front);
    RunKeepsInv(listener, front);
    if client in s.asked && s.asked[client] == After(listener, steps).asked[client] {
      k := AskedInRun(listener, front, client);
      assert front[..k] == steps[..k];
    } else {
      k := |steps| - 1;
      NewAsk(s, step, client);
    }
  }

  lemma NewAsk(s: Sys, step: Step, client: nat)
    requires Inv(s) && Enabled(s, step)
    requires client in Do(s, step).asked
    requires !(client in s.asked && s.asked[client] == Do(s, step).asked[client])
    ensures step.AcceptNext? && step.c == client && s.backlog[client].Peer? && s.backlog[client].req.Connect?
    ensures var id := s.backlog[client].req.id;
            && id in s.broker.registered && s.broker.registered[id] in s.conn
            && Do(s, step).asked[client] == Ask(id, s.conn[s.broker.registered[id]])
  {
    hide TokenInv, HistoryInv, ClientID;
  }

  /** In every run: whoever a client is connected with was, when the server took the client's
      request, the service registered under the id asked for. */
  lemma PairedWithServiceAskedFor(listener: Fd, steps: seq<Step>, i: nat) returns (k: nat, id: Bytes)
    requires ValidFd(listener) && i < |After(listener, steps).pairs|
    ensures k < |steps|
    ensures var pair := After(listener, steps).pairs[i];
            AsksAt(listener, steps, k, pair.client, id, pair.service)
  {
    hide After, ConnInv, TokenInv, IsPending, AsksAt;
    RunKeepsInv(listener, steps);
    var s := After(listener, steps);
    k := AskedInRun(listener, steps, s.pairs[i].client);
    id := s.asked[s.pairs[i].client].id;
  }

  /** The price of having no time-out: a pending client whose token is lost stays pending,
      whatever happens. */
  lemma LostClientStaysPending(s: Sys, step: Step, fd: Fd)
    requires Inv(s) && Enabled(s, step) && ValidFd(fd)
    requires ClientID(fd) in s.broker.pending && TokensFor(s, fd) == {}
    ensures ClientID(fd) in Do(s, step).broker.pending && TokensFor(Do(s, step), fd) == {}
  {
    hide Inv, ClientID, TokensFor, DoAccept;
    NoTokenAppears(s, step, fd);
    if step.AcceptNext? {
      StaysPending(s, step.c, step.fd, if step.broken then NoData else RequestOf(s, step.c), fd);
    }
  }

  lemma StaysPending(s: Sys, c: nat, fd': Fd, req: Request, fd: Fd)
    requires Inv(s) && c in s.backlog && ValidFd(fd') && Readable(s, c, req) && ValidFd(fd)
    requires ClientID(fd) in s.broker.pending && TokensFor(s, fd) == {}
    ensures ClientID(fd) in DoAccept(s, c, fd', req).broker.pending
  {
    hide Inv, ConnAfter, TokensAfter, AskedAfter, RepliesAfter, PairsAfter, ClientID, RequestOf;
    if s.backlog[c].Report? {
      ReportedToken(s, c);
      var n := s.backlog[c].serial;
      assert n !in TokensFor(s, fd);
      TokenFd(s, n);
      ClientIDRoundTrip(s.tokens[n].fd);
      ClientIDRoundTrip(fd);
    } else {
      PeersDoNotReport(s, c);
    }
  }

  lemma TokenFd(s: Sys, n: nat)
    requires Inv(s) && n in s.tokens
    ensures ValidFd(s.tokens[n].fd)
  {
    hide ConnInv, HistoryInv;
    assert TokenOk(s, s.tokens[n]);
  }

  lemma NoTokenAppears(s: Sys, step: Step, fd: Fd)
    requires Inv(s) && Enabled(s, step) && ValidFd(fd)
    requires ClientID(fd) in s.broker.pending && TokensFor(s, fd) == {}
    ensures TokensFor(Do(s, step), fd) == {}
  {
    hide TokenInv, HistoryInv, Consistent, ClientID, Handle, ConnAfter, AskedAfter, RepliesAfter, PairsAfter, RequestOf;
    PendingIsConnected(s.broker, fd);
    var s' := Do(s, step);
    forall n | n in s'.tokens ensures s'.tokens[n].fd != fd {
      if n in s.tokens { assert n !in TokensFor(s, fd); }
    }
  }

  /** A descriptor that stays pending stays the same connection. */
  lemma StaysConnected(s: Sys, step: Step, fd: Fd)
    requires Inv(s) && Enabled(s, step) && Inv(Do(s, step)) && ValidFd(fd)
    requires ClientID(fd) in s.broker.pending && ClientID(fd) in Do(s, step).broker.pending
    ensures fd in s.conn && fd in Do(s, step).conn && Do(s, step).conn[fd] == s.conn[fd]
  {
    hide TokenInv, HistoryInv, Consistent, ClientID, Handle, TokensAfter, AskedAfter, RepliesAfter, PairsAfter, RequestOf;
    PendingIsConnected(s.broker, fd);
    PendingIsConnected(Do(s, step).broker, fd);
  }

  lemma PendingNotReplied(s: Sys, fd: Fd)
    requires Inv(s) && ValidFd(fd) && fd in s.conn && ClientID(fd) in s.broker.pending
    ensures s.conn[fd] !in s.replies
  {
    hide ClientID, ConnInv, TokenInv;
    assert IsPending(s, s.conn[fd]);
  }

  /** Hence such a client never gets a reply: neither then nor at any later point of the run. */
  lemma {:induction false} LostClientNeverAnswered(listener: Fd, steps: seq<Step>, n: nat, fd: Fd)
    requires ValidFd(listener) && ValidFd(fd) && n <= |steps|
    requires ClientID(fd) in After(listener, steps[..n]).broker.pending
    requires TokensFor(After(listener, steps[..n]), fd) == {}
    ensures var s, s' := After(listener, steps[..n]), After(listener, steps);
            && ClientID(fd) in s'.broker.pending && TokensFor(s', fd) == {}
            && fd in s.conn && fd in s'.conn && s'.conn[fd] == s.conn[fd] && s.conn[fd] !in s'.replies
    decreases |steps|
  {
    hide Inv, Do, Enabled, ClientID, TokensFor;
    RunKeepsInv(listener, steps);
    if n == |steps| {
      assert steps[..n] == steps;
      PendingHasConn(After(listener, steps), fd);
    } else {
      var front, step := steps[..|steps|-1], steps[|steps|-1];
      assert front[..n] == steps[..n];
      LostClientNeverAnswered(listener, front, n, fd);
      RunKeepsInv(listener, front);
      if Enabled(After(listener, front), step) {
        LostClientStaysPending(After(listener, front), step, fd);
        StaysConnected(After(listener, front), step, fd);
      }
    }
    PendingNotReplied(After(listener, steps), fd);
  }

  lemma PendingHasConn(s: Sys, fd: Fd)
    requires Inv(s) && ValidFd(fd) && ClientID(fd) in s.broker.pending
    ensures fd in s.conn
  {
    hide TokenInv, HistoryInv, Consistent, ClientID;
    PendingIsConnected(s.broker, fd);
  }

  // ---- When a pending client can still be answered ----------------------------------

  /** Continuing from a state; steps that are not enabled do not happen. */
  function Continue(s: Sys, steps: seq<Step>): Sys
    decreases |steps|
  {
    if steps == [] then s else Continue(if Enabled(s, steps[0]) then Do(s, steps[0]) else s, steps[1..])
  }

  lemma {:induction false} AfterContinued(listener: Fd, front: seq<Step>, more: seq<Step>)
    ensures After(listener, front + more) == Continue(After(listener, front), more)
    decreases |more|
  {
    hide Do, Enabled;
    if more == [] {
      assert front + more == front;
    } else {
      var longer := front + [more[0]];
      assert longer[..|longer|-1] == front;
      assert front + more == longer + more[1..];
      AfterContinued(listener, longer, more[1..]);
    }
  }

  lemma ContinueStep(s: Sys, step: Step, steps: seq<Step>)
    requires Enabled(s, step)
    ensures Continue(s, [step] + steps) == Continue(Do(s, step), steps)
  {
    hide Do, Enabled;
    assert ([step] + steps)[1..] == steps;
  }

  /** The service's requests that are still queued, up to the one with serial `n`. */
  function QueuedUpTo(s: Sys, n: nat): set<nat>
    requires n in s.tokens
  {
    set m | m in s.tokens && m <= n && s.tokens[m].service == s.tokens[n].service && s.tokens[m].stage.Queued?
  }

  predicate FirstQueued(s: Sys, n: nat, m: nat)
    requires n in s.tokens
  {
    m in QueuedUpTo(s, n) && forall k :: k in QueuedUpTo(s, n) ==> m <= k
  }

  lemma {:induction false} LeastOf(ns: set<nat>) returns (m: nat)
    requires ns != {}
    ensures m in ns && forall k :: k in ns ==> m <= k
    decreases |ns|
  {
    var some :| some in ns;
    var rest := ns - {some};
    assert ns == rest + {some};
    m := some;
    if rest != {} {
      var l := LeastOf(rest);
      if l < some { m := l; }
    }
  }

  /** Steps that bring a report on the token's client to the server: the service takes the
      requests queued before it, then this one; the worker answers; the server accepts. */
  lemma {:induction false} CanAnswer(s: Sys, n: nat, fd: Fd) returns (steps: seq<Step>)
    requires Inv(s) && n in s.tokens && ValidFd(fd) && fd !in s.broker.open
    ensures s.tokens[n].client in Continue(s, steps).replies
    decreases if s.tokens[n].stage.Answered? then 0 else if s.tokens[n].stage.Handled? then 1 else 2,
              |QueuedUpTo(s, n)|
  {
    hide Inv, Do, Enabled, Continue, DoAccept;
    if s.tokens[n].stage.Answered? {
      steps := AcceptReport(s, n, fd);
    } else {
      var step := if s.tokens[n].stage.Handled? then Answer(n, true) else Take(n);
      if s.tokens[n].stage.Queued? {
        assert n in QueuedUpTo(s, n);
        var m := LeastOf(QueuedUpTo(s, n));
        step := Take(m);
        TakeFirst(s, n, m);
      } else {
        AnswerHandled(s, n);
      }
      StepKeepsInv(s, step);
      var more := CanAnswer(Do(s, step), n, fd);
      steps := [step] + more;
      ContinueStep(s, step, more);
    }
  }

  lemma AcceptReport(s: Sys, n: nat, fd: Fd) returns (steps: seq<Step>)
    requires Inv(s) && n in s.tokens && s.tokens[n].stage.Answered? && ValidFd(fd) && fd !in s.broker.open
    ensures s.tokens[n].client in Continue(s, steps).replies
  {
    hide ConnInv, HistoryInv, DoAccept, TokenOk, Continue, RequestOf;
    var c := s.tokens[n].stage.conn;
    var step := AcceptNext(c, fd, false);
    steps := [step];
    assert s.backlog[c].serial == n;
    ReportEffect(s, c, fd);
    ContinueStep(s, step, []);
    ContinueNot(Do(s, step));
    assert [step] + [] == steps;
  }

  lemma ContinueNot(s: Sys)
    ensures Continue(s, []) == s
  {
  }

  /** Taking the first queued request leaves fewer in front of serial `n`. */
  lemma TakeFirst(s: Sys, n: nat, m: nat)
    requires n in s.tokens && s.tokens[n].stage.Queued? && FirstQueued(s, n, m)
    ensures Enabled(s, Take(m))
    ensures var s' := Do(s, Take(m));
            && n in s'.tokens && s'.broker == s.broker && s'.tokens[n].client == s.tokens[n].client
            && (if m == n then s'.tokens[n].stage == Handled
                else s'.tokens[n].stage == Queued && |QueuedUpTo(s', n)| < |QueuedUpTo(s, n)|)
  {
    forall other | other in s.tokens && other < m && s.tokens[other].service == s.tokens[m].service
      ensures !s.tokens[other].stage.Queued?
    {
      assert other !in QueuedUpTo(s, n);
    }
    var s' := Do(s, Take(m));
    if m != n {
      assert QueuedUpTo(s', n) == QueuedUpTo(s, n) - {m};
    }
  }

  lemma AnswerHandled(s: Sys, n: nat)
    requires n in s.tokens && s.tokens[n].stage.Handled?
    ensures Enabled(s, Answer(n, true))
    ensures var s' := Do(s, Answer(n, true));
            && n in s'.tokens && s'.broker == s.broker && s'.tokens[n].client == s.tokens[n].client
            && s'.tokens[n].stage.Answered?
  {
  }

  /** In every run, as long as the server has a descriptor left: a pending client can still
      get its reply if and only if its request, a worker on it or a report on it is still
      there. */
  lemma AnswerableIffToken(listener: Fd, steps: seq<Step>, fd: Fd, free: Fd)
    requires ValidFd(listener) && ValidFd(fd) && ValidFd(free)
    requires ClientID(fd) in After(listener, steps).broker.pending
    requires free !in After(listener, steps).broker.open
    ensures var s := After(listener, steps);
            && fd in s.conn
            && (TokensFor(s, fd) != {} <==> exists more :: s.conn[fd] in After(listener, steps + more).replies)
  {
    hide After, Continue, ClientID, Inv;
    var s := After(listener, steps);
    RunKeepsInv(listener, steps);
    PendingHasConn(s, fd);
    if n :| n in TokensFor(s, fd) {
      TokenClient(s, n);
      var more := CanAnswer(s, n, free);
      AfterContinued(listener, steps, more);
    } else {
      forall more ensures s.conn[fd] !in After(listener, steps + more).replies {
        assert (steps + more)[..|steps|] == steps;
        LostClientNeverAnswered(listener, steps + more, |steps|, fd);
      }
    }
  }

  lemma TokenClient(s: Sys, n: nat)
    requires Inv(s) && n in s.tokens
    ensures s.tokens[n].fd in s.conn && s.conn[s.tokens[n].fd] == s.tokens[n].client
  {
    hide ConnInv, HistoryInv;
    assert TokenOk(s, s.tokens[n]);
  }
}
