/** The service's side of the rendezvous: it registers, and then has a worker answer each
    request that the server forwards. The endless loop is followed over any finite sequence of
    messages. */
module Services {
  import opened ByteStrings
  import opened Parsers
  import opened Protocols
  import opened Results
  import Brokers

  /** What one turn of the loop meets: what can be read from the control connection, whether
      the server can be reached for a new connection, and whether the local service can. */
  datatype Event =
    | Message(buffer: Bytes, reachable: bool, serviceUp: bool)
    | ReadFails

  /** A forked worker: what it sends over its new connection to the server, and whether it
      goes on to relay between that and the service. */
  datatype Worker = Worker(report: Bytes, relays: bool)

  /** The control connection and the connection made by `shutdown`. */
  datatype Effect =
    | Control(text: Bytes)
    | Aside(text: Bytes)
    | CloseControl

  function WorkerFor(clientID: Bytes, serviceUp: bool): Worker {
    if serviceUp then Worker(MakeRequest(CONNECTION_CREATED, clientID), true)
    else Worker(MakeRequest(CONNECTION_FAILED, clientID), false)
  }

  /** The client that a forwarded request is about; its type is not looked at. */
  function ClientOf(buffer: Bytes): Result<Bytes> {
    var j :- ParseText(CString(buffer));
    TextField(j, NODE_ID)
  }

  /** The workers that one turn forks. */
  function WorkersOf(event: Event): Result<seq<Worker>> {
    match event
    case ReadFails => Ok([])
    case Message(buffer, reachable, serviceUp) =>
      var clientID :- ClientOf(buffer);
      Ok(if reachable then [WorkerFor(clientID, serviceUp)] else [])
  }

  /** The workers forked over a run of the loop; an exception ends the process. */
  function WorkersFor(events: seq<Event>): Result<seq<Worker>> {
    if events == [] then Ok([]) else
    var before :- WorkersFor(events[..|events|-1]);
    var more :- WorkersOf(events[|events|-1]);
    Ok(before + more)
  }

  /** `start` reaches the loop. */
  predicate Enters(control: int, reply: Bytes) {
    control >= 0 && ReadResponse(reply) == Ok(Success)
  }

  class ServiceProxy {
    const id: Bytes
    /** -1 as long as there is none. */
    var connection: int
    var log: seq<Effect>
    var workers: seq<Worker>

    constructor (id: Bytes)
      ensures this.id == id && connection == -1 && log == [] && workers == []
    {
      this.id := id;
      connection, log, workers := -1, [], [];
    }

    /** `start`. `control` is the descriptor that connecting yields, or -1; `reply` is what the
        server answers to the registration. */
    method Start(control: int, reply: Bytes, events: seq<Event>) returns (r: Result<bool>)
      modifies this
      ensures connection == control
      ensures log == old(log) + if control < 0 then [] else [Control(MakeRequest(Protocols.REGISTER, id))]
      ensures r == Ok(true) <==> Enters(control, reply) && WorkersFor(events).Ok?
      ensures r == Ok(true) ==> workers == old(workers) + WorkersFor(events).value
      ensures !Enters(control, reply) ==> workers == old(workers)
      ensures r == Ok(false) <==> control < 0 || (ReadResponse(reply).Ok? && ReadResponse(reply).value.Failure?)
    {
      hide ReadResponse, MakeRequest, WorkersFor;
      connection := control;
      if connection < 0 {
        return Ok(false);
      }
      log := log + [Control(MakeRequest(Protocols.REGISTER, id))];
      var response :- ReadResponse(reply);
      if response.Failure? {
        return Ok(false);
      }
      r := Loop(events);
    }

    /** The loop. */
    method Loop(events: seq<Event>) returns (r: Result<bool>)
      modifies this`workers
      ensures if WorkersFor(events).Ok? then r == Ok(true) && workers == old(workers) + WorkersFor(events).value
              else r.Err?
    {
      hide WorkersFor, WorkersOf;
      NoWorkers();
      assert workers + [] == workers;
      var i := 0;
      while i < |events|
        invariant 0 <= i <= |events|
        invariant WorkersFor(events[..i]).Ok? && workers == old(workers) + WorkersFor(events[..i]).value
      {
        ghost var before, now := WorkersFor(events[..i]).value, WorkersOf(events[i]);
        WorkersStep(events, i);
        var handled := HandleEvent(events[i]);
        if handled.Err? {
          FailureStays(events, i + 1);
          return Err(handled.error);
        }
        assert old(workers) + before + now.value == old(workers) + (before + now.value);
        i := i + 1;
      }
      assert events[..|events|] == events;
      return Ok(true);
    }

    /** One turn of the loop: `readRequest` and `handleConnectRequest`. */
    method HandleEvent(event: Event) returns (r: Result<bool>)
      modifies this`workers
      ensures WorkersOf(event).Ok? ==> r.Ok? && workers == old(workers) + WorkersOf(event).value
      ensures WorkersOf(event).Err? ==> r.Err? && workers == old(workers)
    {
      hide ClientOf, WorkerFor;
      match event
      case ReadFails =>
        assert workers + [] == workers;
        return Ok(true);
      case Message(buffer, reachable, serviceUp) =>
        var clientID :- ClientOf(buffer);
        if reachable {
          workers := workers + [WorkerFor(clientID, serviceUp)];
        } else {
          assert workers + [] == workers;
        }
        return Ok(true);
    }

    /** `shutdown`; `aside` is the descriptor of its own connection to the server. */
    method Shutdown(aside: int)
      modifies this`log
      ensures log == old(log) + (if aside > 0 then [Aside(MakeRequest(Protocols.UNREGISTER, id))] else [])
                              + (if connection > 0 then [CloseControl] else [])
    {
      if aside > 0 {
        log := log + [Aside(MakeRequest(Protocols.UNREGISTER, id))];
      }
      if connection > 0 {
        log := log + [CloseControl];
      }
    }
  }

  lemma NoWorkers()
    ensures forall events: seq<Event> :: WorkersFor(events[..0]) == Ok([])
  {
  }

  lemma WorkersStep(events: seq<Event>, i: nat)
    requires i < |events| && WorkersFor(events[..i]).Ok?
    ensures WorkersOf(events[i]).Ok? ==>
              WorkersFor(events[..i + 1]) == Ok(WorkersFor(events[..i]).value + WorkersOf(events[i]).value)
    ensures WorkersOf(events[i]).Err? ==> WorkersFor(events[..i + 1]).Err?
  {
    hide WorkersOf;
    assert events[..i + 1][..i] == events[..i];
  }

  lemma {:induction false} FailureStays(events: seq<Event>, i: nat)
    requires i <= |events| && WorkersFor(events[..i]).Err?
    ensures WorkersFor(events).Err?
    decreases |events|
  {
    hide WorkersOf;
    if i == |events| {
      assert events[..i] == events;
    } else {
      assert events[..|events|-1][..i] == events[..i];
      FailureStays(events[..|events|-1], i);
    }
  }

  // ---- The service answers what it is asked -----------------------------------------

  /** One turn of the loop: a forwarded request about the client with descriptor `fd`, as the
      server sends it, or a read that fails. */
  datatype Turn =
    | Asked(fd: Brokers.Fd, junk: Bytes, reachable: bool, serviceUp: bool)
    | NothingRead

  predicate AllValid(turns: seq<Turn>) {
    forall i :: 0 <= i < |turns| && turns[i].Asked? ==> Brokers.ValidFd(turns[i].fd)
  }

  function EventOf(turn: Turn): Event
    requires turn.Asked? ==> Brokers.ValidFd(turn.fd)
  {
    match turn
    case Asked(fd, junk, reachable, serviceUp) =>
      Message(Wire(Brokers.ProxyConnect(Brokers.ClientID(fd))) + [0] + junk, reachable, serviceUp)
    case NothingRead => ReadFails
  }

  function EventsOf(turns: seq<Turn>): (r: seq<Event>)
    requires AllValid(turns)
    ensures |r| == |turns|
  {
    if turns == [] then [] else EventsOf(turns[..|turns|-1]) + [EventOf(turns[|turns|-1])]
  }

  /** What the server is to learn in a turn: a status if the request leads to a worker. */
  function StatusOf(turn: Turn): seq<Brokers.Request>
    requires turn.Asked? ==> Brokers.ValidFd(turn.fd)
  {
    if turn.Asked? && turn.reachable then [Brokers.Status(Brokers.ClientID(turn.fd), turn.serviceUp)] else []
  }

  function StatusesFor(turns: seq<Turn>): seq<Brokers.Request>
    requires AllValid(turns)
  {
    if turns == [] then [] else StatusesFor(turns[..|turns|-1]) + StatusOf(turns[|turns|-1])
  }

  /** The server reads this from a worker's connection, whatever was in its buffer. */
  ghost predicate Tells(worker: Worker, status: Brokers.Request) {
    && (forall junk :: ReadRequest(worker.report + [0] + junk) == Ok(status))
    && status.Status? && worker.relays == status.success
  }

  ghost predicate AllTell(workers: seq<Worker>, statuses: seq<Brokers.Request>) {
    |workers| == |statuses| && forall i :: 0 <= i < |workers| ==> Tells(workers[i], statuses[i])
  }

  lemma ClientIsRead(clientID: Bytes, junk: Bytes)
    ensures ClientOf(MakeRequest(CONNECT, clientID) + [0] + junk) == Ok(clientID)
  {
    hide MakeRequest, CString, ParseText, OneLine;
    RequestRoundTrip(CONNECT, clientID, junk);
    ConnectIsDistinct();
  }

  lemma ConnectIsDistinct()
    ensures CONNECT != REGISTER && CONNECT != UNREGISTER
  {
    assert |CONNECT| != |REGISTER| && |CONNECT| != |UNREGISTER|;
  }

  lemma WorkerTells(clientID: Bytes, serviceUp: bool)
    ensures Tells(WorkerFor(clientID, serviceUp), Brokers.Status(clientID, serviceUp))
  {
    hide MakeRequest, ReadRequest;
    var kind := if serviceUp then CONNECTION_CREATED else CONNECTION_FAILED;
    StatusIsMeant(clientID, serviceUp);
    forall junk ensures ReadRequest(MakeRequest(kind, clientID) + [0] + junk) == Ok(Brokers.Status(clientID, serviceUp)) {
      RequestRoundTrip(kind, clientID, junk);
    }
  }

  lemma StatusIsMeant(clientID: Bytes, serviceUp: bool)
    ensures Meant(if serviceUp then CONNECTION_CREATED else CONNECTION_FAILED, clientID) == Brokers.Status(clientID, serviceUp)
  {
    assert |CONNECTION_CREATED| == 18 && |CONNECTION_FAILED| == 17;
    assert |REGISTER| == 8 && |UNREGISTER| == 10 && |CONNECT| == 7;
  }

  lemma TurnAnswers(turn: Turn)
    requires turn.Asked? ==> Brokers.ValidFd(turn.fd)
    ensures WorkersOf(EventOf(turn)).Ok? && AllTell(WorkersOf(EventOf(turn)).value, StatusOf(turn))
  {
    hide MakeRequest, ReadRequest, ClientOf, WorkerFor, Tells;
    if turn.Asked? {
      var clientID := Brokers.ClientID(turn.fd);
      ClientIsRead(clientID, turn.junk);
      WorkerTells(clientID, turn.serviceUp);
    }
  }

  /** Each forwarded request that the service can act on makes one worker, which tells the
      server about just that client whether its service could be reached; nothing else is
      reported, the requests are never mistaken, and the loop goes on after a read that
      fails. */
  lemma {:induction false} ServiceAnswers(turns: seq<Turn>)
    requires AllValid(turns)
    ensures WorkersFor(EventsOf(turns)).Ok? && AllTell(WorkersFor(EventsOf(turns)).value, StatusesFor(turns))
    decreases |turns|
  {
    hide WorkersOf, EventOf, StatusOf, Tells;
    if turns != [] {
      var n := |turns| - 1;
      ServiceAnswers(turns[..n]);
      assert EventsOf(turns)[..n] == EventsOf(turns[..n]);
      TurnAnswers(turns[n]);
    }
  }

  // ---- Registering ----------------------------------------------------------------------

  /** The service and the server agree: with the server's reply to its registration the service
      enters the loop if and only if the server then holds its id for just that connection. */
  lemma EntersIffHeld(b: Brokers.State, id: Bytes, control: Brokers.Fd, local: nat, junk: Bytes)
    requires Brokers.Consistent(b) && Brokers.ValidFd(control) && control !in b.open
    ensures ReadRequest(MakeRequest(Protocols.REGISTER, id) + [0] + junk) == Ok(Brokers.Register(id))
    ensures var b1 := Brokers.Accept(b, control);
            var b' := Brokers.Handle(b1, control, Brokers.Register(id));
            var told := Brokers.MessagesTo(Brokers.Effects(b1, control, Brokers.Register(id)), control);
            && |told| == 1
            && (Enters(local, Wire(told[0]) + [0] + junk) <==> id in b'.registered && b'.registered[id] == control)
  {
    hide MakeRequest, ReadRequest, ReadResponse, Wire, Brokers.Handle, Brokers.Effects, Brokers.Consistent;
    OwnRequestsAreRead(id, junk);
    Brokers.RegistrationIsAnswered(b, control, id);
    WireIsRead(Brokers.Accepted, junk);
    WireIsRead(Brokers.Rejected(Brokers.AlreadyRegistered), junk);
  }

  // ---- Shutting down ------------------------------------------------------------------

  lemma OwnRequestsAreRead(id: Bytes, junk: Bytes)
    ensures ReadRequest(MakeRequest(Protocols.REGISTER, id) + [0] + junk) == Ok(Brokers.Register(id))
    ensures ReadRequest(MakeRequest(Protocols.UNREGISTER, id) + [0] + junk) == Ok(Brokers.Unregister(id))
  {
    hide MakeRequest, ReadRequest;
    RequestRoundTrip(Protocols.REGISTER, id, junk);
    RequestRoundTrip(Protocols.UNREGISTER, id, junk);
    assert |Protocols.REGISTER| != |Protocols.UNREGISTER|;
  }

  /** What the server makes of a service's life. The text that `Start` sends over the control
      connection registers the id; it stays so during any `traffic` in which nobody unregisters
      it; and the text that `Shutdown` sends over its own connection then removes just that id,
      closes the server's end of just that control connection, and leaves no trace of itself. */
  lemma ShutdownUnregisters(b: Brokers.State, id: Bytes, control: Brokers.Fd, traffic: seq<(Brokers.Fd, Brokers.Request)>,
                            aside: Brokers.Fd, junk: Bytes)
    requires Brokers.Consistent(b) && id !in b.registered
    requires Brokers.ValidFd(control) && control !in b.open && Brokers.ValidFd(aside)
    requires forall i :: 0 <= i < |traffic| ==> traffic[i].1 != Brokers.Unregister(id)
    requires aside !in Brokers.HandleAll(b, [(control, Brokers.Register(id))] + traffic).open
    ensures ReadRequest(MakeRequest(Protocols.REGISTER, id) + [0] + junk) == Ok(Brokers.Register(id))
    ensures ReadRequest(MakeRequest(Protocols.UNREGISTER, id) + [0] + junk) == Ok(Brokers.Unregister(id))
    ensures var b1 := Brokers.HandleAll(b, [(control, Brokers.Register(id))] + traffic);
            var b2 := Brokers.Handle(Brokers.Accept(b1, aside), aside, Brokers.Unregister(id));
            && id in b1.registered && b1.registered[id] == control && control in b1.open
            && b2 == b1.(registered := b1.registered - {id}, open := b1.open - {control})
            && Brokers.Close(control) in Brokers.Effects(Brokers.Accept(b1, aside), aside, Brokers.Unregister(id))
  {
    hide MakeRequest, ReadRequest, Brokers.PendingFds, Brokers.Consistent;
    OwnRequestsAreRead(id, junk);
    var arrivals := [(control, Brokers.Register(id))] + traffic;
    assert arrivals[1..] == traffic;
    Brokers.HandleKeepsConsistent(b, control, Brokers.Register(id));
    var b0 := Brokers.Handle(Brokers.Accept(b, control), control, Brokers.Register(id));
    Brokers.RegistrationStays(b0, traffic, id);
    var b1 := Brokers.HandleAll(b, arrivals);
    assert b1 == Brokers.HandleAll(b0, traffic);
    assert b1.open + {aside} - {control} - {aside} == b1.open - {control};
  }
}
