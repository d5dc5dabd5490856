/** The byte relay: `exchangeData`, the two threads that run it over one pair of descriptors,
    and a chain of such relays (client proxy, server child, service worker) as a transition
    system with any interleaving and any chunking. Sends are complete or fail. */
module Relays {
  import opened ByteStrings

  const PACKET_SIZE: nat := 1024

  // ---- One thread ---------------------------------------------------------------

  /** A connected descriptor. `inbox` are the chunks that successive calls of `recv` will
      find, until one finds the end or fails; `credit` is how many calls of `send` succeed. */
  class Socket {
    var isOpen: bool
    var inbox: seq<Bytes>
    var credit: nat
    ghost var received: Bytes
    ghost var sent: Bytes

    ghost predicate Valid()
      reads this
    {
      forall i :: 0 <= i < |inbox| ==> 0 < |inbox[i]| <= PACKET_SIZE
    }

    constructor (inbox: seq<Bytes>, credit: nat)
      requires forall i :: 0 <= i < |inbox| ==> 0 < |inbox[i]| <= PACKET_SIZE
      ensures Valid() && isOpen && this.inbox == inbox && this.credit == credit && received == [] && sent == []
    {
      this.inbox, this.credit := inbox, credit;
      isOpen, received, sent := true, [], [];
    }

    /** `recv`: 0 at the end of the stream, -1 on a closed descriptor. */
    method Recv(buf: array<byte>) returns (n: int)
      requires Valid() && buf.Length > PACKET_SIZE
      modifies this`inbox, this`received, buf
      ensures Valid()
      ensures n > 0 <==> old(isOpen && inbox != [])
      ensures n > 0 ==> n <= PACKET_SIZE && buf[..n] == old(inbox)[0] && inbox == old(inbox)[1..]
      ensures n > 0 ==> received == old(received) + old(inbox)[0]
      ensures n <= 0 ==> inbox == old(inbox) && received == old(received) && buf[..] == old(buf[..])
    {
      if !isOpen { return -1; }
      if inbox == [] { return 0; }
      var chunk := inbox[0];
      n := |chunk|;
      forall i | 0 <= i < n { buf[i] := chunk[i]; }
      assert buf[..n] == chunk;
      inbox := inbox[1..];
      received := received + chunk;
    }

    /** `send`: everything, or a failure. */
    method Send(buf: array<byte>, n: nat) returns (r: int)
      requires n <= buf.Length
      modifies this`sent, this`credit
      ensures r < 0 <==> !isOpen || old(credit) == 0
      ensures r >= 0 ==> sent == old(sent) + buf[..n] && credit == old(credit) - 1
      ensures r < 0 ==> sent == old(sent) && credit == old(credit)
    {
      if !isOpen || credit == 0 { return -1; }
      sent := sent + buf[..n];
      credit := credit - 1;
      return n;
    }

    method Close()
      modifies this`isOpen
      ensures !isOpen
    {
      isOpen := false;
    }
  }

  function Joined(chunks: seq<Bytes>): Bytes {
    if chunks == [] then [] else chunks[0] + Joined(chunks[1..])
  }

  lemma {:induction false} JoinedSnoc(chunks: seq<Bytes>, n: nat)
    requires n < |chunks|
    ensures Joined(chunks[..n + 1]) == Joined(chunks[..n]) + chunks[n]
  {
    if n == 0 {
      assert chunks[..1] == [chunks[0]] && chunks[..1][1..] == [];
    } else {
      JoinedSnoc(chunks[1..], n - 1);
      assert chunks[..n + 1][1..] == chunks[1..][..n];
      assert chunks[..n][1..] == chunks[1..][..n - 1];
      assert chunks[0] + (Joined(chunks[1..][..n - 1]) + chunks[n])
          == chunks[0] + Joined(chunks[1..][..n - 1]) + chunks[n];
    }
  }

  /** How many chunks get through a relay from `source` to `target`. */
  function Relayed(inbox: seq<Bytes>, sourceOpen: bool, credit: nat, targetOpen: bool): nat {
    if !sourceOpen || !targetOpen then 0 else if |inbox| <= credit then |inbox| else credit
  }

  /** What gets through, if these are the chunks to come. */
  function SentBy(chunks: seq<Bytes>, sourceOpen: bool, credit: nat, targetOpen: bool): Bytes {
    Joined(chunks[..Relayed(chunks, sourceOpen, credit, targetOpen)])
  }

  /** The chunk in hand when a send fails. */
  function InHand(chunks: seq<Bytes>, sourceOpen: bool, credit: nat, targetOpen: bool): Bytes {
    var n := Relayed(chunks, sourceOpen, credit, targetOpen);
    if sourceOpen && n < |chunks| then chunks[n] else []
  }

  /** `exchangeData`. What was read is what was sent and the chunk in hand, which is empty
      unless a send failed; the terminator that is put behind the data is not sent. */
  method ExchangeData(source: Socket, target: Socket)
    requires source.Valid() && target.Valid() && source != target
    modifies source, target
    ensures !source.isOpen && !target.isOpen
    ensures var sent := SentBy(old(source.inbox), old(source.isOpen), old(target.credit), old(target.isOpen));
            && target.sent == old(target.sent) + sent
            && source.received == old(source.received) + sent
                 + InHand(old(source.inbox), old(source.isOpen), old(target.credit), old(target.isOpen))
    ensures source.sent == old(source.sent) && target.received == old(target.received)
  {
    hide Joined;
    ghost var chunks, before, sentBefore := source.inbox, source.received, target.sent;
    ghost var n, done := 0, [];
    var buf := new byte[PACKET_SIZE + 1];
    NothingJoined(chunks);
    assert before + done == before && sentBefore + done == sentBefore;
    var numBytes := source.Recv(buf);
    while numBytes > 0
      invariant source.Valid() && source.isOpen == old(source.isOpen) && target.isOpen == old(target.isOpen)
      invariant 0 <= n <= |chunks| && target.credit == old(target.credit) - n && done == Joined(chunks[..n])
      invariant n > 0 ==> source.isOpen && target.isOpen
      invariant target.sent == sentBefore + done
      invariant source.sent == old(source.sent) && target.received == old(target.received)
      invariant numBytes > 0 ==> Holds(chunks, n, source.inbox, numBytes, buf[..]) && source.isOpen
      invariant numBytes > 0 ==> source.received == before + done + chunks[n]
      invariant numBytes <= 0 ==> (source.isOpen ==> n == |chunks|) && source.received == before + done
      decreases |source.inbox|, numBytes
    {
      var r := SendChunk(target, buf, numBytes);
      if r < 0 {
        break;
      }
      JoinedSnoc(chunks, n);
      Associative(before, sentBefore, done, chunks[n]);
      done := done + chunks[n];
      n := n + 1;
      numBytes := source.Recv(buf);
    }
    source.Close();
    target.Close();
  }

  /** The chunk in the buffer, and those behind it. */
  ghost predicate Holds(chunks: seq<Bytes>, n: nat, inbox: seq<Bytes>, numBytes: int, buf: Bytes) {
    n < |chunks| && inbox == chunks[n + 1..] && 0 < numBytes <= PACKET_SIZE < |buf| && buf[..numBytes] == chunks[n]
  }

  lemma Associative(a: Bytes, b: Bytes, c: Bytes, d: Bytes)
    ensures a + c + d == a + (c + d) && b + c + d == b + (c + d)
  {
  }

  /** Terminates the text in the buffer and sends it without the terminator. */
  method SendChunk(target: Socket, buf: array<byte>, numBytes: nat) returns (r: int)
    requires numBytes <= PACKET_SIZE < buf.Length
    modifies buf, target`sent, target`credit
    ensures r < 0 <==> !target.isOpen || old(target.credit) == 0
    ensures r >= 0 ==> target.sent == old(target.sent) + old(buf[..numBytes]) && target.credit == old(target.credit) - 1
    ensures r < 0 ==> target.sent == old(target.sent) && target.credit == old(target.credit)
  {
    buf[numBytes] := 0;
    assert buf[..numBytes] == old(buf[..numBytes]);
    r := target.Send(buf, numBytes);
  }

  lemma NothingJoined(chunks: seq<Bytes>)
    ensures Joined(chunks[..0]) == []
  {
  }

  // ---- A chain of relays ----------------------------------------------------------

  /** One direction of one connection: what was written into it, and what was read from it. */
  datatype Flow = Flow(sent: Bytes, received: Bytes)

  /** Where a thread is: about to call `recv`, in that call, about to call `send`, in that
      call, or behind the loop. */
  datatype Phase = Reading | Receiving | Holding | Sending | ClosingSource | ClosingTarget | Ended

  /** One thread, with what its buffer holds that was read and not sent. */
  datatype Pump = Pump(phase: Phase, buf: Bytes)

  /** One direction through all relays: pump `i` reads from flow `i` and writes to flow `i + 1`. */
  datatype Lane = Lane(flows: seq<Flow>, pumps: seq<Pump>)

  datatype Direction = Forward | Backward

  /** The two descriptors that the threads of one relay share. */
  datatype Ends = Ends(client: bool, service: bool)

  /** `open[r]` are the descriptors of relay `r`, counted from the client's end. */
  datatype Sys = Sys(forward: Lane, backward: Lane, open: seq<Ends>)

  datatype Step =
    | Write(dir: Direction, bytes: Bytes)         // by the program at the start of the lane
    | Read(dir: Direction, n: nat)                // by the program at the end of the lane
    | CallReceive(dir: Direction, i: nat)
    | Receive(dir: Direction, i: nat, n: nat)
    | ReceiveEnds(dir: Direction, i: nat)         // end of stream, failure or closed descriptor
    | CallSend(dir: Direction, i: nat)
    | Send(dir: Direction, i: nat)
    | SendFails(dir: Direction, i: nat)
    | CloseSource(dir: Direction, i: nat)
    | CloseTarget(dir: Direction, i: nat)

  function LaneOf(s: Sys, dir: Direction): Lane {
    if dir.Forward? then s.forward else s.backward
  }

  function WithLane(s: Sys, dir: Direction, lane: Lane): Sys {
    if dir.Forward? then s.(forward := lane) else s.(backward := lane)
  }

  /** The relay that pump `i` of a lane belongs to. */
  function RelayOf(s: Sys, dir: Direction, i: nat): nat
    requires i < |s.open|
  {
    if dir.Forward? then i else |s.open| - 1 - i
  }

  function SourceOpen(e: Ends, dir: Direction): bool {
    if dir.Forward? then e.client else e.service
  }

  function TargetOpen(e: Ends, dir: Direction): bool {
    if dir.Forward? then e.service else e.client
  }

  function SourceClosed(e: Ends, dir: Direction): Ends {
    if dir.Forward? then e.(client := false) else e.(service := false)
  }

  function TargetClosed(e: Ends, dir: Direction): Ends {
    if dir.Forward? then e.(service := false) else e.(client := false)
  }

  function Unread(f: Flow): Bytes {
    if |f.received| <= |f.sent| then f.sent[|f.received|..] else []
  }

  predicate Shape(s: Sys) {
    && |s.forward.pumps| == |s.backward.pumps| == |s.open|
    && |s.forward.flows| == |s.backward.flows| == |s.open| + 1
  }

  /** A call needs an open descriptor when it begins. It may complete after the other thread
      has closed the descriptor under it. */
  predicate Enabled(s: Sys, step: Step)
    requires Shape(s)
  {
    var lane := LaneOf(s, step.dir);
    match step
    case Write(_, _) => true
    case Read(_, n) => n <= |Unread(lane.flows[|s.open|])|
    case CallReceive(dir, i) =>
      i < |s.open| && lane.pumps[i].phase.Reading? && SourceOpen(s.open[RelayOf(s, dir, i)], dir)
    case Receive(_, i, n) =>
      i < |s.open| && lane.pumps[i].phase.Receiving? && 0 < n <= PACKET_SIZE && n <= |Unread(lane.flows[i])|
    case ReceiveEnds(_, i) => i < |s.open| && (lane.pumps[i].phase.Reading? || lane.pumps[i].phase.Receiving?)
    case CallSend(dir, i) =>
      i < |s.open| && lane.pumps[i].phase.Holding? && TargetOpen(s.open[RelayOf(s, dir, i)], dir)
    case Send(_, i) => i < |s.open| && lane.pumps[i].phase.Sending?
    case SendFails(_, i) => i < |s.open| && (lane.pumps[i].phase.Holding? || lane.pumps[i].phase.Sending?)
    case CloseSource(_, i) => i < |s.open| && lane.pumps[i].phase.ClosingSource?
    case CloseTarget(_, i) => i < |s.open| && lane.pumps[i].phase.ClosingTarget?
  }

  function Taken(f: Flow, n: nat): Flow
    requires n <= |Unread(f)|
  {
    f.(received := f.received + Unread(f)[..n])
  }

  /** What a step does to the lane of its direction. */
  function DoLane(lane: Lane, step: Step): Lane
    requires |lane.flows| == |lane.pumps| + 1
    requires step.Read? ==> step.n <= |Unread(lane.flows[|lane.pumps|])|
    requires !step.Write? && !step.Read? ==> step.i < |lane.pumps|
    requires step.Receive? ==> step.n <= |Unread(lane.flows[step.i])|
  {
    match step
    case Write(_, bytes) => lane.(flows := lane.flows[0 := lane.flows[0].(sent := lane.flows[0].sent + bytes)])
    case Read(_, n) => lane.(flows := lane.flows[|lane.pumps| := Taken(lane.flows[|lane.pumps|], n)])
    case CallReceive(_, i) => lane.(pumps := lane.pumps[i := lane.pumps[i].(phase := Receiving)])
    case Receive(_, i, n) =>
      Lane(lane.flows[i := Taken(lane.flows[i], n)], lane.pumps[i := Pump(Holding, Unread(lane.flows[i])[..n])])
    case ReceiveEnds(_, i) => lane.(pumps := lane.pumps[i := lane.pumps[i].(phase := ClosingSource)])
    case CallSend(_, i) => lane.(pumps := lane.pumps[i := lane.pumps[i].(phase := Sending)])
    case Send(_, i) =>
      var target := lane.flows[i + 1];
      Lane(lane.flows[i + 1 := target.(sent := target.sent + lane.pumps[i].buf)], lane.pumps[i := Pump(Reading, [])])
    case SendFails(_, i) => lane.(pumps := lane.pumps[i := lane.pumps[i].(phase := ClosingSource)])
    case CloseSource(_, i) => lane.(pumps := lane.pumps[i := lane.pumps[i].(phase := ClosingTarget)])
    case CloseTarget(_, i) => lane.(pumps := lane.pumps[i := lane.pumps[i].(phase := Ended)])
  }

  function DoOpen(s: Sys, step: Step): seq<Ends>
    requires Shape(s) && Enabled(s, step)
  {
    match step
    case CloseSource(dir, i) =>
      var r := RelayOf(s, dir, i); s.open[r := SourceClosed(s.open[r], dir)]
    case CloseTarget(dir, i) =>
      var r := RelayOf(s, dir, i); s.open[r := TargetClosed(s.open[r], dir)]
    case _ => s.open
  }

  function Do(s: Sys, step: Step): (s': Sys)
    requires Shape(s) && Enabled(s, step)
    ensures Shape(s') && |s'.open| == |s.open|
  {
    WithLane(s, step.dir, DoLane(LaneOf(s, step.dir), step)).(open := DoOpen(s, step))
  }

  /** The state after a run; steps that are not enabled do not happen. */
  function Run(s: Sys, steps: seq<Step>): (s': Sys)
    requires Shape(s)
    ensures Shape(s')
    decreases |steps|
  {
    if steps == [] then s
    else Run(if Enabled(s, steps[0]) then Do(s, steps[0]) else s, steps[1..])
  }

  // ---- No byte is lost, duplicated or reordered -----------------------------------

  /** What was read from a connection is a prefix of what was written into it. */
  predicate FlowInv(f: Flow) {
    f.received <= f.sent
  }

  /** What a thread has read is what it has sent and the chunk in hand. */
  predicate PumpInv(source: Flow, pump: Pump, target: Flow) {
    && source.received == target.sent + pump.buf
    && |pump.buf| <= PACKET_SIZE
    && (pump.phase.Reading? || pump.phase.Receiving? ==> pump.buf == [])
  }

  predicate LaneInv(lane: Lane) {
    && |lane.flows| == |lane.pumps| + 1
    && (forall i :: 0 <= i < |lane.flows| ==> FlowInv(lane.flows[i]))
    && (forall i :: 0 <= i < |lane.pumps| ==> PumpInv(lane.flows[i], lane.pumps[i], lane.flows[i + 1]))
  }

  predicate Inv(s: Sys) {
    Shape(s) && LaneInv(s.forward) && LaneInv(s.backward) && PumpsClose(s, Forward) && PumpsClose(s, Backward)
  }

  /** A thread that has closed a descriptor finds it closed. */
  predicate PumpsClose(s: Sys, dir: Direction)
    requires Shape(s)
  {
    forall i :: 0 <= i < |s.open| ==> PumpCloses(LaneOf(s, dir).pumps[i], s.open[RelayOf(s, dir, i)], dir)
  }

  predicate PumpCloses(pump: Pump, e: Ends, dir: Direction) {
    && (pump.phase.ClosingTarget? || pump.phase.Ended? ==> !SourceOpen(e, dir))
    && (pump.phase.Ended? ==> !TargetOpen(e, dir))
  }

  lemma TakenInv(f: Flow, n: nat)
    requires FlowInv(f) && n <= |Unread(f)|
    ensures FlowInv(Taken(f, n)) && Taken(f, n).sent == f.sent
    ensures Taken(f, n).received == f.received + Unread(f)[..n]
  {
    assert f.sent == f.received + Unread(f);
    assert Taken(f, n).received == f.sent[..|f.received| + n];
  }

  predicate PumpInvAt(lane: Lane, i: nat)
    requires |lane.flows| == |lane.pumps| + 1 && i < |lane.pumps|
  {
    PumpInv(lane.flows[i], lane.pumps[i], lane.flows[i + 1])
  }

  lemma SendKeepsInv(lane: Lane, step: Step)
    requires LaneInv(lane) && step.Send? && step.i < |lane.pumps|
    ensures LaneInv(DoLane(lane, step))
  {
    hide Unread, Taken;
    var i := step.i;
    var lane' := DoLane(lane, step);
    assert PumpInvAt(lane, i) && FlowInv(lane.flows[i + 1]);
    assert FlowInv(lane'.flows[i + 1]);
    forall k | 0 <= k < |lane.pumps| ensures PumpInv(lane'.flows[k], lane'.pumps[k], lane'.flows[k + 1]) {
      assert PumpInvAt(lane, k);
      if k == i { assert lane'.flows[k + 1].sent + [] == lane'.flows[k + 1].sent; }
    }
  }

  lemma ReceiveKeepsInv(lane: Lane, step: Step)
    requires LaneInv(lane) && step.Receive? && step.i < |lane.pumps| && lane.pumps[step.i].phase.Receiving?
    requires step.n <= PACKET_SIZE && step.n <= |Unread(lane.flows[step.i])|
    ensures LaneInv(DoLane(lane, step))
  {
    hide Unread, Taken, FlowInv;
    var i := step.i;
    var lane' := DoLane(lane, step);
    TakenInv(lane.flows[i], step.n);
    forall k | 0 <= k < |lane.pumps| ensures PumpInv(lane'.flows[k], lane'.pumps[k], lane'.flows[k + 1]) {
      assert PumpInvAt(lane, k);
      if k == i {
        assert lane.flows[i + 1].sent + [] == lane.flows[i + 1].sent;
      }
    }
  }

  lemma EndpointKeepsInv(lane: Lane, step: Step)
    requires LaneInv(lane) && (step.Write? || (step.Read? && step.n <= |Unread(lane.flows[|lane.pumps|])|))
    ensures LaneInv(DoLane(lane, step))
  {
    hide Unread, Taken;
    var lane' := DoLane(lane, step);
    assert FlowInv(lane.flows[0]);
    if step.Read? { TakenInv(lane.flows[|lane.pumps|], step.n); }
    forall k | 0 <= k < |lane.pumps| ensures PumpInv(lane'.flows[k], lane'.pumps[k], lane'.flows[k + 1]) {
      assert PumpInvAt(lane, k);
    }
  }

  lemma DoLaneKeepsInv(s: Sys, step: Step)
    requires Inv(s) && Enabled(s, step)
    ensures LaneInv(DoLane(LaneOf(s, step.dir), step))
  {
    hide Unread, Taken, FlowInv;
    var lane := LaneOf(s, step.dir);
    if step.Write? || step.Read? {
      EndpointKeepsInv(lane, step);
    } else if step.Receive? {
      ReceiveKeepsInv(lane, step);
    } else if step.Send? {
      SendKeepsInv(lane, step);
    } else {
      var lane' := DoLane(lane, step);
      forall k | 0 <= k < |lane.pumps| ensures PumpInv(lane'.flows[k], lane'.pumps[k], lane'.flows[k + 1]) {
        assert PumpInvAt(lane, k);
      }
    }
  }

  lemma PhaseAfter(s: Sys, step: Step, dir: Direction, k: nat)
    requires Shape(s) && Enabled(s, step) && k < |s.open|
    ensures var p, p' := LaneOf(s, dir).pumps[k].phase, LaneOf(Do(s, step), dir).pumps[k].phase;
            && (p'.ClosingTarget? ==> p.ClosingTarget? || step == CloseSource(dir, k))
            && (p'.Ended? ==> p.Ended? || (p.ClosingTarget? && step == CloseTarget(dir, k)))
  {
    hide Unread, Taken;
  }

  lemma DoKeepsClosed(s: Sys, step: Step, dir: Direction)
    requires Inv(s) && Enabled(s, step)
    ensures PumpsClose(Do(s, step), dir)
  {
    hide Unread, Taken, LaneInv, DoLane;
    var s' := Do(s, step);
    forall k | 0 <= k < |s'.open|
      ensures PumpCloses(LaneOf(s', dir).pumps[k], s'.open[RelayOf(s', dir, k)], dir)
    {
      assert PumpCloses(LaneOf(s, dir).pumps[k], s.open[RelayOf(s, dir, k)], dir);
      PhaseAfter(s, step, dir, k);
    }
  }

  /** Every step of either thread of any relay keeps the accounting. */
  lemma DoKeepsInv(s: Sys, step: Step)
    requires Inv(s) && Enabled(s, step)
    ensures Inv(Do(s, step))
  {
    hide LaneInv, DoLane, PumpsClose;
    DoLaneKeepsInv(s, step);
    DoKeepsClosed(s, step, Forward);
    DoKeepsClosed(s, step, Backward);
  }

  lemma {:induction false} RunKeepsInv(s: Sys, steps: seq<Step>)
    requires Inv(s)
    ensures Inv(Run(s, steps))
    decreases |steps|
  {
    hide Inv, Do, Enabled;
    if steps != [] {
      StateShape(s);
      if Enabled(s, steps[0]) {
        DoKeepsInv(s, steps[0]);
        RunKeepsInv(Do(s, steps[0]), steps[1..]);
      } else {
        RunKeepsInv(s, steps[1..]);
      }
    }
  }

  lemma StateShape(s: Sys)
    requires Inv(s)
    ensures Shape(s)
  {
  }

  /** The bytes on their way behind the start of flow `i`, the oldest first. */
  function OnTheWay(lane: Lane, i: nat): Bytes
    requires |lane.flows| == |lane.pumps| + 1 && i <= |lane.pumps|
    decreases |lane.pumps| - i
  {
    if i == |lane.pumps| then Unread(lane.flows[i])
    else OnTheWay(lane, i + 1) + lane.pumps[i].buf + Unread(lane.flows[i])
  }

  /** Each byte that entered a lane was delivered at its end, or is on its way, in order. */
  lemma {:induction false} Conservation(lane: Lane, i: nat)
    requires |lane.flows| == |lane.pumps| + 1 && LaneInv(lane) && i <= |lane.pumps|
    ensures lane.flows[i].sent == lane.flows[|lane.pumps|].received + OnTheWay(lane, i)
    decreases |lane.pumps| - i
  {
    hide Unread, LaneInv;
    InvAt(lane, i);
    var f := lane.flows[i];
    if i < |lane.pumps| {
      Conservation(lane, i + 1);
      MoveParentheses(lane.flows[|lane.pumps|].received, OnTheWay(lane, i + 1), lane.pumps[i].buf, Unread(f));
    }
  }

  lemma InvAt(lane: Lane, i: nat)
    requires LaneInv(lane) && i <= |lane.pumps|
    ensures lane.flows[i].sent == lane.flows[i].received + Unread(lane.flows[i])
    ensures i < |lane.pumps| ==> lane.flows[i].received == lane.flows[i + 1].sent + lane.pumps[i].buf
  {
    assert FlowInv(lane.flows[i]);
    if i < |lane.pumps| { assert PumpInv(lane.flows[i], lane.pumps[i], lane.flows[i + 1]); }
  }

  lemma MoveParentheses(a: Bytes, b: Bytes, c: Bytes, d: Bytes)
    ensures a + b + c + d == a + (b + c + d)
  {
  }

  /** Fresh connections, and two threads about to read in each relay. */
  function Fresh(relays: nat): (s: Sys)
    ensures Shape(s)
  {
    var lane := Lane(seq(relays + 1, _ => Flow([], [])), seq(relays, _ => Pump(Reading, [])));
    Sys(lane, lane, seq(relays, _ => Ends(true, true)))
  }

  /** Through any number of relays, in every run, and in both directions: what the program at
      the end has read is a prefix of what the program at the start has written, and the rest
      is on its way. */
  lemma EndToEnd(relays: nat, steps: seq<Step>, dir: Direction)
    ensures var lane := LaneOf(Run(Fresh(relays), steps), dir);
            && |lane.flows| == |lane.pumps| + 1 == relays + 1
            && lane.flows[relays].received <= lane.flows[0].sent
            && lane.flows[0].sent == lane.flows[relays].received + OnTheWay(lane, 0)
  {
    hide Run, OnTheWay, Inv;
    var s := Fresh(relays);
    FreshInv(relays);
    RunKeepsInv(s, steps);
    RunKeepsLength(s, steps);
    LanesOf(Run(s, steps), dir);
    Conservation(LaneOf(Run(s, steps), dir), 0);
  }

  lemma FreshInv(relays: nat)
    ensures Inv(Fresh(relays)) && |Fresh(relays).open| == relays
  {
  }

  lemma LanesOf(s: Sys, dir: Direction)
    requires Inv(s)
    ensures LaneInv(LaneOf(s, dir)) && |LaneOf(s, dir).pumps| == |s.open|
  {
  }

  lemma {:induction false} RunKeepsLength(s: Sys, steps: seq<Step>)
    requires Shape(s)
    ensures |Run(s, steps).open| == |s.open|
    decreases |steps|
  {
    hide Enabled, Do;
    if steps != [] {
      RunKeepsLength(if Enabled(s, steps[0]) then Do(s, steps[0]) else s, steps[1..]);
    }
  }

  // ---- When one thread has ended --------------------------------------------------

  predicate Closed(e: Ends) {
    !e.client && !e.service
  }

  /** Not in a call of `recv` or `send`. */
  predicate OutsideCalls(phase: Phase) {
    !phase.Receiving? && !phase.Sending?
  }

  /** What a thread whose descriptors are closed has done between two states: nothing, except
      that a call in which it was may have completed, once. */
  predicate OnlyCallsInProgress(before: Lane, after: Lane, i: nat)
    requires |before.flows| == |before.pumps| + 1 == |after.flows| == |after.pumps| + 1 && i < |before.pumps|
  {
    var p, p' := before.pumps[i], after.pumps[i];
    var read, read' := before.flows[i].received, after.flows[i].received;
    var written, written' := before.flows[i + 1].sent, after.flows[i + 1].sent;
    || (read' == read && written' == written && (OutsideCalls(p'.phase) || p' == p))
    || (p.phase.Receiving? && written' == written && OutsideCalls(p'.phase)
        && read <= read' && |read'| <= |read| + PACKET_SIZE)
    || (p.phase.Sending? && read' == read && OutsideCalls(p'.phase) && written' == written + p.buf)
  }

  lemma StaysClosed(s: Sys, step: Step, dir: Direction, i: nat)
    requires Shape(s) && i < |s.open| && Closed(s.open[RelayOf(s, dir, i)]) && Enabled(s, step)
    ensures var s' := Do(s, step); |s'.open| == |s.open| && Closed(s'.open[RelayOf(s', dir, i)])
  {
    hide Unread, DoLane;
  }

  lemma TakenGrows(f: Flow, n: nat)
    requires n <= |Unread(f)|
    ensures f.received <= Taken(f, n).received && |Taken(f, n).received| == |f.received| + n && Taken(f, n).sent == f.sent
  {
  }

  lemma ReceiveQuiet(lane: Lane, step: Step, i: nat)
    requires |lane.flows| == |lane.pumps| + 1 && i < |lane.pumps| && step.Receive? && step.i < |lane.pumps|
    requires lane.pumps[step.i].phase.Receiving? && step.n <= PACKET_SIZE && step.n <= |Unread(lane.flows[step.i])|
    ensures OnlyCallsInProgress(lane, DoLane(lane, step), i)
  {
    hide Unread, Taken;
    TakenGrows(lane.flows[step.i], step.n);
  }

  lemma LaneQuiet(s: Sys, step: Step, i: nat)
    requires Shape(s) && i < |s.open| && Closed(s.open[RelayOf(s, step.dir, i)]) && Enabled(s, step)
    ensures OnlyCallsInProgress(LaneOf(s, step.dir), DoLane(LaneOf(s, step.dir), step), i)
  {
    hide Unread, Taken;
    var lane := LaneOf(s, step.dir);
    match step
    case Read(_, n) => TakenGrows(lane.flows[|s.open|], n);
    case Receive(_, _, _) => ReceiveQuiet(lane, step, i);
    case _ =>
  }

  lemma DoKeepsQuiet(s: Sys, step: Step, dir: Direction, i: nat)
    requires Shape(s) && i < |s.open| && Closed(s.open[RelayOf(s, dir, i)]) && Enabled(s, step)
    ensures var s' := Do(s, step);
            && |s'.open| == |s.open| && Closed(s'.open[RelayOf(s', dir, i)])
            && OnlyCallsInProgress(LaneOf(s, dir), LaneOf(s', dir), i)
  {
    hide Enabled, DoLane, OnlyCallsInProgress, Closed;
    StaysClosed(s, step, dir, i);
    if dir == step.dir {
      LaneQuiet(s, step, i);
    } else {
      NothingDone(LaneOf(s, dir), i);
    }
  }

  lemma CallsInProgressCompose(a: Lane, b: Lane, c: Lane, i: nat)
    requires |a.flows| == |a.pumps| + 1 == |b.flows| == |b.pumps| + 1 == |c.flows| == |c.pumps| + 1 && i < |a.pumps|
    requires OnlyCallsInProgress(a, b, i) && OnlyCallsInProgress(b, c, i)
    ensures OnlyCallsInProgress(a, c, i)
  {
  }

  lemma {:induction false} RunKeepsQuiet(s: Sys, steps: seq<Step>, dir: Direction, i: nat)
    requires Shape(s) && i < |s.open| && Closed(s.open[RelayOf(s, dir, i)])
    ensures |Run(s, steps).open| == |s.open|
    ensures OnlyCallsInProgress(LaneOf(s, dir), LaneOf(Run(s, steps), dir), i)
    decreases |steps|
  {
    hide Enabled, Do, Closed, OnlyCallsInProgress;
    NothingDone(LaneOf(s, dir), i);
    if steps != [] {
      if Enabled(s, steps[0]) {
        var s1 := Do(s, steps[0]);
        DoKeepsQuiet(s, steps[0], dir, i);
        RunKeepsQuiet(s1, steps[1..], dir, i);
        CallsInProgressCompose(LaneOf(s, dir), LaneOf(s1, dir), LaneOf(Run(s1, steps[1..]), dir), i);
      } else {
        RunKeepsQuiet(s, steps[1..], dir, i);
      }
    }
  }

  lemma NothingDone(lane: Lane, i: nat)
    requires |lane.flows| == |lane.pumps| + 1 && i < |lane.pumps|
    ensures OnlyCallsInProgress(lane, lane, i)
  {
  }

  /** Once one of the two threads of a relay has ended, it has closed both descriptors under
      the other thread. Whatever else happens, that one completes at most the call of `recv` or
      `send` in which it was at that moment: it delivers no chunk but the one it was sending,
      and reads at most one more, which it does not deliver. Pump `i` of one lane and pump `k`
      of the other make one relay. */
  lemma EndedRelayIsQuiet(s: Sys, steps: seq<Step>, dir: Direction, i: nat, other: Direction, k: nat)
    requires Inv(s) && i < |s.open| && LaneOf(s, dir).pumps[i].phase.Ended?
    requires k < |s.open| && RelayOf(s, dir, i) == RelayOf(s, other, k)
    ensures var s' := Run(s, steps);
            && |s'.open| == |s.open| && OnlyCallsInProgress(LaneOf(s, other), LaneOf(s', other), k)
  {
    hide Run, LaneInv, OnlyCallsInProgress;
    assert PumpCloses(LaneOf(s, dir).pumps[i], s.open[RelayOf(s, dir, i)], dir);
    RunKeepsQuiet(s, steps, other, k);
  }

  // ---- The method is a run of the system -----------------------------------------------

  /** What one thread sees of the system. */
  datatype Local = Local(pump: Pump, source: Flow, target: Flow, sourceOpen: bool, targetOpen: bool)

  function View(s: Sys, dir: Direction, i: nat): Local
    requires Shape(s) && i < |s.open|
  {
    var lane, e := LaneOf(s, dir), s.open[RelayOf(s, dir, i)];
    Local(lane.pumps[i], lane.flows[i], lane.flows[i + 1], SourceOpen(e, dir), TargetOpen(e, dir))
  }

  predicate OwnStep(step: Step, dir: Direction, i: nat) {
    !step.Write? && !step.Read? && step.dir == dir && step.i == i
  }

  predicate LocalEnabled(l: Local, step: Step) {
    match step
    case CallReceive(_, _) => l.pump.phase.Reading? && l.sourceOpen
    case Receive(_, _, n) => l.pump.phase.Receiving? && 0 < n <= PACKET_SIZE && n <= |Unread(l.source)|
    case ReceiveEnds(_, _) => l.pump.phase.Reading? || l.pump.phase.Receiving?
    case CallSend(_, _) => l.pump.phase.Holding? && l.targetOpen
    case Send(_, _) => l.pump.phase.Sending?
    case SendFails(_, _) => l.pump.phase.Holding? || l.pump.phase.Sending?
    case CloseSource(_, _) => l.pump.phase.ClosingSource?
    case CloseTarget(_, _) => l.pump.phase.ClosingTarget?
    case _ => false
  }

  function LocalDo(l: Local, step: Step): Local
    requires LocalEnabled(l, step)
  {
    match step
    case CallReceive(_, _) => l.(pump := Pump(Receiving, l.pump.buf))
    case Receive(_, _, n) => l.(pump := Pump(Holding, Unread(l.source)[..n]), source := Taken(l.source, n))
    case ReceiveEnds(_, _) => l.(pump := Pump(ClosingSource, l.pump.buf))
    case CallSend(_, _) => l.(pump := Pump(Sending, l.pump.buf))
    case Send(_, _) => l.(pump := Pump(Reading, []), target := l.target.(sent := l.target.sent + l.pump.buf))
    case SendFails(_, _) => l.(pump := Pump(ClosingSource, l.pump.buf))
    case CloseSource(_, _) => l.(pump := Pump(ClosingTarget, l.pump.buf), sourceOpen := false)
    case CloseTarget(_, _) => l.(pump := Pump(Ended, l.pump.buf), targetOpen := false)
    case _ => l
  }

  lemma StepIsLocal(s: Sys, step: Step, dir: Direction, i: nat)
    requires Shape(s) && i < |s.open| && OwnStep(step, dir, i)
    ensures Enabled(s, step) <==> LocalEnabled(View(s, dir, i), step)
    ensures Enabled(s, step) ==> View(Do(s, step), dir, i) == LocalDo(View(s, dir, i), step)
  {
    hide Unread, Taken;
  }

  /** All steps happen, one after the other, and lead to `s'`. */
  predicate Leads(s: Sys, steps: seq<Step>, s': Sys)
    requires Shape(s)
    decreases |steps|
  {
    if steps == [] then s == s' else Enabled(s, steps[0]) && Leads(Do(s, steps[0]), steps[1..], s')
  }

  predicate LocalLeads(l: Local, steps: seq<Step>, l': Local)
    decreases |steps|
  {
    if steps == [] then l == l' else LocalEnabled(l, steps[0]) && LocalLeads(LocalDo(l, steps[0]), steps[1..], l')
  }

  predicate AllOwn(steps: seq<Step>, dir: Direction, i: nat) {
    forall k :: 0 <= k < |steps| ==> OwnStep(steps[k], dir, i)
  }

  lemma {:induction false} LeadsIsLocal(s: Sys, steps: seq<Step>, l': Local, dir: Direction, i: nat) returns (s': Sys)
    requires Shape(s) && i < |s.open| && LocalLeads(View(s, dir, i), steps, l')
    requires AllOwn(steps, dir, i)
    ensures Leads(s, steps, s') && Shape(s') && |s'.open| == |s.open| && View(s', dir, i) == l'
    decreases |steps|
  {
    hide Enabled, LocalEnabled, Do, LocalDo, View;
    if steps == [] {
      s' := s;
    } else {
      StepIsLocal(s, steps[0], dir, i);
      s' := LeadsIsLocal(Do(s, steps[0]), steps[1..], l', dir, i);
    }
  }

  lemma {:induction false} LocalLeadsOn(l: Local, a: seq<Step>, mid: Local, b: seq<Step>, l': Local)
    requires LocalLeads(l, a, mid) && LocalLeads(mid, b, l')
    ensures LocalLeads(l, a + b, l')
    decreases |a|
  {
    hide LocalEnabled, LocalDo;
    if a == [] {
      assert a + b == b;
    } else {
      assert (a + b)[1..] == a[1..] + b;
      LocalLeadsOn(LocalDo(l, a[0]), a[1..], mid, b, l');
    }
  }

  /** The calls of `exchangeData` as steps. */
  function ExchangeSteps(chunks: seq<Bytes>, sourceOpen: bool, credit: nat, targetOpen: bool, dir: Direction, i: nat): seq<Step> {
    if !sourceOpen then [ReceiveEnds(dir, i)] + ClosingSteps(dir, i)
    else if chunks == [] then [CallReceive(dir, i), ReceiveEnds(dir, i)] + ClosingSteps(dir, i)
    else if !targetOpen then ReceiveSteps(chunks[0], dir, i) + ([SendFails(dir, i)] + ClosingSteps(dir, i))
    else if credit == 0 then
      ReceiveSteps(chunks[0], dir, i) + ([CallSend(dir, i), SendFails(dir, i)] + ClosingSteps(dir, i))
    else
      ReceiveSteps(chunks[0], dir, i)
      + ([CallSend(dir, i), Send(dir, i)] + ExchangeSteps(chunks[1..], sourceOpen, credit - 1, targetOpen, dir, i))
  }

  function ReceiveSteps(chunk: Bytes, dir: Direction, i: nat): seq<Step> {
    [CallReceive(dir, i), Receive(dir, i, |chunk|)]
  }

  function ClosingSteps(dir: Direction, i: nat): seq<Step> {
    [CloseSource(dir, i), CloseTarget(dir, i)]
  }

  lemma OneStep(l: Local, x: Step)
    requires LocalEnabled(l, x)
    ensures LocalLeads(l, [x], LocalDo(l, x))
  {
    hide LocalEnabled, LocalDo;
    assert [x][1..] == [];
  }

  lemma TwoSteps(l: Local, x: Step, y: Step)
    requires LocalEnabled(l, x) && LocalEnabled(LocalDo(l, x), y)
    ensures LocalLeads(l, [x, y], LocalDo(LocalDo(l, x), y))
  {
    hide LocalEnabled, LocalDo;
    OneStep(LocalDo(l, x), y);
    assert [x, y][1..] == [y];
  }

  lemma ClosingLeads(l: Local, first: seq<Step>, mid: Local, dir: Direction, i: nat)
    requires LocalLeads(l, first, mid) && mid.pump.phase.ClosingSource?
    ensures LocalLeads(l, first + ClosingSteps(dir, i),
                       mid.(pump := Pump(Ended, mid.pump.buf), sourceOpen := false, targetOpen := false))
  {
    TwoSteps(mid, CloseSource(dir, i), CloseTarget(dir, i));
    LocalLeadsOn(l, first, mid, ClosingSteps(dir, i),
                 mid.(pump := Pump(Ended, mid.pump.buf), sourceOpen := false, targetOpen := false));
  }

  lemma ReceiveLeads(l: Local, chunk: Bytes, dir: Direction, i: nat)
    requires l.pump == Pump(Reading, []) && l.sourceOpen && 0 < |chunk| <= PACKET_SIZE && chunk <= Unread(l.source)
    ensures LocalLeads(l, ReceiveSteps(chunk, dir, i),
                       l.(pump := Pump(Holding, chunk), source := l.source.(received := l.source.received + chunk)))
  {
    hide Unread;
    assert Unread(l.source)[..|chunk|] == chunk;
    TwoSteps(l, CallReceive(dir, i), Receive(dir, i, |chunk|));
  }

  /** Where a thread ends that has relayed `chunks` as far as the sends succeed. */
  function Exchanged(l: Local, chunks: seq<Bytes>, credit: nat): Local {
    var sent := SentBy(chunks, l.sourceOpen, credit, l.targetOpen);
    var hand := InHand(chunks, l.sourceOpen, credit, l.targetOpen);
    Local(Pump(Ended, hand), l.source.(received := l.source.received + sent + hand),
          l.target.(sent := l.target.sent + sent), false, false)
  }

  lemma {:induction false} ExchangeLeads(l: Local, chunks: seq<Bytes>, credit: nat, dir: Direction, i: nat)
    requires l.pump == Pump(Reading, []) && Joined(chunks) <= Unread(l.source)
    requires forall k :: 0 <= k < |chunks| ==> 0 < |chunks[k]| <= PACKET_SIZE
    ensures LocalLeads(l, ExchangeSteps(chunks, l.sourceOpen, credit, l.targetOpen, dir, i), Exchanged(l, chunks, credit))
    decreases |chunks|
  {
    hide Unread, LocalLeads, Joined, ReceiveSteps, ClosingSteps;
    NothingJoined(chunks);
    if !l.sourceOpen {
      OneStep(l, ReceiveEnds(dir, i));
      ClosingLeads(l, [ReceiveEnds(dir, i)], LocalDo(l, ReceiveEnds(dir, i)), dir, i);
      assert l.source.received + [] + [] == l.source.received && l.target.sent + [] == l.target.sent;
    } else if chunks == [] {
      TwoSteps(l, CallReceive(dir, i), ReceiveEnds(dir, i));
      ClosingLeads(l, [CallReceive(dir, i), ReceiveEnds(dir, i)], l.(pump := Pump(ClosingSource, [])), dir, i);
      assert l.source.received + [] + [] == l.source.received && l.target.sent + [] == l.target.sent;
    } else {
      ExchangeFirst(l, chunks, credit, dir, i);
    }
  }

  lemma {:induction false} ExchangeFirst(l: Local, chunks: seq<Bytes>, credit: nat, dir: Direction, i: nat)
    requires l.pump == Pump(Reading, []) && l.sourceOpen && chunks != [] && Joined(chunks) <= Unread(l.source)
    requires forall k :: 0 <= k < |chunks| ==> 0 < |chunks[k]| <= PACKET_SIZE
    ensures LocalLeads(l, ExchangeSteps(chunks, l.sourceOpen, credit, l.targetOpen, dir, i), Exchanged(l, chunks, credit))
    decreases |chunks|, 0
  {
    hide Unread, LocalLeads, Joined, ReceiveSteps, ClosingSteps;
    var chunk, rest := chunks[0], chunks[1..];
    JoinedCons(chunks);
    NothingJoined(chunks);
    ReceiveLeads(l, chunk, dir, i);
    var held := l.(pump := Pump(Holding, chunk), source := l.source.(received := l.source.received + chunk));
    if !l.targetOpen {
      OneStep(held, SendFails(dir, i));
      ClosingLeads(held, [SendFails(dir, i)], LocalDo(held, SendFails(dir, i)), dir, i);
      assert l.source.received + [] + chunk == l.source.received + chunk && l.target.sent + [] == l.target.sent;
      LocalLeadsOn(l, ReceiveSteps(chunk, dir, i), held, [SendFails(dir, i)] + ClosingSteps(dir, i), Exchanged(l, chunks, credit));
    } else if credit == 0 {
      TwoSteps(held, CallSend(dir, i), SendFails(dir, i));
      ClosingLeads(held, [CallSend(dir, i), SendFails(dir, i)], held.(pump := Pump(ClosingSource, chunk)), dir, i);
      assert l.source.received + [] + chunk == l.source.received + chunk && l.target.sent + [] == l.target.sent;
      LocalLeadsOn(l, ReceiveSteps(chunk, dir, i), held,
                   [CallSend(dir, i), SendFails(dir, i)] + ClosingSteps(dir, i), Exchanged(l, chunks, credit));
    } else {
      var next := held.(pump := Pump(Reading, []), target := l.target.(sent := l.target.sent + chunk));
      var more := ExchangeSteps(rest, true, credit - 1, true, dir, i);
      TwoSteps(held, CallSend(dir, i), Send(dir, i));
      UnreadBehind(l.source, chunk, Joined(rest));
      ExchangeLeads(next, rest, credit - 1, dir, i);
      ExchangedLater(l, next, chunks, credit);
      LocalLeadsOn(held, [CallSend(dir, i), Send(dir, i)], next, more, Exchanged(l, chunks, credit));
      LocalLeadsOn(l, ReceiveSteps(chunk, dir, i), held, [CallSend(dir, i), Send(dir, i)] + more, Exchanged(l, chunks, credit));
    }
  }

  lemma JoinedCons(chunks: seq<Bytes>)
    requires chunks != []
    ensures Joined(chunks) == chunks[0] + Joined(chunks[1..])
    ensures forall n :: 0 < n <= |chunks| ==> Joined(chunks[..n]) == chunks[0] + Joined(chunks[1..][..n - 1])
  {
    forall n | 0 < n <= |chunks| ensures Joined(chunks[..n]) == chunks[0] + Joined(chunks[1..][..n - 1]) {
      assert chunks[..n][1..] == chunks[1..][..n - 1];
    }
  }

  lemma UnreadBehind(f: Flow, chunk: Bytes, rest: Bytes)
    requires chunk + rest <= Unread(f)
    ensures chunk <= Unread(f)
    ensures rest <= Unread(f.(received := f.received + chunk))
  {
    var u := Unread(f);
    if |f.received| <= |f.sent| {
      assert u[|chunk|..] == Unread(f.(received := f.received + chunk));
      assert u[..|chunk + rest|] == chunk + rest;
      assert u[|chunk|..][..|rest|] == rest;
    }
  }

  lemma ExchangedLater(l: Local, next: Local, chunks: seq<Bytes>, credit: nat)
    requires chunks != [] && credit > 0 && l.sourceOpen && l.targetOpen
    requires next.sourceOpen && next.targetOpen
    requires next.source == l.source.(received := l.source.received + chunks[0])
    requires next.target == l.target.(sent := l.target.sent + chunks[0])
    ensures Exchanged(next, chunks[1..], credit - 1) == Exchanged(l, chunks, credit)
  {
    hide Joined;
    JoinedCons(chunks);
    var n := Relayed(chunks, true, credit, true);
    var sent, hand := Joined(chunks[1..][..n - 1]), InHand(chunks, true, credit, true);
    assert l.source.received + chunks[0] + sent + hand == l.source.received + (chunks[0] + sent) + hand;
    assert l.target.sent + chunks[0] + sent == l.target.sent + (chunks[0] + sent);
  }

  lemma {:induction false} ExchangeStepsOwn(chunks: seq<Bytes>, sourceOpen: bool, credit: nat, targetOpen: bool, dir: Direction, i: nat)
    ensures AllOwn(ExchangeSteps(chunks, sourceOpen, credit, targetOpen, dir, i), dir, i)
    decreases |chunks|
  {
    var steps := ExchangeSteps(chunks, sourceOpen, credit, targetOpen, dir, i);
    if sourceOpen && targetOpen && chunks != [] && credit > 0 {
      var more := ExchangeSteps(chunks[1..], sourceOpen, credit - 1, targetOpen, dir, i);
      ExchangeStepsOwn(chunks[1..], sourceOpen, credit - 1, targetOpen, dir, i);
      assert steps == ReceiveSteps(chunks[0], dir, i) + [CallSend(dir, i), Send(dir, i)] + more;
    }
  }

  /** What `ExchangeData` does is a run of the steps of its thread: wherever the bytes of its
      chunks are unread in the flow it reads from, the steps that its calls make are enabled one
      after the other, and they move the flows by what the method receives and sends. */
  lemma ExchangeIsRun(s: Sys, chunks: seq<Bytes>, credit: nat, dir: Direction, i: nat) returns (s': Sys)
    requires Shape(s) && i < |s.open| && View(s, dir, i).pump == Pump(Reading, [])
    requires Joined(chunks) <= Unread(View(s, dir, i).source)
    requires forall k :: 0 <= k < |chunks| ==> 0 < |chunks[k]| <= PACKET_SIZE
    ensures var l := View(s, dir, i);
            && Leads(s, ExchangeSteps(chunks, l.sourceOpen, credit, l.targetOpen, dir, i), s')
            && Shape(s') && |s'.open| == |s.open|
            && View(s', dir, i) == Exchanged(l, chunks, credit)
  {
    hide View, ExchangeSteps, LocalLeads, Leads, Exchanged, Joined, Unread;
    var l := View(s, dir, i);
    ExchangeLeads(l, chunks, credit, dir, i);
    ExchangeStepsOwn(chunks, l.sourceOpen, credit, l.targetOpen, dir, i);
    s' := LeadsIsLocal(s, ExchangeSteps(chunks, l.sourceOpen, credit, l.targetOpen, dir, i), Exchanged(l, chunks, credit), dir, i);
  }
}
