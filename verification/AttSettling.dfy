/** How a wait of AttBearer ends, and when a client whose request was abandoned gets to send again. */
module AttSettling {
  import opened Bytes
  import opened Wrappers
  import opened Profile
  import opened AttBearer
  import opened AttTransactions

  // ---- What ends a wait ----

  /** A goroutine in either wait, in a state that the run could reach without harm from a refusal. */
  ghost predicate InWait(g: Shared, pc: Pc) {
    Flows(g, Some(pc)) && (pc.Resolving? || pc.Awaiting?)
  }

  /** The opcode the wait is for. */
  function Expected(g: Shared, pc: Pc): Byte
    requires pc.Resolving? || pc.Awaiting?
  {
    if pc.Resolving? then g.abandonedRsp else RspOf(pc.op)
  }

  /** What is in rspc during a wait is the answer to the last request, which has the expected opcode or is an
      Error Response, or a PDU of the peer's own, which has neither. */
  lemma SlotDuringWait(g: Shared, pc: Pc)
    requires InWait(g, pc) && g.rspc.Some?
    ensures var p := g.rspc.value;
            && !p.Async? && |g.reqs| > 0 && Expected(g, pc) == RspOf(g.reqs[|g.reqs| - 1])
            && (p.Answer? ==> p.id == |g.reqs| - 1)
            && (p.Answer? <==> p.op == 0x01 || p.op == Expected(g, pc))
  {
    hide OnWire, Outstanding, Attributed;
    ResponsesAreTold(g.reqs[|g.reqs| - 1]);
  }

  /** The rspc arm settles an abandoned request with the PDU that answers it, an Error Response or the
      recorded opcode: the record is cleared and the goroutine goes on to send. Any other PDU is refused,
      and the record stays. */
  lemma SettlingReceive(g: Shared, pc: Pc)
    requires InWait(g, pc) && pc.Resolving? && g.rspc.Some?
    ensures var p := g.rspc.value;
            && !p.Async? && (p.Answer? <==> p.op == 0x01 || p.op == g.abandonedRsp)
            && Received(g, pc)
            == if p.Answer? then (g.(rspc := None, abandonedRsp := 0), Draining(pc.buf, pc.op))
               else (g.(rspc := None), RefusingEarly(pc.buf, pc.op))
  {
    hide Flows;
    SlotDuringWait(g, pc);
  }

  /** It ends the wait for a response with the request's answer, which is handed out; any other PDU is
      refused. */
  lemma AwaitedReceive(g: Shared, pc: Pc)
    requires InWait(g, pc) && pc.Awaiting? && g.rspc.Some?
    ensures var p := g.rspc.value;
            && !p.Async? && (p.Answer? <==> p.op == 0x01 || p.op == RspOf(pc.op))
            && pc.id == |g.reqs| - 1 && (p.Answer? ==> p.id == pc.id)
            && Received(g, pc)
            == if p.Answer?
               then (g.(rspc := None, returned := g.returned + [(pc.id, p)]),
                     if pc.op == 0x02 then Adopting(pc.buf) else Leaving(pc.buf))
               else (g.(rspc := None), Refusing(pc.buf, pc.op, pc.id))
  {
    hide OnWire, Outstanding, Attributed;
    SlotDuringWait(g, pc);
  }

  /** Both, in every reachable state that no refusal has harmed. */
  lemma ReceiveIsExact(mtu: int, schedule: seq<Action>, t: Thread)
    requires DEFAULT_MTU <= mtu <= MAX_MTU
    ensures var s := Run(Initial(mtu), schedule);
            var r := Step(s, Advance(t, Receive));
            !s.g.refusalHarmed && t in s.threads && s.g.rspc.Some? && t in r.threads ==>
              var p, pc := s.g.rspc.value, s.threads[t];
              && (pc.Resolving? ==>
                    && (p.Answer? <==> !p.Async? && (p.op == 0x01 || p.op == s.g.abandonedRsp))
                    && s.g.abandonedRsp != 0 && r.g.rspc == None
                    && if p.Answer? then r.threads[t] == Draining(pc.buf, pc.op) && r.g.abandonedRsp == 0
                       else r.threads[t] == RefusingEarly(pc.buf, pc.op) && r.g == s.g.(rspc := None))
              && (pc.Awaiting? ==>
                    && (p.Answer? <==> !p.Async? && (p.op == 0x01 || p.op == RspOf(pc.op)))
                    && r.g.rspc == None
                    && if p.Answer? then p.id == pc.id && r.g.returned == s.g.returned + [(pc.id, p)]
                       else r.threads[t] == Refusing(pc.buf, pc.op, pc.id) && r.g == s.g.(rspc := None))
  {
    hide Run, Flows, Received;
    InitialIsOrderly(mtu);
    RunsAreOrderly(Initial(mtu), schedule);
    var s := Run(Initial(mtu), schedule);
    if !s.g.refusalHarmed && t in s.threads && s.g.rspc.Some? {
      HolderFlows(s, t);
      if s.threads[t].Resolving? {
        SettlingReceive(s.g, s.threads[t]);
        RecordedWhileResolving(s.g, s.threads[t]);
      } else if s.threads[t].Awaiting? {
        AwaitedReceive(s.g, s.threads[t]);
      }
    }
  }

  lemma HolderFlows(s: State, t: Thread)
    requires Orderly(s) && !s.g.refusalHarmed && t in s.threads
    ensures s == State(None, map[t := s.threads[t]], s.g) && Flows(s.g, Some(s.threads[t]))
  {
    hide Flows;
  }

  lemma RecordedWhileResolving(g: Shared, pc: Pc)
    requires Flows(g, Some(pc)) && pc.Resolving?
    ensures g.abandonedRsp != 0 && !g.bearerClosed
  {
    hide OnWire, Outstanding, Attributed;
  }

  /** What poisons the bearer, and what the record of an abandoned request tells: a wait that times out
      poisons, and so does the error of a dead loop for a request that waits for an abandoned one; a request
      that is cancelled while it waits is recorded by the opcode of its response until its answer is
      taken. No other move does either. */
  lemma ExitsAreExact(g: Shared, pc: Pc, m: Move)
    requires Flows(g, Some(pc))
    ensures var r := Moved(g, pc, m).0;
            && (r.bearerClosed <==>
                || g.bearerClosed
                || (m.Timeout? && (pc.Resolving? || pc.Awaiting?))
                || (m.LoopFailed? && pc.Resolving? && g.chErr))
            && r.abandonedRsp == if m.Cancel? && pc.Awaiting? then pc.op + 1
                                 else if m.Receive? && pc.Resolving? && g.rspc.Some? && g.rspc.value.Answer? then 0
                                 else g.abandonedRsp
  {
    hide OnWire, Outstanding, Attributed, Received, Sent, Flows;
    if m.Receive? {
      ReceiveExits(g, pc);
    } else if m.Send? {
      SendExits(g, pc, m.ok);
    } else if m.Cancel? && pc.Awaiting? {
      AwaitingIsRequest(g, pc);
    }
  }

  /** And every wait can be left: the caller's context, the timer and the loop's error end it. */
  lemma WaitsCanBeLeft(g: Shared, pc: Pc, m: Move)
    requires pc.Resolving? || pc.Awaiting?
    requires m.Cancel? || m.Timeout? || (m.LoopFailed? && g.chErr)
    ensures var (r, to) := Moved(g, pc, m);
            && to == Leaving(pc.buf) && r.reqs == g.reqs && r.returned == g.returned && r.rspc == g.rspc
            && (m.LoopFailed? ==> !r.chErr)
  {
    hide OnWire;
  }

  /** An exchange of MTUs ends with the new length for the connection and for the buffer that is released. */
  lemma NewLengthIsAdopted(g: Shared, buf: int, mtu: int)
    requires 23 <= mtu
    ensures mtu <= 515 && buf == g.txMTU ==>
              Moved(g, Adopting(buf), Adopt(Some(mtu))) == (g.(txMTU := mtu), Leaving(mtu))
    ensures var n := if mtu > 515 then 515 else mtu;
            Moved(g, AnsweringMTU(buf), AnswerMTU(Some(mtu))) == (g.(txMTU := n), Leaving(n))
  {
    hide OnWire;
  }

  lemma ReceiveExits(g: Shared, pc: Pc)
    requires Flows(g, Some(pc))
    ensures var r := Received(g, pc).0;
            && r.bearerClosed == g.bearerClosed
            && r.abandonedRsp == if pc.Resolving? && g.rspc.Some? && g.rspc.value.Answer? then 0 else g.abandonedRsp
  {
    hide Flows;
    if g.rspc.Some? {
      if pc.Resolving? {
        SettlingReceive(g, pc);
      } else if pc.Awaiting? {
        AwaitedReceive(g, pc);
      }
    }
  }

  lemma SendExits(g: Shared, pc: Pc, ok: bool)
    ensures var r := Sent(g, pc, ok).0; r.bearerClosed == g.bearerClosed && r.abandonedRsp == g.abandonedRsp
  {
    hide OnWire;
  }

  lemma AwaitingIsRequest(g: Shared, pc: Pc)
    requires Flows(g, Some(pc)) && pc.Awaiting?
    ensures pc.op in REQUESTS
  {
    hide OnWire, Outstanding, Attributed;
  }

  // ---- How the answer gets there ----

  /** The answer to the last request is in rspc, or is still to come and the loop reads. */
  predicate Answerable(g: Shared) {
    InSlot(g.rspc) != [] || (!g.loopDone && OnWire(g) != [])
  }

  lemma AdvanceStep(t: Thread, pc: Pc, g: Shared, m: Move)
    ensures Step(State(None, map[t := pc], g), Advance(t, m))
         == State(None, map[t := Moved(g, pc, m).1], Moved(g, pc, m).0)
  {
    hide Moved;
    var to := Moved(g, pc, m).1;
    assert map[t := pc][t := to] == map[t := to];
  }

  lemma PeerStep(s: State, a: Action)
    requires a.LoopRead? || a.PeerAnswer?
    ensures Step(s, a) == s.(g := Background(s.g, a))
  {
  }

  lemma RunFirst(s: State, a: Action, rest: seq<Action>)
    ensures Run(s, [a] + rest) == Run(Step(s, a), rest)
  {
    assert ([a] + rest)[1..] == rest;
  }

  /** A wait that refuses the PDU in rspc is back where it was, with rspc empty. */
  lemma OwnPduIsTaken(t: Thread, pc: Pc, g: Shared)
    requires InWait(g, pc) && !g.refusalHarmed && g.rspc.Some? && !g.rspc.value.Answer?
    ensures var s, r := State(None, map[t := pc], g), g.(rspc := None);
            && Step(Step(s, Advance(t, Receive)), Advance(t, Refuse(true))) == State(None, map[t := pc], r)
            && InWait(r, pc) && (Answerable(g) ==> Answerable(r))
  {
    hide Flows, OnWire, Received;
    if pc.Resolving? {
      SettlingReceive(g, pc);
    } else {
      AwaitedReceive(g, pc);
    }
    var r := g.(rspc := None);
    var refusing := Received(g, pc).1;
    MoveFlows(g, pc, Receive);
    MoveFlows(r, refusing, Refuse(true));
    AdvanceStep(t, pc, g, Receive);
    AdvanceStep(t, refusing, r, Refuse(true));
    OnWireIs(g, r);
  }

  /** The loop hands the next PDU on, or to somebody else. */
  lemma NextIsRead(pc: Pc, g: Shared)
    requires InWait(g, pc) && g.rspc == None && !g.loopDone && OnWire(g) != [] && g.inbound != []
    ensures var r := LoopTurn(g);
            && InWait(r, pc) && Answerable(r)
            && r == g.(rspc := r.rspc, inbound := g.inbound[1..])
  {
    hide Flows, OnWire;
    LoopTurnFlows(g, Some(pc));
    FirstInbound(g);
    OnWireIs(g.(inbound := g.inbound[1..]), LoopTurn(g));
  }

  /** With nothing inbound, the peer still owes the answer, and can send it. */
  lemma PeerCanAnswer(pc: Pc, g: Shared)
    requires InWait(g, pc) && g.rspc == None && !g.loopDone && OnWire(g) != [] && g.inbound == []
    ensures |g.reqs| > 0 && g.pending == [|g.reqs| - 1]
    ensures var op := RspOf(g.reqs[|g.reqs| - 1]);
            var r := PeerAnswered(g, 0, op);
            && InWait(r, pc) && Answerable(r) && r == g.(inbound := [Answer(|g.reqs| - 1, op)], pending := [])
  {
    hide Flows, OnWire;
    PendingIsLast(pc, g);
    var op := RspOf(g.reqs[|g.reqs| - 1]);
    PeerAnswerFlows(g, 0, op, Some(pc));
    PeerAnswerStays(g, 0, op);
  }

  lemma PendingIsLast(pc: Pc, g: Shared)
    requires Flows(g, Some(pc)) && g.rspc == None && !g.loopDone && OnWire(g) != [] && g.inbound == []
    ensures |g.reqs| > 0 && g.pending == [|g.reqs| - 1] && OnWire(g) == g.pending
  {
    NoAnswers();
    LastOnWire(g);
    assert OnWire(g) == g.pending && g.pending[0] < |g.reqs|;
  }

  function Distance(g: Shared): nat {
    2 * |g.inbound| + (if g.rspc.Some? then 1 else 0) + if g.pending != [] then 3 else 0
  }

  /** From either wait, while the answer can still come, it gets into rspc: whatever else the peer has sent
      is read and refused first. */
  lemma {:induction false} AnswerReachesSlot(t: Thread, pc: Pc, g: Shared) returns (acts: seq<Action>)
    requires InWait(g, pc) && !g.refusalHarmed && Answerable(g)
    ensures var r := Run(State(None, map[t := pc], g), acts);
            && r == State(None, map[t := pc], r.g) && InWait(r.g, pc)
            && r.g.rspc.Some? && r.g.rspc.value.Answer?
            && r.g == g.(rspc := r.g.rspc, inbound := r.g.inbound, pending := r.g.pending)
    decreases Distance(g)
  {
    hide Flows, OnWire, Run, Step, LoopTurn, PeerAnswered, RspOf, InWait;
    var s := State(None, map[t := pc], g);
    if g.rspc.Some? && g.rspc.value.Answer? {
      assert Run(s, []) == s by { RunNothing(s); }
      acts := [];
    } else if g.rspc.Some? {
      OwnPduIsTaken(t, pc, g);
      var more := AnswerReachesSlot(t, pc, g.(rspc := None));
      RunFirst(s, Advance(t, Receive), [Advance(t, Refuse(true))] + more);
      RunFirst(Step(s, Advance(t, Receive)), Advance(t, Refuse(true)), more);
      acts := [Advance(t, Receive)] + ([Advance(t, Refuse(true))] + more);
    } else if g.inbound != [] {
      NextIsRead(pc, g);
      PeerStep(s, LoopRead);
      var more := AnswerReachesSlot(t, pc, LoopTurn(g));
      RunFirst(s, LoopRead, more);
      acts := [LoopRead] + more;
    } else {
      PeerCanAnswer(pc, g);
      var op := RspOf(g.reqs[|g.reqs| - 1]);
      PeerStep(s, PeerAnswer(0, op));
      var more := AnswerReachesSlot(t, pc, PeerAnswered(g, 0, op));
      RunFirst(s, PeerAnswer(0, op), more);
      acts := [PeerAnswer(0, op)] + more;
    }
  }

  lemma RunNothing(s: State)
    ensures Run(s, []) == s
  {
  }

  // ---- The next request ----

  /** Once the late answer is in, a goroutine that resolves writes its request, and nothing else is on the
      wire. */
  lemma SettledRequestIsSent(t: Thread, pc: Pc, g: Shared)
    requires InWait(g, pc) && pc.Resolving? && !g.refusalHarmed && g.rspc.Some? && g.rspc.value.Answer?
    ensures var r := Written(g.(rspc := None, abandonedRsp := 0), pc.op);
            && Run(State(None, map[t := pc], g), [Advance(t, Receive), Advance(t, Drain), Advance(t, Send(true))])
            == State(None, map[t := Awaiting(pc.buf, pc.op, |g.reqs|)], r)
            && Flows(r, Some(Awaiting(pc.buf, pc.op, |g.reqs|))) && |g.reqs| in OnWire(r)
  {
    hide Flows, OnWire, Run, Step, Received, Written;
    SettlingReceive(g, pc);
    RecordedWhileResolving(g, pc);
    var r := g.(rspc := None, abandonedRsp := 0);
    AdvanceStep(t, pc, g, Receive);
    MoveFlows(g, pc, Receive);
    MoveFlows(r, Draining(pc.buf, pc.op), Drain);
    MoveFlows(r, Sending(pc.buf, pc.op), Send(true));
    RequestIsSent(t, pc.op, pc.buf, r);
    RunFirst(State(None, map[t := pc], g), Advance(t, Receive), [Advance(t, Drain), Advance(t, Send(true))]);
    SentIsMoved(r, pc.buf, pc.op);
    assert [Advance(t, Receive)] + [Advance(t, Drain), Advance(t, Send(true))]
        == [Advance(t, Receive), Advance(t, Drain), Advance(t, Send(true))];
  }

  lemma SentIsMoved(g: Shared, buf: int, op: Byte)
    requires !g.bearerClosed && g.rspc == None
    ensures Moved(g, Sending(buf, op), Send(true)) == (Written(g, op), Awaiting(buf, op, |g.reqs|))
    ensures Written(g, op).refusalHarmed == g.refusalHarmed && OnWire(Written(g, op)) == OnWire(g) + [|g.reqs|]
  {
    hide Answers;
    assert OnWire(Written(g, op)) == OnWire(g) + [|g.reqs|];
  }

  /** The answer to a request that waits is handed out, and the transmit buffer given back. */
  lemma RequestIsAnswered(t: Thread, pc: Pc, g: Shared) returns (acts: seq<Action>)
    requires InWait(g, pc) && pc.Awaiting? && !g.refusalHarmed && Answerable(g)
    ensures var r := Run(State(None, map[t := pc], g), acts);
            && r.slot.Some? && r.threads == map[] && !r.g.refusalHarmed && !r.g.bearerClosed && r.g.abandonedRsp == 0
            && r.g.reqs == g.reqs && |r.g.returned| == |g.returned| + 1
            && r.g.returned[..|g.returned|] == g.returned
            && var (id, p) := r.g.returned[|g.returned|];
               id == pc.id && p.Answer? && p.id == id
  {
    hide Flows, OnWire, Run, Step, RspOf, Received;
    var s := State(None, map[t := pc], g);
    acts := AnswerReachesSlot(t, pc, g);
    var m := Run(s, acts);
    AwaitedReceive(m.g, pc);
    OpenWhileAwaiting(m.g, pc);
    AdvanceStep(t, pc, m.g, Receive);
    var after := Step(m, Advance(t, Receive));
    var back := GivesBack(t, after.threads[t], after.g);
    assert after == State(None, map[t := after.threads[t]], after.g);
    RunFirst(m, Advance(t, Receive), back);
    RunAppend(s, acts, [Advance(t, Receive)] + back);
    acts := acts + ([Advance(t, Receive)] + back);
  }

  lemma OpenWhileAwaiting(g: Shared, pc: Pc)
    requires Flows(g, Some(pc)) && pc.Awaiting?
    ensures !g.bearerClosed && g.abandonedRsp == 0
  {
    hide OnWire, Outstanding, Attributed;
  }

  lemma RequestResolves(t: Thread, op: Byte, buf: int, g: Shared)
    requires Flows(g, None) && op in REQUESTS && !g.refusalHarmed && !g.bearerClosed && g.abandonedRsp != 0
    ensures Run(State(Some(buf), map[], g), [Acquire(t, ForRequest(op)), Advance(t, Check)])
         == State(None, map[t := Resolving(buf, op)], g)
    ensures InWait(g, Resolving(buf, op))
  {
    hide Flows;
    var acts := [Acquire(t, ForRequest(op)), Advance(t, Check)];
    var s0, s1 := State(Some(buf), map[], g), State(None, map[t := Starting(buf, op)], g);
    assert Step(s0, acts[0]) == s1;
    AdvanceStep(t, Starting(buf, op), g, Check);
    RunFollows(acts, [s0, s1, State(None, map[t := Resolving(buf, op)], g)]);
    BeginFlows(g, ForRequest(op), buf);
    MoveFlows(g, Starting(buf, op), Check);
  }

  /** The next request of a client that abandoned one: while the late answer can still come, it is written
      as soon as that has come, and waits. */
  lemma NextRequestWaits(t: Thread, op: Byte, buf: int, g: Shared) returns (acts: seq<Action>)
    requires Flows(g, None) && op in REQUESTS && !g.refusalHarmed && !g.bearerClosed && g.abandonedRsp != 0
    requires Answerable(g)
    ensures var r, pc := Run(State(Some(buf), map[], g), acts), Awaiting(buf, op, |g.reqs|);
            && r == State(None, map[t := pc], r.g) && InWait(r.g, pc) && |g.reqs| in OnWire(r.g)
            && r.g.reqs == g.reqs + [op] && r.g.returned == g.returned && r.g.loopDone == g.loopDone
            && !r.g.refusalHarmed
  {
    hide Flows, OnWire, Run, Step, RspOf, Received, Answerable;
    var s, pc := State(Some(buf), map[], g), Resolving(buf, op);
    var start, send := [Acquire(t, ForRequest(op)), Advance(t, Check)],
                       [Advance(t, Receive), Advance(t, Drain), Advance(t, Send(true))];
    RequestResolves(t, op, buf, g);
    var m := State(None, map[t := pc], g);
    var wait := AnswerReachesSlot(t, pc, g);
    var n := Run(m, wait);
    SettledRequestIsSent(t, pc, n.g);
    RunAppend(m, wait, send);
    RunAppend(s, start, wait + send);
    acts := start + (wait + send);
  }

  /** Without an abandoned request it is written at once. */
  lemma UnhinderedRequestWaits(t: Thread, op: Byte, s: State)
    requires Orderly(s) && op in REQUESTS && s.slot.Some? && !s.g.refusalHarmed
    requires !s.g.bearerClosed && s.g.abandonedRsp == 0
    ensures var acts := [Acquire(t, ForRequest(op)), Advance(t, Check), Advance(t, Drain), Advance(t, Send(true))];
            var r, pc := Run(s, acts), Awaiting(s.slot.value, op, |s.g.reqs|);
            && r == State(None, map[t := pc], r.g) && InWait(r.g, pc) && |s.g.reqs| in OnWire(r.g)
            && r.g.reqs == s.g.reqs + [op] && r.g.returned == s.g.returned && r.g.loopDone == s.g.loopDone
            && !r.g.refusalHarmed
  {
    hide Flows, OnWire, Run, Step;
    var acts := [Acquire(t, ForRequest(op)), Advance(t, Check), Advance(t, Drain), Advance(t, Send(true))];
    assert s == State(s.slot, map[], s.g);
    NextRequestIsSent(t, op, s.slot.value, s.g);
    RunsAreOrderly(s, acts);
    HolderFlows(Run(s, acts), t);
    OnWireGrows(s.g, op);
  }

  lemma OnWireGrows(g: Shared, op: Byte)
    ensures |g.reqs| in OnWire(Written(g, op))
  {
    hide Answers;
    var r := Written(g, op);
    assert r.pending[|g.pending|] == |g.reqs|;
  }

  /** From every reachable state that no refusal has harmed, with the slot free, the loop reading, the
      bearer open, and no request abandoned but one whose answer is outstanding: in some continuation,
      without harm or poison, the next request is written and gets its own answer, and the slot is free
      again. */
  lemma NextRequestIsServed(mtu: int, schedule: seq<Action>, t: Thread, op: Byte) returns (more: seq<Action>)
    requires DEFAULT_MTU <= mtu <= MAX_MTU && op in REQUESTS
    requires var s := Run(Initial(mtu), schedule);
             && !s.g.refusalHarmed && s.slot.Some? && !s.g.loopDone && !s.g.bearerClosed
             && (s.g.abandonedRsp != 0 ==> Outstanding(s.g) != [])
    ensures var s := Run(Initial(mtu), schedule);
            var r := Run(s, more);
            && !r.g.refusalHarmed && !r.g.bearerClosed && r.g.abandonedRsp == 0 && r.slot.Some?
            && r.g.reqs == s.g.reqs + [op]
            && |r.g.returned| == |s.g.returned| + 1 && r.g.returned[..|s.g.returned|] == s.g.returned
            && var (id, p) := r.g.returned[|s.g.returned|];
               id == |s.g.reqs| && p.Answer? && p.id == id
  {
    hide Flows, OnWire, Run, Step, RspOf;
    InitialIsOrderly(mtu);
    RunsAreOrderly(Initial(mtu), schedule);
    var s := Run(Initial(mtu), schedule);
    assert s == State(s.slot, map[], s.g) && Flows(s.g, None);
    if s.g.abandonedRsp != 0 {
      more := NextRequestWaits(t, op, s.slot.value, s.g);
    } else {
      UnhinderedRequestWaits(t, op, s);
      more := [Acquire(t, ForRequest(op)), Advance(t, Check), Advance(t, Drain), Advance(t, Send(true))];
    }
    var m := Run(s, more);
    var rest := RequestIsAnswered(t, m.threads[t], m.g);
    RunAppend(s, more, rest);
    more := more + rest;
  }

  // ---- When it never gets to send ----

  /** An abandoned request whose answer is lost to the client, or a poisoned bearer, with no goroutine past
      the two tests. */
  ghost predicate Stuck(s: State) {
    && s.g.abandonedRsp != 0 && !s.g.refusalHarmed
    && (s.g.bearerClosed || !Answerable(s.g))
    && forall t :: t in s.threads ==> !IsPastTests(s.threads[t])
  }

  predicate IsPastTests(pc: Pc) {
    pc.Draining? || pc.Sending? || pc.Awaiting? || pc.Refusing?
  }

  /** Going on like this keeps a state stuck. */
  ghost predicate StaysStuck(g: Shared, r: Shared, to: Pc) {
    && !IsPastTests(to) && r.abandonedRsp != 0 && !r.refusalHarmed && r.reqs == g.reqs
    && (r.bearerClosed || !Answerable(r))
  }

  lemma StuckReceive(g: Shared, pc: Pc)
    requires Flows(g, Some(pc)) && !IsPastTests(pc) && g.abandonedRsp != 0 && !g.refusalHarmed
    requires g.bearerClosed || !Answerable(g)
    ensures var (r, to) := Received(g, pc); StaysStuck(g, r, to)
  {
    hide Flows, OnWire;
    if pc.Resolving? && g.rspc.Some? {
      hide Received;
      RecordedWhileResolving(g, pc);
      SettlingReceive(g, pc);
      StillUnanswerable(g, g.(rspc := None));
    }
  }

  lemma StuckMove(g: Shared, pc: Pc, m: Move)
    requires Flows(g, Some(pc)) && !IsPastTests(pc) && g.abandonedRsp != 0 && !g.refusalHarmed
    requires g.bearerClosed || !Answerable(g)
    ensures var (r, to) := Moved(g, pc, m); StaysStuck(g, r, to)
  {
    hide OnWire, Answerable, Received, RspOf;
    if m.Receive? {
      StuckReceive(g, pc);
    } else {
      StillUnanswerable(g, Moved(g, pc, m).0);
    }
  }

  lemma StillUnanswerable(g: Shared, r: Shared)
    requires r.inbound == g.inbound && r.pending == g.pending && r.loopDone == g.loopDone
    requires r.rspc == g.rspc || r.rspc == None
    ensures !Answerable(g) ==> !Answerable(r)
  {
    hide Answers;
  }

  lemma StuckRead(g: Shared)
    ensures !Answerable(g) ==> !Answerable(LoopTurn(g))
  {
    hide OnWire;
    if !g.loopDone && g.inbound != [] {
      FirstInbound(g);
      OnWireIs(g.(inbound := g.inbound[1..]), LoopTurn(g));
    }
  }

  lemma StuckPeer(g: Shared, k: nat, op: Byte)
    ensures var r := PeerAnswered(g, k, op);
            && r.rspc == g.rspc && r.loopDone == g.loopDone && (OnWire(g) == [] ==> OnWire(r) == [])
  {
    hide Answers, RspOf;
  }

  lemma StuckBackground(g: Shared, a: Action)
    ensures !Answerable(g) ==> !Answerable(Background(g, a))
  {
    hide OnWire, LoopTurn, PeerAnswered;
    match a {
      case LoopRead => StuckRead(g);
      case PeerAnswer(k, op) => StuckPeer(g, k, op);
      case PeerSend(p) =>
        if !p.Answer? {
          AnswersSnoc(g.inbound, p);
          SameAnswers(g, g.(inbound := g.inbound + [p]));
        }
      case _ => OnWireIs(g, Background(g, a));
    }
  }

  predicate SameRecord(g: Shared, r: Shared) {
    && r.abandonedRsp == g.abandonedRsp && r.refusalHarmed == g.refusalHarmed && r.reqs == g.reqs
    && r.bearerClosed == g.bearerClosed
  }

  lemma LoopKeepsRecord(g: Shared)
    ensures SameRecord(g, LoopTurn(g))
  {
  }

  lemma PeerKeepsRecord(g: Shared, k: nat, op: Byte)
    ensures SameRecord(g, PeerAnswered(g, k, op))
  {
    hide RspOf;
  }

  lemma BackgroundKeepsRecord(g: Shared, a: Action)
    ensures SameRecord(g, Background(g, a))
  {
    hide LoopTurn, PeerAnswered, Plausible;
    LoopKeepsRecord(g);
    if a.PeerAnswer? {
      PeerKeepsRecord(g, a.k, a.op);
    }
  }

  lemma StuckStep(s: State, a: Action)
    requires Orderly(s) && Stuck(s)
    ensures Stuck(Step(s, a)) && Step(s, a).g.reqs == s.g.reqs
  {
    hide Moved, Background, Answerable, Flows;
    match a {
      case Acquire(t, p) =>
      case Advance(t, m) =>
        if t in s.threads {
          HolderFlows(s, t);
          StuckMove(s.g, s.threads[t], m);
        }
      case Release(t) =>
      case _ =>
        StuckBackground(s.g, a);
        BackgroundKeepsRecord(s.g, a);
    }
  }

  lemma {:induction false} StuckForever(s: State, more: seq<Action>)
    requires Orderly(s) && Stuck(s)
    ensures Run(s, more).g.reqs == s.g.reqs
    decreases |more|
  {
    hide Stuck, Orderly, Step;
    if more != [] {
      StepIsOrderly(s, more[0]);
      StuckStep(s, more[0]);
      StuckForever(Step(s, more[0]), more[1..]);
    }
  }

  /** Exactly when a client that abandoned a request gets to write another: from every reachable state that
      no refusal has harmed, with the slot free, some continuation writes a request if and only if the
      bearer is open and the late answer is in rspc, or still outstanding while the loop reads. */
  lemma NextRequestIsExact(mtu: int, schedule: seq<Action>)
    requires DEFAULT_MTU <= mtu <= MAX_MTU
    requires var s := Run(Initial(mtu), schedule);
             !s.g.refusalHarmed && s.slot.Some? && s.g.abandonedRsp != 0
    ensures var s := Run(Initial(mtu), schedule);
            (exists more :: |Run(s, more).g.reqs| > |s.g.reqs|)
            <==> !s.g.bearerClosed
                 && (InSlot(s.g.rspc) != [] || (!s.g.loopDone && OnWire(s.g) != []))
  {
    hide Flows, OnWire, Run, Step, RspOf;
    InitialIsOrderly(mtu);
    RunsAreOrderly(Initial(mtu), schedule);
    var s := Run(Initial(mtu), schedule);
    assert s == State(s.slot, map[], s.g) && Flows(s.g, None);
    if !s.g.bearerClosed && Answerable(s.g) {
      var more := NextRequestWaits(0, 0x0A, s.slot.value, s.g);
      assert |Run(s, more).g.reqs| > |s.g.reqs|;
    } else {
      forall more ensures |Run(s, more).g.reqs| == |s.g.reqs| {
        StuckForever(s, more);
      }
    }
  }

  const LOST: seq<Action> :=
    [PeerSend(Own(0x52)), LoopRead, Advance(0, Cancel), Release(0), PeerAnswer(0, 0x0B), LoopRead]

  /** A run in which the late answer is lost: a PDU of the peer's own is in rspc when the loop reads it, so
      that the loop drops it. The bearer is open and the slot free, and no request is ever written again. */
  lemma LateAnswerIsLost(more: seq<Action>)
    ensures var acts := [Acquire(0, ForRequest(0x0A)), Advance(0, Check), Advance(0, Drain), Advance(0, Send(true))];
            var s := Run(Initial(23), acts + LOST);
            && !s.g.bearerClosed && !s.g.loopDone && s.slot.Some? && s.g.abandonedRsp == 0x0B
            && s.g.reqs == [0x0A] && Run(s, more).g.reqs == [0x0A]
  {
    hide Run, Step, Stuck, Orderly;
    var acts := [Acquire(0, ForRequest(0x0A)), Advance(0, Check), Advance(0, Drain), Advance(0, Send(true))];
    NextRequestIsSent(0, 0x0A, 23, Initial(23).g);
    var g := Written(Initial(23).g, 0x0A);
    var lost := g.(rspc := Some(Own(0x52)), pending := [], abandonedRsp := 0x0B);
    AnswerIsDropped(g, lost);
    RunAppend(Initial(23), acts, LOST);
    var s := State(Some(23), map[], lost);
    assert Run(Initial(23), acts + LOST) == s;
    InitialIsOrderly(23);
    RunsAreOrderly(Initial(23), acts + LOST);
    assert Stuck(s) by { NothingIsAnswerable(s); }
    StuckForever(s, more);
  }

  lemma NothingIsAnswerable(s: State)
    requires s.threads == map[] && s.g.rspc == Some(Own(0x52)) && s.g.inbound == [] && s.g.pending == []
    requires s.g.abandonedRsp != 0 && !s.g.refusalHarmed
    ensures Stuck(s)
  {
    NoAnswers();
  }

  lemma AnswerIsDropped(g: Shared, lost: Shared)
    requires g == Written(Initial(23).g, 0x0A)
    requires lost == g.(rspc := Some(Own(0x52)), pending := [], abandonedRsp := 0x0B)
    ensures Run(State(None, map[0 := Awaiting(23, 0x0A, 0)], g), LOST) == State(Some(23), map[], lost)
  {
    hide Run, Step;
    var s := State(None, map[0 := Awaiting(23, 0x0A, 0)], g);
    var first, last := [PeerSend(Own(0x52)), LoopRead, Advance(0, Cancel), Release(0)], [PeerAnswer(0, 0x0B), LoopRead];
    GivesUpOverOwn(g, 0);
    AnswerComesLate(g.(rspc := Some(Own(0x52)), abandonedRsp := 0x0B));
    RunAppend(s, first, last);
    assert first + last == LOST;
  }

  /** A wait that is given up while a PDU of the peer's own is in rspc. */
  lemma GivesUpOverOwn(g: Shared, id: nat)
    requires g.rspc == None && g.inbound == [] && !g.loopDone
    ensures Run(State(None, map[0 := Awaiting(23, 0x0A, id)], g),
                [PeerSend(Own(0x52)), LoopRead, Advance(0, Cancel), Release(0)])
         == State(Some(23), map[], g.(rspc := Some(Own(0x52)), abandonedRsp := 0x0B))
  {
    hide Run, Step;
    var acts := [PeerSend(Own(0x52)), LoopRead, Advance(0, Cancel), Release(0)];
    var pc, g2 := Awaiting(23, 0x0A, id), g.(rspc := Some(Own(0x52)));
    var g3 := g2.(abandonedRsp := 0x0B);
    var s0, s2 := State(None, map[0 := pc], g), State(None, map[0 := pc], g2);
    var s3 := State(None, map[0 := Leaving(23)], g3);
    OwnIsRead(s0);
    AdvanceStep(0, pc, g2, Cancel);
    GivenBack(s3);
    RunFollows(acts, [s0, Step(s0, acts[0]), s2, s3, State(Some(23), map[], g3)]);
  }

  lemma OwnIsRead(s: State)
    requires s.g.rspc == None && s.g.inbound == [] && !s.g.loopDone
    ensures Step(Step(s, PeerSend(Own(0x52))), LoopRead) == s.(g := s.g.(rspc := Some(Own(0x52))))
  {
  }

  lemma GivenBack(s: State)
    requires s.slot == None && s.threads == map[0 := Leaving(23)]
    ensures Step(s, Release(0)) == State(Some(23), map[], s.g)
  {
    assert s.threads - {0} == map[];
  }

  lemma AnswerComesLate(g: Shared)
    requires g.rspc.Some? && g.inbound == [] && g.pending == [0] && g.reqs == [0x0A] && !g.loopDone
    ensures Run(State(Some(23), map[], g), [PeerAnswer(0, 0x0B), LoopRead])
         == State(Some(23), map[], g.(pending := []))
  {
    hide Run, OnWire;
    var acts := [PeerAnswer(0, 0x0B), LoopRead];
    var s, r := State(Some(23), map[], g), g.(inbound := [Answer(0, 0x0B)], pending := []);
    PeerStep(s, acts[0]);
    PeerStep(s.(g := r), acts[1]);
    RunFollows(acts, [s, s.(g := r), s.(g := g.(pending := []))]);
  }
}
