/** Which response an ATT client's request gets, and how many requests are on the wire: what every
    schedule of AttBearer keeps, and exactly when it does not. */
module AttTransactions {
  import opened Bytes
  import opened Wrappers
  import opened AttPdu
  import opened Profile
  import opened AttBearer

  lemma AnswersCons(p: Pdu, rest: seq<Pdu>)
    ensures Answers([p] + rest) == (if p.Answer? then [p.id] else []) + Answers(rest)
  {
    assert ([p] + rest)[1..] == rest;
  }

  lemma NoAnswers()
    ensures Answers([]) == []
  {
  }

  lemma {:induction false} AnswersSnoc(ps: seq<Pdu>, p: Pdu)
    ensures Answers(ps + [p]) == Answers(ps) + if p.Answer? then [p.id] else []
  {
    hide Answers;
    NoAnswers();
    if ps == [] {
      AnswersCons(p, []);
      assert ps + [p] == [p] + [];
    } else {
      var rest := ps[1..];
      AnswersSnoc(rest, p);
      AnswersCons(ps[0], rest);
      AnswersCons(ps[0], rest + [p]);
      assert ps == [ps[0]] + rest && ps + [p] == [ps[0]] + (rest + [p]);
    }
  }

  function InSlot(r: Option<Pdu>): seq<nat> {
    if r.Some? && r.value.Answer? then [r.value.id] else []
  }

  /** The requests whose answers may still reach a waiting request, in the order they would: an answer
      nobody has claimed, then those the loop has not read. */
  function Outstanding(g: Shared): seq<nat> {
    InSlot(g.rspc) + OnWire(g)
  }

  /** Nothing is outstanding but, maybe, the last request. */
  ghost predicate AtMostLast(g: Shared) {
    Outstanding(g) == [] || Outstanding(g) == [|g.reqs| - 1]
  }

  /** A PDU of a peer that follows the protocol: an answer answers a request that was written. */
  predicate Legitimate(reqs: seq<Byte>, p: Pdu) {
    && Plausible(p)
    && (p.Answer? ==> p.id < |reqs| && (p.op == ERROR_RESPONSE || p.op == RspOf(reqs[p.id])))
  }

  ghost predicate Wire(g: Shared) {
    && (forall i :: 0 <= i < |g.reqs| ==> g.reqs[i] in REQUESTS)
    && (forall i :: 0 <= i < |g.pending| ==> g.pending[i] < |g.reqs|)
    && (forall i :: 0 <= i < |g.inbound| ==> Legitimate(g.reqs, g.inbound[i]))
    && (g.rspc.Some? ==> !g.rspc.value.Async? && Legitimate(g.reqs, g.rspc.value))
  }

  /** While the loop reads, at most the last request is outstanding; an unclaimed answer is its answer. */
  ghost predicate Sequential(g: Shared) {
    && (!g.loopDone ==> AtMostLast(g))
    && (InSlot(g.rspc) == [] || InSlot(g.rspc) == [|g.reqs| - 1])
    && (g.chErr ==> g.loopDone)
  }

  predicate Waits(pc: Option<Pc>) {
    pc.Some? && (pc.value.Awaiting? || pc.value.Refusing?)
  }

  /** A request on the wire has an owner: the goroutine that waits for it or the abandoned record, unless
      the bearer is poisoned. */
  ghost predicate Owned(g: Shared, pc: Option<Pc>) {
    !g.bearerClosed && OnWire(g) != [] ==> g.abandonedRsp != 0 || Waits(pc)
  }

  ghost predicate Recorded(g: Shared) {
    g.abandonedRsp != 0 ==> |g.reqs| > 0 && g.abandonedRsp == RspOf(g.reqs[|g.reqs| - 1])
  }

  /** What each place in the code may rely on. */
  ghost predicate Placed(g: Shared, pc: Pc) {
    match pc
    case Starting(_, op) => op in REQUESTS
    case Resolving(_, op) => op in REQUESTS && !g.bearerClosed && g.abandonedRsp != 0
    case RefusingEarly(_, op) => op in REQUESTS && !g.bearerClosed && g.abandonedRsp != 0
    case Draining(_, op) => op in REQUESTS && !g.bearerClosed && g.abandonedRsp == 0
    case Sending(_, op) => op in REQUESTS && !g.bearerClosed && g.abandonedRsp == 0 && InSlot(g.rspc) == []
    case Awaiting(_, op, id) => !g.bearerClosed && g.abandonedRsp == 0 && id == |g.reqs| - 1 && op == g.reqs[id]
    case Refusing(_, op, id) => !g.bearerClosed && g.abandonedRsp == 0 && id == |g.reqs| - 1 && op == g.reqs[id]
    case CommandSending(_) => !g.bearerClosed
    case _ => true
  }

  /** Every response handed out is the peer's answer to that very request. */
  ghost predicate Attributed(g: Shared) {
    forall i :: 0 <= i < |g.returned| ==>
      g.returned[i].1.Answer? && g.returned[i].1.id == g.returned[i].0 && Legitimate(g.reqs, g.returned[i].1)
  }

  /** What holds, whether the loop reads or not, as long as no failed refusal has done harm. */
  ghost predicate Sound(g: Shared, pc: Option<Pc>) {
    && Wire(g) && Sequential(g) && Recorded(g) && (!g.loopDone ==> Owned(g, pc))
    && (pc.Some? ==> Placed(g, pc.value)) && Attributed(g)
  }

  /** What holds in addition as long as no wait was left stranded by a dead loop. */
  ghost predicate Single(g: Shared, pc: Option<Pc>) {
    AtMostLast(g) && Owned(g, pc) && !g.overwrote
  }

  /** What holds after a wait was left stranded, until the next request is written. */
  ghost predicate Adrift(g: Shared, pc: Option<Pc>) {
    && g.loopDone && !g.bearerClosed && g.abandonedRsp == 0 && OnWire(g) == [|g.reqs| - 1]
    && !Waits(pc) && (pc.Some? ==> !pc.value.Resolving? && !pc.value.RefusingEarly?)
  }

  ghost predicate Tidy(g: Shared, pc: Option<Pc>) {
    if g.stranded then g.overwrote || Adrift(g, pc) else Single(g, pc)
  }

  ghost predicate Flows(g: Shared, pc: Option<Pc>) {
    Sound(g, pc) && Tidy(g, pc)
  }

  // ---- The moves of the goroutine that holds the buffer ----

  /** Taking the unclaimed answer from rspc leaves what is on the wire: nothing, if there was an answer. */
  lemma EmptiedSlot(g: Shared)
    ensures var r := g.(rspc := None);
            && InSlot(r.rspc) == [] && OnWire(r) == OnWire(g) && Outstanding(r) == OnWire(g)
            && (AtMostLast(g) ==> AtMostLast(r) && (InSlot(g.rspc) != [] ==> OnWire(g) == []))
  {
    hide Answers;
    var r := g.(rspc := None);
    assert Outstanding(r) == OnWire(r);
    assert |Outstanding(g)| == |InSlot(g.rspc)| + |OnWire(g)|;
    if InSlot(g.rspc) == [] {
      assert Outstanding(g) == OnWire(g);
    }
  }

  /** What is on the wire depends on the inbound PDUs and the pending requests. */
  lemma OnWireIs(g: Shared, r: Shared)
    requires r.inbound == g.inbound && r.pending == g.pending
    ensures OnWire(r) == OnWire(g) && (r.rspc == g.rspc ==> Outstanding(r) == Outstanding(g))
  {
  }

  lemma ReceiveFlows(g: Shared, pc: Pc)
    requires Flows(g, Some(pc))
    ensures var (r, to) := Received(g, pc); Flows(r, Some(to))
  {
    hide Flows;
    if pc.Resolving? {
      ResolvingFlows(g, pc);
    } else if pc.Awaiting? {
      AwaitingFlows(g, pc);
    }
  }

  lemma ResolvingFlows(g: Shared, pc: Pc)
    requires Flows(g, Some(pc)) && pc.Resolving?
    ensures var (r, to) := Received(g, pc); Flows(r, Some(to))
  {
    hide OnWire, Outstanding;
    var r := Received(g, pc).0;
    EmptiedSlot(g);
    OnWireIs(g, r);
    OnWireIs(g.(rspc := None), r);
  }

  lemma AwaitingFlows(g: Shared, pc: Pc)
    requires Flows(g, Some(pc)) && pc.Awaiting?
    ensures var (r, to) := Received(g, pc); Flows(r, Some(to))
  {
    hide OnWire, Outstanding;
    var r := Received(g, pc).0;
    EmptiedSlot(g);
    OnWireIs(g, r);
    OnWireIs(g.(rspc := None), r);
  }

  lemma SentIs(g: Shared, pc: Pc, ok: bool)
    requires pc.Sending? && ok
    ensures var r := Sent(g, pc, ok).0;
            OnWire(r) == OnWire(g) + [|g.reqs|] && Outstanding(r) == Outstanding(g) + [|g.reqs|]
  {
    hide Answers;
    var r := Sent(g, pc, ok).0;
    assert OnWire(r) == OnWire(g) + [|g.reqs|];
    assert InSlot(g.rspc) + (OnWire(g) + [|g.reqs|]) == Outstanding(g) + [|g.reqs|];
  }

  lemma OutstandingIs(g: Shared)
    ensures InSlot(g.rspc) == [] ==> Outstanding(g) == OnWire(g)
    ensures Outstanding(g) == [] ==> InSlot(g.rspc) == [] && OnWire(g) == []
  {
    hide Answers;
    assert |Outstanding(g)| == |InSlot(g.rspc)| + |OnWire(g)|;
  }

  lemma SendFlows(g: Shared, pc: Pc, ok: bool)
    requires Flows(g, Some(pc))
    ensures var (r, to) := Sent(g, pc, ok); Flows(r, Some(to))
  {
    hide OnWire, Outstanding, Wire, Attributed;
    OutstandingIs(g);
    SendKeepsWire(g, pc, ok);
    if pc.Sending? && ok {
      SentIs(g, pc, ok);
    } else {
      OnWireIs(g, Sent(g, pc, ok).0);
    }
  }

  lemma SendKeepsWire(g: Shared, pc: Pc, ok: bool)
    requires Wire(g) && Attributed(g) && Placed(g, pc)
    ensures Wire(Sent(g, pc, ok).0) && Attributed(Sent(g, pc, ok).0)
  {
    hide RspOf, OnWire;
  }

  lemma DrainFlows(g: Shared, pc: Pc)
    requires Flows(g, Some(pc)) && pc.Draining?
    ensures Flows(g.(rspc := None), Some(Sending(pc.buf, pc.op)))
  {
    hide OnWire, Outstanding;
    EmptiedSlot(g);
  }

  lemma CheckFlows(g: Shared, pc: Pc)
    requires Flows(g, Some(pc))
    ensures Flows(g, Some(Checked(g, pc)))
  {
    hide OnWire, Outstanding;
  }

  /** A failed refusal write does no harm when the loop is dead or nothing is on the wire. */
  lemma RefuseFlows(g: Shared, pc: Pc, ok: bool)
    requires Flows(g, Some(pc))
    ensures var (r, to) := RefusalWritten(g, pc, ok); r.refusalHarmed || Flows(r, Some(to))
  {
    hide OnWire, Outstanding;
    OnWireIs(g, RefusalWritten(g, pc, ok).0);
    OutstandingIs(g);
    if AtMostLast(g) {
      LastOnWire(g);
    }
  }

  /** When at most the last request is outstanding and something is on the wire, it is that request. */
  lemma LastOnWire(g: Shared)
    requires AtMostLast(g)
    ensures OnWire(g) == [] || (OnWire(g) == [|g.reqs| - 1] && InSlot(g.rspc) == [])
  {
    hide Answers;
    assert |Outstanding(g)| == |InSlot(g.rspc)| + |OnWire(g)|;
    if OnWire(g) != [] {
      assert Outstanding(g) == OnWire(g);
    }
  }

  /** What was asked, answered and handed out does not change with the MTU. */
  lemma SameTransactions(g: Shared, r: Shared)
    requires r == g.(txMTU := r.txMTU)
    ensures (Wire(g) ==> Wire(r)) && (Attributed(g) ==> Attributed(r)) && (Recorded(g) ==> Recorded(r))
  {
  }

  lemma AdoptFlows(g: Shared, pc: Pc, mtu: Option<int>)
    requires Flows(g, Some(pc))
    ensures var (r, to) := Adopted(g, pc, mtu); Flows(r, Some(to))
  {
    hide OnWire, Outstanding, Legitimate, RspOf, Wire, Attributed, Recorded;
    var r := Adopted(g, pc, mtu).0;
    OnWireIs(g, r);
    SameTransactions(g, r);
  }

  lemma AnswerFlows(g: Shared, pc: Pc, mtu: Option<int>)
    requires Flows(g, Some(pc))
    ensures var (r, to) := MTUAnswered(g, pc, mtu); Flows(r, Some(to))
  {
    hide OnWire, Outstanding, Legitimate, RspOf, Wire, Attributed, Recorded;
    var r := MTUAnswered(g, pc, mtu).0;
    OnWireIs(g, r);
    SameTransactions(g, r);
  }

  // The arms that end a wait without a response leave its transaction owned, the bearer poisoned, or the
  // loop dead; in the last case the request may be left stranded.

  lemma LoopFailedFlows(g: Shared, pc: Pc)
    requires Flows(g, Some(pc))
    ensures var (r, to) := LoopFailedArm(g, pc); Flows(r, Some(to))
  {
    hide OnWire, Outstanding;
    OnWireIs(g, LoopFailedArm(g, pc).0);
    if AtMostLast(g) {
      LastOnWire(g);
    }
  }

  lemma CancelFlows(g: Shared, pc: Pc)
    requires Flows(g, Some(pc))
    ensures var (r, to) := Cancelled(g, pc); Flows(r, Some(to))
  {
    hide OnWire, Outstanding;
    OnWireIs(g, Cancelled(g, pc).0);
    if pc.Awaiting? {
      ResponsesAreTold(pc.op);
    }
  }

  lemma TimeoutFlows(g: Shared, pc: Pc)
    requires Flows(g, Some(pc))
    ensures var (r, to) := TimedOut(g, pc); Flows(r, Some(to))
  {
    hide OnWire, Outstanding;
    OnWireIs(g, TimedOut(g, pc).0);
  }

  /** Every move keeps the invariant, up to a failed refusal that does harm. */
  lemma MoveFlows(g: Shared, pc: Pc, m: Move)
    requires Flows(g, Some(pc))
    ensures var (r, to) := Moved(g, pc, m); r.refusalHarmed || Flows(r, Some(to))
  {
    hide Flows, Received, Sent, RefusalWritten, Checked, LoopFailedArm, Cancelled, TimedOut, Adopted, MTUAnswered;
    match m {
      case Receive => ReceiveFlows(g, pc);
      case Send(ok) => SendFlows(g, pc, ok);
      case Drain =>
        if pc.Draining? {
          DrainFlows(g, pc);
        }
      case Check => CheckFlows(g, pc);
      case Refuse(ok) => RefuseFlows(g, pc, ok);
      case Adopt(mtu) => AdoptFlows(g, pc, mtu);
      case AnswerMTU(mtu) => AnswerFlows(g, pc, mtu);
      case LoopFailed => LoopFailedFlows(g, pc);
      case Cancel => CancelFlows(g, pc);
      case Timeout => TimeoutFlows(g, pc);
    }
  }

  // ---- The loop and the peer ----

  /** A list of at most one element, in three parts. */
  lemma OneOfThree(xs: seq<nat>, ys: seq<nat>, zs: seq<nat>, x: nat)
    requires xs + (ys + zs) == [] || xs + (ys + zs) == [x]
    ensures ys != [] ==> xs == [] && ys == [x] && zs == []
    ensures xs != [] ==> xs == [x] && ys == [] && zs == []
  {
    assert |xs| + |ys| + |zs| <= 1;
    if ys != [] {
      assert (xs + (ys + zs))[0] == ys[0];
    }
    if xs != [] {
      assert (xs + (ys + zs))[0] == xs[0];
    }
  }

  /** The wire with its next inbound PDU apart. */
  lemma FirstInbound(g: Shared)
    requires g.inbound != []
    ensures OnWire(g) == (if g.inbound[0].Answer? then [g.inbound[0].id] else [])
                      + OnWire(g.(inbound := g.inbound[1..]))
  {
    hide Answers;
    AnswersCons(g.inbound[0], g.inbound[1..]);
    assert g.inbound == [g.inbound[0]] + g.inbound[1..];
  }

  /** The loop moves an answer on, or drops it. */
  lemma LoopTurnMoves(g: Shared)
    requires AtMostLast(g) && !g.loopDone && g.inbound != []
    ensures var r := LoopTurn(g);
            && (Outstanding(r) == Outstanding(g) || Outstanding(r) == [])
            && (OnWire(g) == [] ==> OnWire(r) == [])
            && (InSlot(r.rspc) == InSlot(g.rspc) || (OnWire(g) != [] && InSlot(r.rspc) == [|g.reqs| - 1]))
  {
    hide OnWire;
    var r, left := LoopTurn(g), g.(inbound := g.inbound[1..]);
    var mine := if g.inbound[0].Answer? then [g.inbound[0].id] else [];
    FirstInbound(g);
    OnWireIs(left, r);
    OneOfThree(InSlot(g.rspc), mine, OnWire(left), if Outstanding(g) == [] then 0 else Outstanding(g)[0]);
  }

  lemma LoopTurnKeepsWire(g: Shared)
    requires Wire(g) && !g.loopDone && g.inbound != []
    ensures Wire(LoopTurn(g))
  {
    hide Legitimate;
    var r := LoopTurn(g);
    forall i | 0 <= i < |r.inbound| ensures Legitimate(g.reqs, r.inbound[i]) {
      assert r.inbound[i] == g.inbound[i + 1];
    }
    assert Legitimate(g.reqs, g.inbound[0]);
  }

  lemma LoopTurnSounds(g: Shared, pc: Option<Pc>)
    requires Sound(g, pc) && !g.loopDone && g.inbound != []
    ensures Sound(LoopTurn(g), pc)
  {
    hide OnWire, Outstanding, InSlot, Wire, Attributed, Recorded, Placed;
    LoopTurnKeepsWire(g);
    LoopTurnMoves(g);
    LoopTurnKeepsRecords(g);
    if pc.Some? {
      LoopTurnPlaces(g, pc.value);
    }
  }

  lemma LoopTurnKeepsRecords(g: Shared)
    ensures (Attributed(g) ==> Attributed(LoopTurn(g))) && (Recorded(g) ==> Recorded(LoopTurn(g)))
  {
    hide Legitimate, RspOf;
  }

  /** A goroutine about to send has nothing on the wire, and so nothing gets into rspc. */
  lemma LoopTurnPlaces(g: Shared, pc: Pc)
    requires AtMostLast(g) && Owned(g, Some(pc)) && Placed(g, pc) && !g.loopDone && g.inbound != []
    ensures Placed(LoopTurn(g), pc)
  {
    hide OnWire, Outstanding, InSlot;
    LoopTurnMoves(g);
  }

  lemma LoopTurnFlows(g: Shared, pc: Option<Pc>)
    requires Flows(g, pc)
    ensures Flows(LoopTurn(g), pc)
  {
    hide OnWire, Outstanding, InSlot, Wire, Placed, Attributed, Recorded;
    if !g.loopDone && g.inbound != [] {
      LoopTurnSounds(g, pc);
      LoopTurnMoves(g);
    }
  }

  /** An answer that is sent stays on the wire. */
  lemma PeerAnswerStays(g: Shared, k: nat, op: Byte)
    requires |OnWire(g)| <= 1
    ensures var r := PeerAnswered(g, k, op); OnWire(r) == OnWire(g) && Outstanding(r) == Outstanding(g)
  {
    hide Answers;
    var r := PeerAnswered(g, k, op);
    if r != g {
      AnswersSnoc(g.inbound, Answer(g.pending[k], op));
      assert |OnWire(g)| == |Answers(g.inbound)| + |g.pending|;
      assert g.pending == [g.pending[k]] && r.pending == [];
      assert OnWire(r) == OnWire(g);
    }
  }

  lemma OnWireIsShort(g: Shared)
    requires AtMostLast(g)
    ensures |OnWire(g)| <= 1
  {
    hide Answers;
    assert |Outstanding(g)| == |InSlot(g.rspc)| + |OnWire(g)|;
  }

  lemma PeerAnswerKeepsWire(g: Shared, k: nat, op: Byte)
    requires Wire(g)
    ensures Wire(PeerAnswered(g, k, op))
  {
    hide Answers;
  }

  lemma PeerAnswerFlows(g: Shared, k: nat, op: Byte, pc: Option<Pc>)
    requires Flows(g, pc)
    ensures Flows(PeerAnswered(g, k, op), pc)
  {
    hide OnWire, Outstanding, Answers, Wire, Legitimate, RspOf;
    PeerAnswerKeepsWire(g, k, op);
    if AtMostLast(g) {
      OnWireIsShort(g);
    }
    if |OnWire(g)| <= 1 {
      PeerAnswerStays(g, k, op);
    }
  }

  lemma LoopFailFlows(g: Shared, pc: Option<Pc>)
    requires Flows(g, pc) && !g.loopDone
    ensures Flows(g.(loopDone := true, chErr := true), pc)
  {
    hide OnWire, Outstanding;
    OnWireIs(g, g.(loopDone := true, chErr := true));
  }

  lemma PeerSendFlows(g: Shared, p: Pdu, pc: Option<Pc>)
    requires Flows(g, pc) && !p.Answer? && Plausible(p)
    ensures Flows(g.(inbound := g.inbound + [p]), pc)
  {
    hide OnWire, Outstanding, Answers;
    var r := g.(inbound := g.inbound + [p]);
    AnswersSnoc(g.inbound, p);
    SameAnswers(g, r);
  }

  lemma SameAnswers(g: Shared, r: Shared)
    requires r.rspc == g.rspc && r.pending == g.pending && Answers(r.inbound) == Answers(g.inbound)
    ensures OnWire(r) == OnWire(g) && Outstanding(r) == Outstanding(g)
  {
  }

  lemma BackgroundFlows(g: Shared, a: Action, pc: Option<Pc>)
    requires Flows(g, pc)
    ensures Flows(Background(g, a), pc)
  {
    hide LoopTurn, PeerAnswered, Flows;
    match a {
      case LoopRead => LoopTurnFlows(g, pc);
      case LoopFail =>
        if !g.loopDone {
          LoopFailFlows(g, pc);
        }
      case PeerAnswer(k, op) => PeerAnswerFlows(g, k, op, pc);
      case PeerSend(p) =>
        if !p.Answer? && Plausible(p) {
          PeerSendFlows(g, p, pc);
        }
      case _ =>
    }
  }

  // ---- Runs ----

  /** What holds in every reachable state up to the first failed refusal that does harm. */
  ghost predicate Orderly(s: State) {
    && OneBuffer(s)
    && (s.g.refusalHarmed
        || if s.slot.Some? then Flows(s.g, None)
           else exists t :: s.threads.Keys == {t} && Flows(s.g, Some(s.threads[t])))
  }

  lemma StepIsOrderly(s: State, a: Action)
    requires Orderly(s)
    ensures Orderly(Step(s, a))
  {
    hide Flows, Moved, Background;
    StepKeepsOneBuffer(s, a);
    HarmStays(s, a);
    if !s.g.refusalHarmed {
      match a {
        case Acquire(t, p) =>
          if Step(s, a) != s {
            assert Step(s, a).threads.Keys == {t};
            BeginFlows(s.g, p, s.slot.value);
          }
        case Advance(t, m) =>
          if t in s.threads {
            assert Step(s, a).threads.Keys == s.threads.Keys == {t};
            MoveFlows(s.g, s.threads[t], m);
          }
        case Release(t) =>
          if Step(s, a) != s {
            ReleaseFlows(s.g, s.threads[t]);
          }
        case _ =>
          BackgroundFlows(s.g, a, if s.slot.Some? then None else Some(s.threads[Holder(s)]));
      }
    }
  }

  lemma BeginFlows(g: Shared, p: Purpose, buf: int)
    requires Flows(g, None) && (p.ForRequest? ==> p.op in REQUESTS)
    ensures Flows(g, Some(Begun(p, buf)))
  {
    hide OnWire, Outstanding;
  }

  lemma ReleaseFlows(g: Shared, pc: Pc)
    requires Flows(g, Some(pc)) && pc.Leaving?
    ensures Flows(g, None)
  {
    hide OnWire, Outstanding;
  }

  lemma MoveKeepsHarm(g: Shared, pc: Pc, m: Move)
    ensures g.refusalHarmed ==> Moved(g, pc, m).0.refusalHarmed
  {
    hide OnWire, Received, Sent, Checked;
    if m.Receive? {
      ReceiveKeepsHarm(g, pc);
    } else if m.Send? {
      SendKeepsHarm(g, pc, m.ok);
    }
  }

  lemma ReceiveKeepsHarm(g: Shared, pc: Pc)
    ensures Received(g, pc).0.refusalHarmed == g.refusalHarmed
  {
  }

  lemma SendKeepsHarm(g: Shared, pc: Pc, ok: bool)
    ensures Sent(g, pc, ok).0.refusalHarmed == g.refusalHarmed
  {
    hide OnWire;
  }

  lemma HarmStays(s: State, a: Action)
    ensures s.g.refusalHarmed ==> Step(s, a).g.refusalHarmed
  {
    hide Moved;
    if a.Advance? && a.t in s.threads {
      MoveKeepsHarm(s.g, s.threads[a.t], a.m);
    }
  }

  lemma {:induction false} RunsAreOrderly(s: State, schedule: seq<Action>)
    requires Orderly(s)
    ensures Orderly(Run(s, schedule))
    decreases |schedule|
  {
    hide Orderly, Step;
    if schedule != [] {
      StepIsOrderly(s, schedule[0]);
      RunsAreOrderly(Step(s, schedule[0]), schedule[1..]);
    }
  }

  lemma InitialIsOrderly(mtu: int)
    requires DEFAULT_MTU <= mtu <= MAX_MTU
    ensures Orderly(Initial(mtu))
  {
  }

  lemma OrderlyMeans(s: State)
    requires Orderly(s) && !s.g.refusalHarmed
    ensures Attributed(s.g) && (!s.g.stranded ==> AtMostLast(s.g) && !s.g.overwrote)
  {
  }

  /** Over every schedule in which no failed refusal has done harm, the loop alive or dead, each response
      a request method got is the peer's answer to that very request. */
  lemma ResponsesAreAttributed(mtu: int, schedule: seq<Action>)
    requires DEFAULT_MTU <= mtu <= MAX_MTU && !Run(Initial(mtu), schedule).g.refusalHarmed
    ensures Attributed(Run(Initial(mtu), schedule).g)
  {
    InitialIsOrderly(mtu);
    RunsAreOrderly(Initial(mtu), schedule);
    OrderlyMeans(Run(Initial(mtu), schedule));
  }

  /** In those schedules, as long as no wait was left stranded on a dead loop, at most one request is
      outstanding, the last one, and no request is written over one that is still on the wire. */
  lemma AtMostOneOutstanding(mtu: int, schedule: seq<Action>)
    requires DEFAULT_MTU <= mtu <= MAX_MTU
    requires var g := Run(Initial(mtu), schedule).g; !g.refusalHarmed && !g.stranded
    ensures var g := Run(Initial(mtu), schedule).g; AtMostLast(g) && !g.overwrote
  {
    InitialIsOrderly(mtu);
    RunsAreOrderly(Initial(mtu), schedule);
    OrderlyMeans(Run(Initial(mtu), schedule));
  }

  // ---- Schedules ----

  lemma {:induction false} RunAppend(s: State, xs: seq<Action>, ys: seq<Action>)
    ensures Run(s, xs + ys) == Run(Run(s, xs), ys)
    decreases |xs|
  {
    hide Step;
    if xs == [] {
      assert xs + ys == ys;
    } else {
      assert (xs + ys)[1..] == xs[1..] + ys;
      RunAppend(Step(s, xs[0]), xs[1..], ys);
    }
  }

  /** A schedule leads where its steps lead. */
  lemma {:induction false} RunFollows(acts: seq<Action>, trace: seq<State>)
    requires |trace| == |acts| + 1 && forall i :: 0 <= i < |acts| ==> Step(trace[i], acts[i]) == trace[i + 1]
    ensures Run(trace[0], acts) == trace[|acts|]
    decreases |acts|
  {
    hide Step;
    if acts != [] {
      forall i | 0 <= i < |acts| - 1 ensures Step(trace[1..][i], acts[1..][i]) == trace[1..][i + 1] {
        assert Step(trace[i + 1], acts[i + 1]) == trace[i + 2];
      }
      RunFollows(acts[1..], trace[1..]);
    }
  }

  /** A free slot, and a bearer that is open and remembers nothing: the next request is written. */
  lemma NextRequestIsSent(t: Thread, op: Byte, buf: int, g: Shared)
    requires op in REQUESTS && !g.bearerClosed && g.abandonedRsp == 0
    ensures Run(State(Some(buf), map[], g),
                [Acquire(t, ForRequest(op)), Advance(t, Check), Advance(t, Drain), Advance(t, Send(true))])
         == State(None, map[t := Awaiting(buf, op, |g.reqs|)], Written(g, op))
  {
    RequestStarts(t, op, buf, g);
    RequestIsSent(t, op, buf, g);
    var xs, ys := [Acquire(t, ForRequest(op)), Advance(t, Check)], [Advance(t, Drain), Advance(t, Send(true))];
    RunAppend(State(Some(buf), map[], g), xs, ys);
    assert xs + ys == [Acquire(t, ForRequest(op)), Advance(t, Check), Advance(t, Drain), Advance(t, Send(true))];
  }

  /** The shared state once a request is written behind an emptied rspc. */
  function Written(g: Shared, op: Byte): Shared {
    g.(rspc := None, reqs := g.reqs + [op], pending := g.pending + [|g.reqs|],
       overwrote := g.overwrote || OnWire(g) != [])
  }

  lemma RequestStarts(t: Thread, op: Byte, buf: int, g: Shared)
    requires op in REQUESTS && !g.bearerClosed && g.abandonedRsp == 0
    ensures Run(State(Some(buf), map[], g), [Acquire(t, ForRequest(op)), Advance(t, Check)])
         == State(None, map[t := Draining(buf, op)], g)
  {
    var acts := [Acquire(t, ForRequest(op)), Advance(t, Check)];
    var trace := [State(Some(buf), map[], g), State(None, map[t := Starting(buf, op)], g),
                  State(None, map[t := Draining(buf, op)], g)];
    assert Step(trace[0], acts[0]) == trace[1];
    assert Step(trace[1], acts[1]) == trace[2];
    RunFollows(acts, trace);
  }

  lemma RequestIsSent(t: Thread, op: Byte, buf: int, g: Shared)
    requires !g.bearerClosed
    ensures Run(State(None, map[t := Draining(buf, op)], g), [Advance(t, Drain), Advance(t, Send(true))])
         == State(None, map[t := Awaiting(buf, op, |g.reqs|)], Written(g, op))
  {
    hide Run, Step;
    var acts := [Advance(t, Drain), Advance(t, Send(true))];
    var trace := [State(None, map[t := Draining(buf, op)], g),
                  State(None, map[t := Sending(buf, op)], g.(rspc := None)),
                  State(None, map[t := Awaiting(buf, op, |g.reqs|)], Written(g, op))];
    DrainStep(t, buf, op, g);
    SendStep(t, buf, op, g);
    RunFollows(acts, trace);
  }

  lemma DrainStep(t: Thread, buf: int, op: Byte, g: Shared)
    ensures Step(State(None, map[t := Draining(buf, op)], g), Advance(t, Drain))
         == State(None, map[t := Sending(buf, op)], g.(rspc := None))
  {
  }

  lemma SendStep(t: Thread, buf: int, op: Byte, g: Shared)
    requires !g.bearerClosed
    ensures Step(State(None, map[t := Sending(buf, op)], g.(rspc := None)), Advance(t, Send(true)))
         == State(None, map[t := Awaiting(buf, op, |g.reqs|)], Written(g, op))
  {
  }

  // ---- When a request is written over another ----

  /** The goroutine that holds the buffer for anything but a request, or is done, gives it back. */
  lemma GivesBack(t: Thread, pc: Pc, g: Shared) returns (acts: seq<Action>)
    requires !g.bearerClosed
    requires pc.CommandStarting? || pc.CommandSending? || pc.AnsweringMTU? || pc.Adopting? || pc.Leaving?
    ensures Run(State(None, map[t := pc], g), acts) == State(Some(pc.buf), map[], g)
  {
    var start, leaving := State(None, map[t := pc], g), State(None, map[t := Leaving(pc.buf)], g);
    var free := State(Some(pc.buf), map[], g);
    assert Step(leaving, Release(t)) == free;
    var trace: seq<State>;
    if pc.Leaving? {
      acts, trace := [Release(t)], [leaving, free];
    } else if pc.CommandStarting? {
      var sending := State(None, map[t := CommandSending(pc.buf)], g);
      assert Step(start, Advance(t, Check)) == sending && Step(sending, Advance(t, Send(true))) == leaving;
      acts, trace := [Advance(t, Check), Advance(t, Send(true)), Release(t)], [start, sending, leaving, free];
    } else {
      var m := if pc.CommandSending? then Send(true) else if pc.Adopting? then Adopt(None) else AnswerMTU(None);
      assert Step(start, Advance(t, m)) == leaving;
      acts, trace := [Advance(t, m), Release(t)], [start, leaving, free];
    }
    RunFollows(acts, trace);
  }

  /** A goroutine on its way to writing a request writes it. */
  lemma Writes(t: Thread, pc: Pc, g: Shared) returns (acts: seq<Action>)
    requires !g.bearerClosed && g.abandonedRsp == 0 && (pc.Starting? || pc.Draining? || pc.Sending?)
    ensures var r := Run(State(None, map[t := pc], g), acts).g; r == Written(g, pc.op).(rspc := r.rspc)
  {
    var start, draining := State(None, map[t := pc], g), State(None, map[t := Draining(pc.buf, pc.op)], g);
    var rest := [Advance(t, Drain), Advance(t, Send(true))];
    RequestIsSent(t, pc.op, pc.buf, g);
    if pc.Starting? {
      RunOne(start, Advance(t, Check));
      assert Run(start, [Advance(t, Check)]) == draining;
      RunAppend(start, [Advance(t, Check)], rest);
      acts := [Advance(t, Check)] + rest;
    } else if pc.Draining? {
      acts := rest;
    } else {
      RunOne(start, Advance(t, Send(true)));
      acts := [Advance(t, Send(true))];
    }
  }

  lemma RunOne(s: State, a: Action)
    ensures Run(s, [a]) == Step(s, a)
  {
    assert [a][1..] == [];
  }

  /** A stranded request is written over by the next one, which leaves two on the wire. */
  lemma DriftOverwrites(s: State, op: Byte) returns (more: seq<Action>)
    requires OneBuffer(s) && op in REQUESTS
    requires if s.slot.Some? then Adrift(s.g, None)
             else Adrift(s.g, Some(s.threads[Holder(s)])) && Placed(s.g, s.threads[Holder(s)])
    ensures var r := Run(s, more).g;
            && r.overwrote && r.stranded == s.g.stranded && r.refusalHarmed == s.g.refusalHarmed
            && OnWire(r) == [|s.g.reqs| - 1, |s.g.reqs|]
  {
    hide Run;
    var g := s.g;
    if s.slot.Some? {
      assert s == State(s.slot, map[], g);
      NextRequestIsSent(0, op, s.slot.value, g);
      WrittenOver(g, op, Written(g, op));
      more := [Acquire(0, ForRequest(op)), Advance(0, Check), Advance(0, Drain), Advance(0, Send(true))];
    } else {
      var t := Holder(s);
      var pc := s.threads[t];
      assert s == State(None, map[t := pc], g);
      if pc.Starting? || pc.Draining? || pc.Sending? {
        more := Writes(t, pc, g);
        WrittenOver(g, pc.op, Run(s, more).g);
      } else {
        var acts := GivesBack(t, pc, g);
        var next := [Acquire(t, ForRequest(op)), Advance(t, Check), Advance(t, Drain), Advance(t, Send(true))];
        NextRequestIsSent(t, op, pc.buf, g);
        RunAppend(s, acts, next);
        WrittenOver(g, op, Written(g, op));
        more := acts + next;
      }
    }
  }

  lemma WrittenOver(g: Shared, op: Byte, r: Shared)
    requires OnWire(g) == [|g.reqs| - 1] && r == Written(g, op).(rspc := r.rspc)
    ensures r.overwrote && OnWire(r) == [|g.reqs| - 1, |g.reqs|]
  {
    hide Answers;
    assert OnWire(r) == OnWire(g) + [|g.reqs|];
  }

  /** A continuation in which a request is written over one that is on the wire, although no further wait
      is left stranded and no failed refusal does harm. */
  ghost predicate Overwrites(s: State, more: seq<Action>) {
    var r := Run(s.(g := s.g.(stranded := false)), more).g;
    !r.refusalHarmed && !r.stranded && r.overwrote
  }

  lemma StrandedOverwrites(s: State, op: Byte)
    requires Orderly(s) && !s.g.refusalHarmed && s.g.stranded && !s.g.overwrote && op in REQUESTS
    ensures exists more ::
              && Overwrites(s, more)
              && OnWire(Run(s.(g := s.g.(stranded := false)), more).g) == [|s.g.reqs| - 1, |s.g.reqs|]
  {
    var f := s.(g := s.g.(stranded := false));
    OnWireIs(s.g, f.g);
    if s.slot == None {
      assert f.threads[Holder(f)] == s.threads[Holder(s)];
    }
    var more := DriftOverwrites(f, op);
    assert Overwrites(s, more);
  }

  /** Over any schedule without harm from a failed refusal, the loop alive or dead: a request has been, or
      can come to be, written over one that is still on the wire if and only if an earlier wait was left
      stranded by a dead loop. */
  lemma OverwritingIsExact(mtu: int, schedule: seq<Action>)
    requires DEFAULT_MTU <= mtu <= MAX_MTU && !Run(Initial(mtu), schedule).g.refusalHarmed
    ensures var s := Run(Initial(mtu), schedule);
            && (s.g.overwrote ==> s.g.stranded)
            && (s.g.stranded <==> s.g.overwrote || exists more :: Overwrites(s, more))
  {
    hide Run, Orderly, Overwrites;
    InitialIsOrderly(mtu);
    RunsAreOrderly(Initial(mtu), schedule);
    var s := Run(Initial(mtu), schedule);
    OrderlyMeans(s);
    if s.g.stranded && !s.g.overwrote {
      StrandedOverwrites(s, 0x02);
    } else if !s.g.stranded {
      forall more ensures !Overwrites(s, more) {
        NothingOverwrites(s, more);
      }
    }
  }

  lemma NothingOverwrites(s: State, more: seq<Action>)
    requires Orderly(s) && !s.g.refusalHarmed && !s.g.stranded
    ensures !Overwrites(s, more)
  {
    assert s.(g := s.g.(stranded := false)) == s;
    RunsAreOrderly(s, more);
    if !Run(s, more).g.refusalHarmed {
      OrderlyMeans(Run(s, more));
    }
  }

  /** The loop dies on a wait whose answer is outstanding: the wait is left stranded. */
  lemma LoopDies(t: Thread, buf: int, op: Byte, id: nat, g: Shared)
    requires !g.loopDone && !g.chErr && OnWire(g) != []
    ensures Run(State(None, map[t := Awaiting(buf, op, id)], g), [LoopFail, Advance(t, LoopFailed), Release(t)])
         == State(Some(buf), map[], g.(loopDone := true, stranded := true))
  {
    hide OnWire;
    var acts := [LoopFail, Advance(t, LoopFailed), Release(t)];
    var waiting := map[t := Awaiting(buf, op, id)];
    var dead, left := g.(loopDone := true, chErr := true), g.(loopDone := true, stranded := true);
    OnWireIs(g, dead);
    var trace := [State(None, waiting, g), State(None, waiting, dead), State(None, map[t := Leaving(buf)], left),
                  State(Some(buf), map[], left)];
    assert Step(trace[0], acts[0]) == trace[1];
    assert Step(trace[1], acts[1]) == trace[2];
    assert Step(trace[2], acts[2]) == trace[3];
    RunFollows(acts, trace);
  }

  /** Such a run: the loop dies on a request that waits, its wait ends through the error, and the next
      request is written with the first still unanswered. */
  lemma DeadLoopOverwrites()
    ensures var acts := [Acquire(0, ForRequest(0x0A)), Advance(0, Check), Advance(0, Drain), Advance(0, Send(true)),
                         LoopFail, Advance(0, LoopFailed), Release(0),
                         Acquire(0, ForRequest(0x0A)), Advance(0, Check), Advance(0, Drain), Advance(0, Send(true))];
            var g := Run(Initial(23), acts).g;
            && g.pending == [0, 1] && g.overwrote && g.stranded
            && !g.refusalHarmed && !g.bearerClosed
  {
    hide Run, Step;
    var g0 := Initial(23).g;
    var g1 := Written(g0, 0x0A);
    var g3 := g1.(loopDone := true, stranded := true);
    var first := [Acquire(0, ForRequest(0x0A)), Advance(0, Check), Advance(0, Drain), Advance(0, Send(true))];
    NextRequestIsSent(0, 0x0A, 23, g0);
    var mid := [LoopFail, Advance(0, LoopFailed), Release(0)];
    LoopDies(0, 23, 0x0A, 0, g1);
    NextRequestIsSent(0, 0x0A, 23, g3);
    RunAppend(Initial(23), first, mid);
    RunAppend(Initial(23), first + mid, first);
    assert (first + mid) + first
        == [Acquire(0, ForRequest(0x0A)), Advance(0, Check), Advance(0, Drain), Advance(0, Send(true)),
            LoopFail, Advance(0, LoopFailed), Release(0),
            Acquire(0, ForRequest(0x0A)), Advance(0, Check), Advance(0, Drain), Advance(0, Send(true))];
    assert Written(g3, 0x0A).pending == [0, 1];
  }

  // ---- When a failed refusal does harm ----

  /** Where the first answer stands in a list of PDUs. */
  function FirstAnswer(ps: seq<Pdu>): (m: nat)
    ensures m <= |ps| && forall i :: 0 <= i < m ==> !ps[i].Answer?
    ensures m < |ps| ==> ps[m].Answer?
    ensures if Answers(ps) == [] then m == |ps| else m < |ps| && ps[m].id == Answers(ps)[0]
  {
    if ps == [] || ps[0].Answer? then 0 else 1 + FirstAnswer(ps[1..])
  }

  function Reads(m: nat): (r: seq<Action>)
    ensures |r| == m
  {
    if m == 0 then [] else [LoopRead] + Reads(m - 1)
  }

  lemma ReadSkips(s: State)
    requires !s.g.loopDone && s.g.inbound != [] && !s.g.inbound[0].Answer? && InSlot(s.g.rspc) == []
    ensures var s1 := Step(s, LoopRead);
            s1 == s.(g := s.g.(inbound := s.g.inbound[1..], rspc := s1.g.rspc)) && InSlot(s1.g.rspc) == []
  {
  }

  /** Reading PDUs that are no answers changes nothing but the inbound queue and, maybe, rspc. */
  lemma {:induction false} ReadsSkip(s: State, m: nat)
    requires !s.g.loopDone && m <= |s.g.inbound| && forall i :: 0 <= i < m ==> !s.g.inbound[i].Answer?
    requires InSlot(s.g.rspc) == []
    ensures var g := Run(s, Reads(m)).g;
            && InSlot(g.rspc) == []
            && Run(s, Reads(m)) == s.(g := s.g.(inbound := s.g.inbound[m..], rspc := g.rspc))
    decreases m
  {
    hide Step, InSlot;
    if m == 0 {
      assert s.g.inbound[0..] == s.g.inbound;
    } else {
      var s1 := Step(s, LoopRead);
      assert Reads(m)[1..] == Reads(m - 1);
      ReadSkips(s);
      ReadsSkip(s1, m - 1);
      assert s.g.inbound[1..][m - 1..] == s.g.inbound[m..];
    }
  }

  /** The state of a goroutine that waits for a new request while the answer to the one before it heads
      for rspc: the loop hands it on, and the wait takes it. */
  lemma StragglerArrives(t: Thread, buf: int, op: Byte, g: Shared, id: nat) returns (acts: seq<Action>)
    requires !g.loopDone && g.rspc == None && op in REQUESTS && id + 1 < |g.reqs| && g.reqs[id] == op
    requires (g.inbound == [] && g.pending != [] && g.pending[0] == id)
          || (g.inbound != [] && g.inbound[0].Answer? && g.inbound[0].id == id && Legitimate(g.reqs, g.inbound[0]))
    ensures var r := Run(State(None, map[t := Awaiting(buf, op, id + 1)], g), acts).g;
            r.refusalHarmed == g.refusalHarmed && !Attributed(r)
  {
    var waiting := map[t := Awaiting(buf, op, id + 1)];
    var start := State(None, waiting, g);
    if g.inbound == [] {
      var p := Answer(id, ERROR_RESPONSE);
      var sent := g.(inbound := [p], pending := g.pending[1..]);
      assert Step(start, PeerAnswer(0, ERROR_RESPONSE)) == State(None, waiting, sent);
      StragglerTaken(t, buf, op, sent, id);
      RunOne(start, PeerAnswer(0, ERROR_RESPONSE));
      RunAppend(start, [PeerAnswer(0, ERROR_RESPONSE)], [LoopRead, Advance(t, Receive)]);
      acts := [PeerAnswer(0, ERROR_RESPONSE)] + [LoopRead, Advance(t, Receive)];
    } else {
      StragglerTaken(t, buf, op, g, id);
      acts := [LoopRead, Advance(t, Receive)];
    }
  }

  lemma StragglerTaken(t: Thread, buf: int, op: Byte, g: Shared, id: nat)
    requires !g.loopDone && g.rspc == None && id + 1 < |g.reqs| && g.reqs[id] == op
    requires g.inbound != [] && g.inbound[0].Answer? && g.inbound[0].id == id && Legitimate(g.reqs, g.inbound[0])
    ensures var r := Run(State(None, map[t := Awaiting(buf, op, id + 1)], g), [LoopRead, Advance(t, Receive)]).g;
            r.refusalHarmed == g.refusalHarmed && !Attributed(r)
  {
    var acts := [LoopRead, Advance(t, Receive)];
    var p := g.inbound[0];
    var s0 := State(None, map[t := Awaiting(buf, op, id + 1)], g);
    var s1 := State(None, map[t := Awaiting(buf, op, id + 1)], g.(inbound := g.inbound[1..], rspc := Some(p)));
    assert Step(s0, acts[0]) == s1;
    var s2 := Step(s1, acts[1]);
    RunFollows(acts, [s0, s1, s2]);
    assert s2.g.returned == g.returned + [(id + 1, p)];
    assert s2.g.returned[|g.returned|] == (id + 1, p);
  }

  /** What a failed refusal is followed by, with the record of its harm wiped: harm that shows afterwards
      is its doing. */
  function AfterRefusal(s: State, t: Thread): State {
    var left := Step(s, Advance(t, Refuse(false)));
    left.(g := left.g.(refusalHarmed := false))
  }

  /** A continuation of the failed refusal, free of further harm, in which a request gets another's answer. */
  ghost predicate Misattributes(s: State, t: Thread, more: seq<Action>) {
    var r := Run(AfterRefusal(s, t), more).g;
    !r.refusalHarmed && !Attributed(r)
  }

  /** The guard: the loop still reads, and the answer is still to be read. */
  predicate Harmful(g: Shared) {
    !g.loopDone && OnWire(g) != []
  }

  lemma HarmMisattributes(s: State, t: Thread) returns (more: seq<Action>)
    requires Orderly(s) && !s.g.refusalHarmed && t in s.threads && s.threads[t].Refusing? && Harmful(s.g)
    ensures Misattributes(s, t, more)
  {
    var g, pc, id := s.g, s.threads[t], |s.g.reqs| - 1;
    assert s.threads.Keys == {t} && Flows(g, Some(pc));
    LastOnWire(g);
    var buf, op, m := pc.buf, pc.op, FirstAnswer(g.inbound);
    var left := AfterRefusal(s, t);
    assert left == State(None, map[t := Leaving(buf)], g);
    var a1 := [Release(t), Acquire(t, ForRequest(op)), Advance(t, Check)];
    LeavesAndStarts(t, buf, op, g);
    var drained := State(None, map[t := Draining(buf, op)], g);
    ReadsSkip(drained, m);
    var g1 := Run(drained, Reads(m)).g;
    var a3 := [Advance(t, Drain), Advance(t, Send(true))];
    RequestIsSent(t, op, buf, g1);
    var g2 := Written(g1, op);
    StragglerIsNext(g, m, op, g2);
    var a4 := StragglerArrives(t, buf, op, g2, id);
    RunAppend(left, a1, Reads(m));
    RunAppend(left, a1 + Reads(m), a3);
    RunAppend(left, a1 + Reads(m) + a3, a4);
    more := a1 + Reads(m) + a3 + a4;
  }

  lemma LeavesAndStarts(t: Thread, buf: int, op: Byte, g: Shared)
    requires op in REQUESTS && !g.bearerClosed && g.abandonedRsp == 0
    ensures Run(State(None, map[t := Leaving(buf)], g), [Release(t), Acquire(t, ForRequest(op)), Advance(t, Check)])
         == State(None, map[t := Draining(buf, op)], g)
  {
    var leaving := State(None, map[t := Leaving(buf)], g);
    assert Step(leaving, Release(t)) == State(Some(buf), map[], g);
    RunOne(leaving, Release(t));
    RequestStarts(t, op, buf, g);
    RunAppend(leaving, [Release(t)], [Acquire(t, ForRequest(op)), Advance(t, Check)]);
    assert [Release(t)] + [Acquire(t, ForRequest(op)), Advance(t, Check)]
        == [Release(t), Acquire(t, ForRequest(op)), Advance(t, Check)];
  }

  /** Once the PDUs before it are read, the old answer is the next the loop can read, or still to be sent. */
  lemma StragglerIsNext(g: Shared, m: nat, op: Byte, r: Shared)
    requires Wire(g) && OnWire(g) == [|g.reqs| - 1] && m == FirstAnswer(g.inbound) && op in REQUESTS
    requires r.inbound == g.inbound[m..] && r.pending == g.pending + [|g.reqs|] && r.reqs == g.reqs + [op]
    ensures var id := |g.reqs| - 1;
            || (r.inbound == [] && r.pending != [] && r.pending[0] == id)
            || (r.inbound != [] && r.inbound[0].Answer? && r.inbound[0].id == id && Legitimate(r.reqs, r.inbound[0]))
  {
    assert |OnWire(g)| == |Answers(g.inbound)| + |g.pending|;
    if Answers(g.inbound) == [] {
      assert OnWire(g) == g.pending;
    } else {
      assert OnWire(g)[0] == Answers(g.inbound)[0];
      assert r.inbound[0] == g.inbound[m];
    }
  }

  /** A refusal write that fails in a reachable state leads to a wrong pairing, in some continuation free
      of further harm, if and only if the loop still reads and the request's answer is still to be read. */
  lemma HarmIsExact(mtu: int, schedule: seq<Action>, t: Thread)
    requires DEFAULT_MTU <= mtu <= MAX_MTU
    requires var s := Run(Initial(mtu), schedule); !s.g.refusalHarmed && t in s.threads && s.threads[t].Refusing?
    ensures var s := Run(Initial(mtu), schedule);
            Harmful(s.g) <==> exists more :: Misattributes(s, t, more)
  {
    hide Run, Orderly, Misattributes;
    InitialIsOrderly(mtu);
    RunsAreOrderly(Initial(mtu), schedule);
    var s := Run(Initial(mtu), schedule);
    if Harmful(s.g) {
      var more := HarmMisattributes(s, t);
    } else {
      forall more ensures !Misattributes(s, t, more) {
        HarmlessAttributes(s, t, more);
      }
    }
  }

  lemma HarmlessAttributes(s: State, t: Thread, more: seq<Action>)
    requires Orderly(s) && !s.g.refusalHarmed && t in s.threads && s.threads[t].Refusing? && !Harmful(s.g)
    ensures !Misattributes(s, t, more)
  {
    hide Orderly;
    var left := Step(s, Advance(t, Refuse(false)));
    StepIsOrderly(s, Advance(t, Refuse(false)));
    assert AfterRefusal(s, t) == left;
    RunsAreOrderly(left, more);
    if !Run(left, more).g.refusalHarmed {
      OrderlyMeans(Run(left, more));
    }
  }

  /** A state in which a failed refusal does harm is reached as soon as a peer's own request meets an
      outstanding one. */
  lemma HarmIsReachable()
    ensures var acts := [Acquire(0, ForRequest(0x0A)), Advance(0, Check), Advance(0, Drain), Advance(0, Send(true)),
                         PeerSend(Own(0x52)), LoopRead, Advance(0, Receive)];
            var s := Run(Initial(23), acts);
            !s.g.refusalHarmed && 0 in s.threads && s.threads[0].Refusing? && Harmful(s.g)
  {
    hide Run;
    var first := [Acquire(0, ForRequest(0x0A)), Advance(0, Check), Advance(0, Drain), Advance(0, Send(true))];
    var peer := [PeerSend(Own(0x52)), LoopRead, Advance(0, Receive)];
    var g := Written(Initial(23).g, 0x0A);
    NextRequestIsSent(0, 0x0A, 23, Initial(23).g);
    OwnPduIsRefused(0, 0x0A, 23, g);
    RunAppend(Initial(23), first, peer);
    assert first + peer == [Acquire(0, ForRequest(0x0A)), Advance(0, Check), Advance(0, Drain), Advance(0, Send(true)),
                            PeerSend(Own(0x52)), LoopRead, Advance(0, Receive)];
    assert OnWire(g) == [0];
  }

  lemma OwnPduIsRefused(t: Thread, op: Byte, buf: int, g: Shared)
    requires g.rspc == None && g.inbound == [] && !g.loopDone && op in REQUESTS && |g.reqs| > 0
    ensures var id := |g.reqs| - 1;
            Run(State(None, map[t := Awaiting(buf, op, id)], g),
                [PeerSend(Own(0x52)), LoopRead, Advance(t, Receive)]) ==
            State(None, map[t := Refusing(buf, op, id)], g)
  {
    hide Run, Step;
    var id, own := |g.reqs| - 1, Own(0x52);
    var waiting := map[t := Awaiting(buf, op, id)];
    var peer := [PeerSend(own), LoopRead, Advance(t, Receive)];
    var trace := [State(None, waiting, g), State(None, waiting, g.(inbound := [own])),
                  State(None, waiting, g.(rspc := Some(own))), State(None, map[t := Refusing(buf, op, id)], g)];
    BackgroundStep(State(None, waiting, g), PeerSend(own));
    BackgroundStep(State(None, waiting, g.(inbound := [own])), LoopRead);
    OwnPduStep(t, buf, op, id, g);
    RunFollows(peer, trace);
  }

  lemma BackgroundStep(s: State, a: Action)
    requires a.PeerSend? || a.LoopRead?
    ensures Step(s, a) == s.(g := Background(s.g, a))
  {
  }

  lemma OwnPduStep(t: Thread, buf: int, op: Byte, id: nat, g: Shared)
    requires g.rspc == None && op in REQUESTS
    ensures Step(State(None, map[t := Awaiting(buf, op, id)], g.(rspc := Some(Own(0x52)))), Advance(t, Receive))
         == State(None, map[t := Refusing(buf, op, id)], g)
  {
    assert map[t := Awaiting(buf, op, id)][t := Refusing(buf, op, id)] == map[t := Refusing(buf, op, id)];
  }
}
