/** The ATT client's transactions as a step protocol (linux/att/client.go): request methods sharing one
    transmit buffer, the read loop with its one-slot response channel, abandoned transactions and the
    poison flag, against a peer that answers each request at most once and in order. */
module AttBearer {
  import opened Bytes
  import opened Wrappers
  import opened Profile
  import opened AttPdu

  const REQUESTS: set<Byte> := {0x02, 0x04, 0x06, 0x08, 0x0A, 0x0C, 0x0E, 0x10, 0x12, 0x16, 0x18}
  const RESPONSES: set<Byte> := {0x01, 0x03, 0x05, 0x07, 0x09, 0x0B, 0x0D, 0x0F, 0x11, 0x13, 0x17, 0x19}

  /** rspOfReq; 0 for anything that is not a request the client sends. */
  function RspOf(op: Byte): Byte {
    if op in REQUESTS then op + 1 else 0
  }

  lemma ResponsesAreTold(op: Byte)
    requires op in REQUESTS
    ensures RspOf(op) in RESPONSES && RspOf(op) != 0 && RspOf(op) != ERROR_RESPONSE
  {
  }

  /** What the peer sends: the answer to request `id`; a request or command of its own, which the loop
      takes for a response; or a PDU the loop dispatches elsewhere. */
  datatype Pdu = Answer(id: nat, op: Byte) | Own(op: Byte) | Async

  /** A PDU the peer may send when it follows the protocol: its own PDUs carry no response opcode. */
  predicate Plausible(p: Pdu) {
    p.Own? ==> p.op !in RESPONSES
  }

  /** Where a goroutine that has taken the transmit buffer `buf` (its length) stands. */
  datatype Pc =
    | Starting(buf: int, op: Byte)             // sendReq: about to test bearerClosed
    | Resolving(buf: int, op: Byte)            // waiting in resolveAbandoned
    | RefusingEarly(buf: int, op: Byte)        // resolveAbandoned: about to refuse a PDU
    | Draining(buf: int, op: Byte)             // about to empty rspc
    | Sending(buf: int, op: Byte)              // about to write the request
    | Awaiting(buf: int, op: Byte, id: nat)    // waiting for the response to request id
    | Refusing(buf: int, op: Byte, id: nat)    // about to refuse a PDU
    | Adopting(buf: int)                       // ExchangeMTU holding its response
    | CommandStarting(buf: int)                // sendCmd: about to test bearerClosed
    | CommandSending(buf: int)
    | AnsweringMTU(buf: int)                   // handleExchangeMTURequest
    | Leaving(buf: int)                        // the deferred release

  type Thread = nat

  /** What the goroutines share, the wire, and what happened so far. */
  datatype Shared = Shared(
    txMTU: int,                   // the connection's transmit MTU
    rspc: Option<Pdu>,
    chErr: bool,
    loopDone: bool,
    bearerClosed: bool,
    abandonedRsp: Byte,
    // the wire and the peer
    reqs: seq<Byte>,              // opcodes of the requests written; a request's id is its index
    pending: seq<nat>,            // ids the peer may still answer, oldest first
    inbound: seq<Pdu>,            // sent by the peer and not yet read
    // what happened
    returned: seq<(nat, Pdu)>,    // the requests that got a response, and what they got
    lateWrites: nat,              // requests and commands written under the slot after poisoning
    refusalHarmed: bool,          // sendReq left on a failed refusal write with its answer still to be read
    stranded: bool,               // sendReq left, without a record, a request that a dead loop cannot answer
    overwrote: bool               // a request was written while an earlier one was still on the wire
  )

  /** `slot` is chTxBuf: the length of the buffer in it. `threads` are the goroutines that hold a buffer;
      those that wait for it, or want nothing, are not listed. */
  datatype State = State(slot: Option<int>, threads: map<Thread, Pc>, g: Shared)

  function Initial(mtu: int): State {
    State(Some(mtu), map[], Shared(mtu, None, false, false, false, 0, [], [], [], [], 0, false, false, false))
  }

  /** The ids of the answers in a list of PDUs. */
  function Answers(ps: seq<Pdu>): seq<nat> {
    if ps == [] then [] else (if ps[0].Answer? then [ps[0].id] else []) + Answers(ps[1..])
  }

  /** The requests that are written and whose answers the loop has not read. */
  function OnWire(g: Shared): seq<nat> {
    Answers(g.inbound) + g.pending
  }

  datatype Purpose = ForRequest(op: Byte) | ForCommand | ForPeerMTU

  /** What a goroutine that holds the buffer does next. */
  datatype Move =
    | Check                       // the bearerClosed test and, for a request, the abandonedRsp test
    | Receive                     // the rspc arm of either select
    | Refuse(ok: bool)            // the refusal write
    | LoopFailed                  // the chErr arm
    | Cancel                      // the ctx.Done arm
    | Timeout                     // the timer arm
    | Drain
    | Send(ok: bool)
    | Adopt(mtu: Option<int>)     // ExchangeMTU: None when the response is an error or invalid
    | AnswerMTU(mtu: Option<int>) // handleExchangeMTURequest: None when the request is malformed

  datatype Action =
    | Acquire(t: Thread, purpose: Purpose)
    | Advance(t: Thread, m: Move)
    | Release(t: Thread)
    | LoopRead
    | LoopFail
    | PeerAnswer(k: nat, op: Byte)        // answers the k-th pending request, giving up on the earlier ones
    | PeerSend(p: Pdu)

  // ---- The steps; one that is not enabled changes nothing ----

  /** The rspc arm: take the PDU; a response (or an error) ends the wait, anything else is refused. */
  function Received(g: Shared, pc: Pc): (Shared, Pc) {
    if g.rspc == None || g.rspc.value.Async? then (g, pc)
    else
      var p, r := g.rspc.value, g.(rspc := None);
      match pc
      case Resolving(buf, op) =>
        if p.op == ERROR_RESPONSE || p.op == g.abandonedRsp then (r.(abandonedRsp := 0), Draining(buf, op))
        else (r, RefusingEarly(buf, op))
      case Awaiting(buf, op, id) =>
        if p.op == ERROR_RESPONSE || p.op == RspOf(op) then
          (r.(returned := g.returned + [(id, p)]), if op == EXCHANGE_MTU_REQUEST then Adopting(buf) else Leaving(buf))
        else (r, Refusing(buf, op, id))
      case _ => (g, pc)
  }

  function RefusalWritten(g: Shared, pc: Pc, ok: bool): (Shared, Pc) {
    match pc
    case RefusingEarly(buf, op) => (g, if ok then Resolving(buf, op) else Leaving(buf))
    case Refusing(buf, op, id) =>
      if ok then (g, Awaiting(buf, op, id))
      else
        (g.(refusalHarmed := g.refusalHarmed || (!g.loopDone && OnWire(g) != []),
            stranded := g.stranded || (g.loopDone && OnWire(g) != [])),
         Leaving(buf))
    case _ => (g, pc)
  }

  function Checked(g: Shared, pc: Pc): Pc {
    match pc
    case Starting(buf, op) =>
      if g.bearerClosed then Leaving(buf) else if g.abandonedRsp != 0 then Resolving(buf, op) else Draining(buf, op)
    case CommandStarting(buf) => if g.bearerClosed then Leaving(buf) else CommandSending(buf)
    case _ => pc
  }

  /** The other ways out of the two waits. */
  function LoopFailedArm(g: Shared, pc: Pc): (Shared, Pc) {
    if !g.chErr then (g, pc)
    else
      match pc
      case Resolving(buf, _) => (g.(chErr := false, bearerClosed := true), Leaving(buf))
      case Awaiting(buf, _, _) => (g.(chErr := false, stranded := g.stranded || OnWire(g) != []), Leaving(buf))
      case _ => (g, pc)
  }

  function Cancelled(g: Shared, pc: Pc): (Shared, Pc) {
    match pc
    case Resolving(buf, _) => (g, Leaving(buf))
    case Awaiting(buf, op, _) => (g.(abandonedRsp := RspOf(op)), Leaving(buf))
    case _ => (g, pc)
  }

  function TimedOut(g: Shared, pc: Pc): (Shared, Pc) {
    match pc
    case Resolving(buf, _) => (g.(bearerClosed := true), Leaving(buf))
    case Awaiting(buf, _, _) => (g.(bearerClosed := true), Leaving(buf))
    case _ => (g, pc)
  }

  function Sent(g: Shared, pc: Pc, ok: bool): (Shared, Pc) {
    var late := g.lateWrites + if g.bearerClosed then 1 else 0;
    match pc
    case Sending(buf, op) =>
      if !ok then (g, Leaving(buf))
      else
        (g.(reqs := g.reqs + [op], pending := g.pending + [|g.reqs|], lateWrites := late,
            overwrote := g.overwrote || OnWire(g) != []),
         Awaiting(buf, op, |g.reqs|))
    case CommandSending(buf) => (g.(lateWrites := late), Leaving(buf))
    case _ => (g, pc)
  }

  /** A new transmit MTU, and a buffer of that length to release. */
  function Adopted(g: Shared, pc: Pc, mtu: Option<int>): (Shared, Pc) {
    match pc
    case Adopting(buf) =>
      if mtu.Some? && DEFAULT_MTU <= mtu.value <= MAX_MTU then
        (if buf != mtu.value then g.(txMTU := mtu.value) else g, Leaving(mtu.value))
      else (g, Leaving(buf))
    case _ => (g, pc)
  }

  function MTUAnswered(g: Shared, pc: Pc, mtu: Option<int>): (Shared, Pc) {
    match pc
    case AnsweringMTU(buf) =>
      if mtu.Some? && DEFAULT_MTU <= mtu.value
      then (g.(txMTU := Min(mtu.value, MAX_MTU)), Leaving(Min(mtu.value, MAX_MTU)))
      else (g, Leaving(buf))
    case _ => (g, pc)
  }

  function Moved(g: Shared, pc: Pc, m: Move): (Shared, Pc) {
    match m
    case Check => (g, Checked(g, pc))
    case Receive => Received(g, pc)
    case Refuse(ok) => RefusalWritten(g, pc, ok)
    case LoopFailed => LoopFailedArm(g, pc)
    case Cancel => Cancelled(g, pc)
    case Timeout => TimedOut(g, pc)
    case Drain => if pc.Draining? then (g.(rspc := None), Sending(pc.buf, pc.op)) else (g, pc)
    case Send(ok) => Sent(g, pc, ok)
    case Adopt(mtu) => Adopted(g, pc, mtu)
    case AnswerMTU(mtu) => MTUAnswered(g, pc, mtu)
  }

  /** One turn of the read loop: a PDU taken for a response goes into rspc, or is dropped when it is full. */
  function LoopTurn(g: Shared): Shared {
    if g.loopDone || g.inbound == [] then g
    else
      var p, r := g.inbound[0], g.(inbound := g.inbound[1..]);
      if p.Async? || g.rspc.Some? then r else r.(rspc := Some(p))
  }

  function PeerAnswered(g: Shared, k: nat, op: Byte): Shared {
    if k < |g.pending| && g.pending[k] < |g.reqs| && (op == ERROR_RESPONSE || op == RspOf(g.reqs[g.pending[k]]))
    then g.(inbound := g.inbound + [Answer(g.pending[k], op)], pending := g.pending[k + 1..])
    else g
  }

  /** What the loop and the peer do. */
  function Background(g: Shared, a: Action): Shared {
    match a
    case LoopRead => LoopTurn(g)
    case LoopFail => if g.loopDone then g else g.(loopDone := true, chErr := true)
    case PeerAnswer(k, op) => PeerAnswered(g, k, op)
    case PeerSend(p) => if p.Answer? || !Plausible(p) then g else g.(inbound := g.inbound + [p])
    case _ => g
  }

  function Begun(p: Purpose, buf: int): Pc {
    match p
    case ForRequest(op) => Starting(buf, op)
    case ForCommand => CommandStarting(buf)
    case ForPeerMTU => AnsweringMTU(buf)
  }

  function Step(s: State, a: Action): State {
    match a
    case Acquire(t, p) =>
      if s.slot.Some? && t !in s.threads && (p.ForRequest? ==> p.op in REQUESTS)
      then State(None, s.threads[t := Begun(p, s.slot.value)], s.g) else s
    case Advance(t, m) =>
      if t in s.threads then
        var (g, pc) := Moved(s.g, s.threads[t], m);
        State(s.slot, s.threads[t := pc], g)
      else s
    case Release(t) => // the deferred send on chTxBuf; it would block while the slot is full
      if t in s.threads && s.threads[t].Leaving? && s.slot == None
      then State(Some(s.threads[t].buf), s.threads - {t}, s.g) else s
    case _ => s.(g := Background(s.g, a))
  }

  /** The state after a schedule: any interleaving of any number of goroutines, the loop and the peer. */
  function Run(s: State, schedule: seq<Action>): State
    decreases |schedule|
  {
    if schedule == [] then s else Run(Step(s, schedule[0]), schedule[1..])
  }

  // ---- The transmit buffer ----

  /** There is one buffer: in the slot, or with the one goroutine that holds it. Its length is the
      connection's transmit MTU. */
  ghost predicate OneBuffer(s: State) {
    && DEFAULT_MTU <= s.g.txMTU <= MAX_MTU
    && match s.slot
       case Some(n) => s.threads == map[] && n == s.g.txMTU
       case None => exists t :: s.threads.Keys == {t} && s.threads[t].buf == s.g.txMTU
  }

  lemma MoveKeepsLength(g: Shared, pc: Pc, m: Move)
    requires pc.buf == g.txMTU && DEFAULT_MTU <= g.txMTU <= MAX_MTU
    ensures Moved(g, pc, m).1.buf == Moved(g, pc, m).0.txMTU && DEFAULT_MTU <= Moved(g, pc, m).0.txMTU <= MAX_MTU
  {
    hide OnWire, Answers;
    if m.Receive? || m.Refuse? || m.Check? {
      WaitKeepsLength(g, pc, m);
    }
  }

  lemma WaitKeepsLength(g: Shared, pc: Pc, m: Move)
    requires m.Receive? || m.Refuse? || m.Check?
    ensures Moved(g, pc, m).1.buf == pc.buf && Moved(g, pc, m).0.txMTU == g.txMTU
  {
    hide OnWire, Answers, RspOf;
  }

  lemma StepKeepsOneBuffer(s: State, a: Action)
    requires OneBuffer(s)
    ensures OneBuffer(Step(s, a))
  {
    hide Moved, LoopTurn, PeerAnswered;
    match a {
      case Acquire(t, p) =>
        if Step(s, a) != s {
          assert Step(s, a).threads.Keys == {t};
        }
      case Advance(t, m) =>
        if t in s.threads {
          assert Step(s, a).threads.Keys == s.threads.Keys == {t};
          MoveKeepsLength(s.g, s.threads[t], m);
        }
      case Release(t) =>
        if Step(s, a) != s {
          assert s.threads - {t} == map[];
        }
      case _ => BackgroundKeepsLength(s.g, a);
    }
  }

  lemma BackgroundKeepsLength(g: Shared, a: Action)
    ensures Background(g, a).txMTU == g.txMTU
  {
  }

  /** In every run the one buffer is never lost, doubled or of the wrong length, so that a release never
      finds the slot taken. */
  lemma {:induction false} TransmitBufferIsConserved(s: State, schedule: seq<Action>)
    requires OneBuffer(s)
    ensures OneBuffer(Run(s, schedule))
    decreases |schedule|
  {
    if schedule != [] {
      StepKeepsOneBuffer(s, schedule[0]);
      TransmitBufferIsConserved(Step(s, schedule[0]), schedule[1..]);
    }
  }

  ghost function Holder(s: State): (t: Thread)
    requires OneBuffer(s) && s.slot == None
    ensures s.threads.Keys == {t}
  {
    var t :| s.threads.Keys == {t} && s.threads[t].buf == s.g.txMTU;
    t
  }

  // ---- Poisoning, which does not depend on refusals ----

  /** Behind the bearerClosed test the bearer is open: only the goroutine that holds the buffer poisons. */
  ghost predicate OpenWhenSending(g: Shared, pc: Pc) {
    !(pc.Starting? || pc.Adopting? || pc.CommandStarting? || pc.AnsweringMTU? || pc.Leaving?) ==> !g.bearerClosed
  }

  ghost predicate NothingLate(s: State) {
    && OneBuffer(s) && s.g.lateWrites == 0
    && (s.slot == None ==> OpenWhenSending(s.g, s.threads[Holder(s)]))
  }

  lemma MoveIsNotLate(g: Shared, pc: Pc, m: Move)
    requires OpenWhenSending(g, pc)
    ensures var (r, to) := Moved(g, pc, m);
            && OpenWhenSending(r, to) && r.lateWrites == g.lateWrites
            && (g.bearerClosed ==> r.bearerClosed && r.reqs == g.reqs)
  {
  }

  lemma StepIsNotLate(s: State, a: Action)
    requires NothingLate(s)
    ensures NothingLate(Step(s, a))
    ensures s.g.bearerClosed ==> Step(s, a).g.bearerClosed && Step(s, a).g.reqs == s.g.reqs
  {
    hide Moved, LoopTurn, PeerAnswered, OpenWhenSending;
    StepKeepsOneBuffer(s, a);
    match a {
      case Acquire(t, p) =>
        BeginsOpen(s.g, p, s.slot);
      case Advance(t, m) =>
        if t in s.threads {
          MoveIsNotLate(s.g, s.threads[t], m);
        }
      case Release(t) =>
      case _ => BackgroundIsNotLate(s, a);
    }
  }

  lemma BeginsOpen(g: Shared, p: Purpose, slot: Option<int>)
    ensures slot.Some? ==> OpenWhenSending(g, Begun(p, slot.value))
  {
  }

  lemma BackgroundIsNotLate(s: State, a: Action)
    ensures var r := Background(s.g, a);
            r.lateWrites == s.g.lateWrites && r.bearerClosed == s.g.bearerClosed && r.reqs == s.g.reqs
    ensures forall pc :: OpenWhenSending(s.g, pc) ==> OpenWhenSending(Background(s.g, a), pc)
  {
    hide Background, OpenWhenSending;
    BackgroundWritesNothing(s.g, a);
    forall pc | OpenWhenSending(s.g, pc) ensures OpenWhenSending(Background(s.g, a), pc) {
      SameOpen(s.g, Background(s.g, a), pc);
    }
  }

  lemma BackgroundWritesNothing(g: Shared, a: Action)
    ensures var r := Background(g, a);
            r.lateWrites == g.lateWrites && r.bearerClosed == g.bearerClosed && r.reqs == g.reqs
  {
    hide LoopTurn, PeerAnswered, Plausible;
    PeerAndLoopWriteNothing(g, a);
  }

  lemma PeerAndLoopWriteNothing(g: Shared, a: Action)
    ensures var r := LoopTurn(g);
            r.lateWrites == g.lateWrites && r.bearerClosed == g.bearerClosed && r.reqs == g.reqs
    ensures a.PeerAnswer? ==>
              var r := PeerAnswered(g, a.k, a.op);
              r.lateWrites == g.lateWrites && r.bearerClosed == g.bearerClosed && r.reqs == g.reqs
  {
    hide RspOf;
  }

  lemma SameOpen(g: Shared, r: Shared, pc: Pc)
    requires r.bearerClosed == g.bearerClosed && OpenWhenSending(g, pc)
    ensures OpenWhenSending(r, pc)
  {
  }

  lemma {:induction false} RunIsNotLate(s: State, schedule: seq<Action>)
    requires NothingLate(s)
    ensures NothingLate(Run(s, schedule))
    ensures s.g.bearerClosed ==> Run(s, schedule).g.bearerClosed && Run(s, schedule).g.reqs == s.g.reqs
    decreases |schedule|
  {
    hide NothingLate, Step;
    if schedule != [] {
      StepIsNotLate(s, schedule[0]);
      RunIsNotLate(Step(s, schedule[0]), schedule[1..]);
    }
  }

  /** Poison is final: whatever led to it and whatever follows, refusal failures included, a poisoned
      bearer stays poisoned, and no request or command issued under the transmit buffer is written. */
  lemma PoisonIsFinal(mtu: int, before: seq<Action>, after: seq<Action>)
    requires DEFAULT_MTU <= mtu <= MAX_MTU
    ensures var s := Run(Initial(mtu), before);
            var r := Run(s, after);
            r.g.lateWrites == 0 && (s.g.bearerClosed ==> r.g.bearerClosed && r.g.reqs == s.g.reqs)
  {
    RunIsNotLate(Initial(mtu), before);
    RunIsNotLate(Run(Initial(mtu), before), after);
  }
}
