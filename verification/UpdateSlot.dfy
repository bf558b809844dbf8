/** The connection-update slot shared by application calls (linux/hci/conn.go) and peer requests
    (linux/hci/signal.go), as a step protocol against the controller's events (linux/hci/hci.go). */
module UpdateSlot {
  import opened Wrappers

  type Thread = nat

  /** Every claim of the slot has its own number: an application call's waiter channel is told apart by
      it, and so is the command written under the claim and the completion that command causes. */
  type Claim = nat

  /** UpdateParams behind its registration. */
  datatype Call =
    | Issuing(id: Claim)   // in Send
    | Waiting(id: Claim)   // in the final select
    | Clearing(id: Claim)  // the deferred clearing of updateWaiter

  /** The request handler behind its claim. */
  datatype Request =
    | Forwarding(id: Claim)   // in Send
    | Withdrawing(id: Claim)  // Send returned an error: the slot is to be released

  datatype State = State(
    updateWaiter: Option<Claim>,
    updateSignalPending: Option<Claim>,         // false, or true under a claim
    chDone: bool,                               // the connection is removed and its channels are closed
    calls: map<Thread, Call>,
    request: Option<Request>,                   // a connection handles its requests one after the other
    chans: map<Claim, Option<Claim>>,           // the waiter channels, each of capacity 1
    // the commands, by claim
    sent: set<Claim>,                           // written to the controller
    owed: set<Claim>,                           // neither refused nor completed yet
    refused: set<Claim>,
    missed: set<Claim>,                         // completed when the connection was gone
    inHand: Option<Claim>,                      // deliverConnUpdate, called for this completion
    delivering: Option<(Claim, Claim)>,         // the same before its send: the waiter, the completion
    received: seq<(Claim, Claim)>,              // which claimant got which command's completion
    abandoned: bool,                            // the slot was released with a completion still to reach it
    next: Claim
  )

  const INITIAL := State(None, None, false, map[], None, map[], {}, {}, {}, {}, None, None, [], false, 0)

  /** What Send returns does not depend on what the controller does with the command: Send may time out on
      a command that is executed, then or later, and a completion may come before Send has returned. */
  datatype Action =
    | Register(t: Thread)             // UpdateParams' claim
    | Admit                           // the request handler's
    | Write(t: Thread)                // Send writes the call's command
    | WriteRequest
    | Return(t: Thread, ok: bool)     // Send returns to the call
    | ReturnRequest(ok: bool)
    | Refuse(c: Claim)                // the controller does not execute a command
    | Complete(c: Claim)              // a completion event, up to the call of deliverConnUpdate
    | Route                           // deliverConnUpdate under muUpdate
    | Deliver                         // its non-blocking send
    | Receive(t: Thread)
    | GiveUp(t: Thread)               // ctx, chDone or the timer
    | Clear(t: Thread)
    | Withdraw
    | Close

  function Busy(s: State): bool {
    s.updateWaiter.Some? || s.updateSignalPending.Some?
  }

  function At(s: State, t: Thread, call: Call): State {
    s.(calls := s.calls[t := call])
  }

  /** The completions that can still reach the slot. Once the connection is gone that is only one that was
      looked up before. */
  function Live(s: State): set<Claim> {
    (if s.inHand.Some? then {s.inHand.value} else {}) + (if s.chDone then {} else s.owed)
  }

  function Written(s: State, id: Claim): State {
    if id in s.sent then s else s.(sent := s.sent + {id}, owed := s.owed + {id})
  }

  /** Send returns: nil only for a command that was written. */
  function Returned(s: State, t: Thread, ok: bool): State
    requires t in s.calls
  {
    match s.calls[t]
    case Issuing(id) => if !ok then At(s, t, Clearing(id)) else if id in s.sent then At(s, t, Waiting(id)) else s
    case _ => s
  }

  function RequestReturned(s: State, ok: bool): State {
    match s.request
    case Some(Forwarding(id)) =>
      if !ok then s.(request := Some(Withdrawing(id))) else if id in s.sent then s.(request := None) else s
    case _ => s
  }

  /** The event loop handles one completion at a time. */
  function Completed(s: State, c: Claim): State {
    if s.inHand.Some? || s.delivering.Some? || c !in s.owed then s
    else if s.chDone then s.(owed := s.owed - {c}, missed := s.missed + {c})
    else s.(owed := s.owed - {c}, inHand := Some(c))
  }

  /** A completion owed to a peer request is consumed by its flag; otherwise it is for the waiter, if any. */
  function Routed(s: State): State {
    match s.inHand
    case None => s
    case Some(c) =>
      if s.updateSignalPending.Some? then
        s.(inHand := None, updateSignalPending := None, received := s.received + [(s.updateSignalPending.value, c)])
      else if s.updateWaiter.Some? then s.(inHand := None, delivering := Some((s.updateWaiter.value, c)))
      else s.(inHand := None)
  }

  function Delivered(s: State): State {
    match s.delivering
    case None => s
    case Some((w, c)) =>
      if w in s.chans && s.chans[w].Some? then s.(delivering := None)
      else s.(delivering := None, chans := s.chans[w := Some(c)])
  }

  function Received(s: State, t: Thread): State
    requires t in s.calls
  {
    match s.calls[t]
    case Waiting(id) =>
      if id in s.chans && s.chans[id].Some? then
        At(s, t, Clearing(id)).(received := s.received + [(id, s.chans[id].value)], chans := s.chans[id := None])
      else s
    case _ => s
  }

  /** The claim whose slot a step releases. */
  function Releases(s: State, a: Action): Option<Claim> {
    match a
    case Clear(t) => if t in s.calls && s.calls[t].Clearing? then Some(s.calls[t].id) else None
    case Withdraw => if s.request.Some? && s.request.value.Withdrawing? then Some(s.request.value.id) else None
    case _ => None
  }

  function Released(s: State, a: Action): State {
    match Releases(s, a)
    case None => s
    case Some(id) =>
      var r := s.(abandoned := s.abandoned || id in Live(s));
      match a
      case Clear(t) => r.(calls := s.calls - {t}, updateWaiter := None)
      case _ => r.(request := None, updateSignalPending := None)
  }

  function Step(s: State, a: Action): State {
    match a
    case Register(t) =>
      if t in s.calls || Busy(s) || s.chDone then s
      else
        At(s, t, Issuing(s.next)).(updateWaiter := Some(s.next), chans := s.chans[s.next := None],
                                   next := s.next + 1)
    case Admit =>
      if s.request.Some? || Busy(s) then s
      else s.(request := Some(Forwarding(s.next)), updateSignalPending := Some(s.next), next := s.next + 1)
    case Write(t) => if t in s.calls && s.calls[t].Issuing? then Written(s, s.calls[t].id) else s
    case WriteRequest =>
      if s.request.Some? && s.request.value.Forwarding? then Written(s, s.request.value.id) else s
    case Return(t, ok) => if t in s.calls then Returned(s, t, ok) else s
    case ReturnRequest(ok) => RequestReturned(s, ok)
    case Refuse(c) => if c in s.owed then s.(owed := s.owed - {c}, refused := s.refused + {c}) else s
    case Complete(c) => Completed(s, c)
    case Route => Routed(s)
    case Deliver => Delivered(s)
    case Receive(t) => if t in s.calls then Received(s, t) else s
    case GiveUp(t) => if t in s.calls && s.calls[t].Waiting? then At(s, t, Clearing(s.calls[t].id)) else s
    case Clear(_) => Released(s, a)
    case Withdraw => Released(s, a)
    case Close => s.(chDone := true)
  }

  function Run(s: State, schedule: seq<Action>): State
    decreases |schedule|
  {
    if schedule == [] then s else Run(Step(s, schedule[0]), schedule[1..])
  }

  // ---- Exclusion ----

  ghost predicate Exclusive(s: State) {
    !(s.updateWaiter.Some? && s.updateSignalPending.Some?)
  }

  predicate IsEvent(a: Action) {
    a.Refuse? || a.Complete? || a.Route? || a.Deliver? || a.Close?
  }

  predicate OfRequest(a: Action) {
    a.Admit? || a.WriteRequest? || a.ReturnRequest? || a.Withdraw?
  }

  lemma EventExcludes(s: State, a: Action)
    requires Exclusive(s) && IsEvent(a)
    ensures Exclusive(Step(s, a))
  {
  }

  lemma RequestExcludes(s: State, a: Action)
    requires Exclusive(s) && OfRequest(a)
    ensures Exclusive(Step(s, a))
  {
    hide Live;
  }

  lemma CallExcludes(s: State, a: Action)
    requires Exclusive(s) && !IsEvent(a) && !OfRequest(a)
    ensures Exclusive(Step(s, a))
  {
    hide Live;
  }

  lemma StepExcludes(s: State, a: Action)
    requires Exclusive(s)
    ensures Exclusive(Step(s, a))
  {
    hide Step, Exclusive;
    if IsEvent(a) {
      EventExcludes(s, a);
    } else if OfRequest(a) {
      RequestExcludes(s, a);
    } else {
      CallExcludes(s, a);
    }
  }

  /** In every interleaving, abandoned completions included, the two claims are never held together. */
  lemma {:induction false} ClaimsExclude(s: State, schedule: seq<Action>)
    requires Exclusive(s)
    ensures Exclusive(Run(s, schedule))
    decreases |schedule|
  {
    hide Step, Exclusive;
    if schedule != [] {
      StepExcludes(s, schedule[0]);
      ClaimsExclude(Step(s, schedule[0]), schedule[1..]);
    }
  }

  // ---- Completions reach their claimants ----

  function ChanOf(s: State, id: Claim): Option<Claim> {
    if id in s.chans then s.chans[id] else None
  }

  function One(b: bool): nat {
    if b then 1 else 0
  }

  /** Where a command's completion is, counted: still to come or never to come (refused, or the connection
      gone before), in deliverConnUpdate's hands, due for the claimant's own channel, in that channel, or
      received by the claimant. */
  ghost function Places(s: State, id: Claim): nat {
    One(id in s.owed) + One(id in s.refused) + One(id in s.missed) + One(s.inHand == Some(id))
    + One(s.delivering == Some((id, id))) + One(ChanOf(s, id) == Some(id)) + multiset(s.received)[(id, id)]
  }

  /** Each command's completion is in exactly one of those places; whatever was received was the claimant's
      own; and a send that is due finds its channel empty, so that nothing is dropped. */
  ghost predicate Accounted(s: State) {
    Counted(s) && Own(s)
  }

  ghost predicate Counted(s: State) {
    forall id :: id in s.sent ==> Places(s, id) == 1
  }

  ghost predicate Own(s: State) {
    && (forall i :: 0 <= i < |s.received| ==> s.received[i].0 == s.received[i].1 && s.received[i].1 in s.sent)
    && (s.delivering.Some? ==>
          && s.delivering.value.0 == s.delivering.value.1 && s.delivering.value.1 in s.sent
          && ChanOf(s, s.delivering.value.0) == None)
    && (forall id :: id in s.chans && s.chans[id].Some? ==> s.chans[id] == Some(id) && id in s.sent)
    && s.owed + s.refused + s.missed <= s.sent && (s.inHand.Some? ==> s.inHand.value in s.sent)
    && (forall id :: id in s.sent ==> id < s.next)
  }

  /** Who holds the slot, and that no completion is on its way to it but the holder's. A request whose
      completion came before its Send returned holds it no more. */
  ghost predicate Slot(s: State) {
    && Exclusive(s) && (s.inHand.None? || s.delivering.None?)
    && (forall c :: c in Live(s) ==> s.updateWaiter == Some(c) || s.updateSignalPending == Some(c))
    && (s.calls == map[] ==> s.updateWaiter == None)
    && (forall t :: t in s.calls ==> s.updateWaiter == Some(s.calls[t].id) && s.calls.Keys == {t})
    && (s.request.Some? ==> AtWork(s, s.request.value.id))
    && (s.updateWaiter.Some? ==> s.updateWaiter.value < s.next)
    && (s.updateSignalPending.Some? ==> s.updateSignalPending.value < s.next)
  }

  ghost predicate AtWork(s: State, id: Claim) {
    && id < s.next
    && (s.updateSignalPending == Some(id)
        || (s.updateSignalPending == None && s.updateWaiter != Some(id) && id in s.sent))
  }

  ghost predicate Orderly(s: State) {
    s.abandoned || (Accounted(s) && Slot(s))
  }

  // Each kind of step keeps the account.

  /** Steps that move no completion keep the account. */
  lemma SameAccount(s: State, r: State)
    requires Accounted(s) && r.next >= s.next && r.sent == s.sent && r.owed == s.owed && r.refused == s.refused
    requires r.missed == s.missed && r.inHand == s.inHand && r.delivering == s.delivering
    requires r.received == s.received && forall id :: ChanOf(r, id) == ChanOf(s, id)
    ensures Accounted(r)
  {
    forall id | id in r.sent ensures Places(r, id) == 1 {
      assert Places(s, id) == 1;
    }
    forall id | id in r.chans && r.chans[id].Some? ensures r.chans[id] == Some(id) && id in r.sent {
      assert ChanOf(r, id) == ChanOf(s, id);
    }
  }

  /** A command that is written is newly owed, and nowhere else. */
  lemma WriteAccounts(s: State, id: Claim)
    requires Accounted(s) && id < s.next
    ensures Accounted(Written(s, id))
  {
    if id !in s.sent {
      var r := Written(s, id);
      assert (id, id) !in s.received && ChanOf(s, id) != Some(id);
      forall c | c in r.sent ensures Places(r, c) == 1 {
        assert c != id ==> Places(s, c) == 1;
      }
    }
  }

  lemma RefuseAccounts(s: State, c: Claim)
    requires Accounted(s)
    ensures Accounted(Step(s, Refuse(c)))
  {
    hide Own;
    var r := Step(s, Refuse(c));
    forall id | id in r.sent ensures Places(r, id) == 1 {
      assert Places(s, id) == 1;
    }
    assert Own(r) by {
      RefuseOwn(s, c);
    }
  }

  lemma RefuseOwn(s: State, c: Claim)
    requires Own(s)
    ensures Own(Step(s, Refuse(c)))
  {
  }

  lemma CompleteAccounts(s: State, c: Claim)
    requires Accounted(s)
    ensures Accounted(Completed(s, c))
  {
    hide Own;
    var r := Completed(s, c);
    forall id | id in r.sent ensures Places(r, id) == 1 {
      assert Places(s, id) == 1;
    }
    assert Own(r) by {
      CompleteOwn(s, c);
    }
  }

  lemma CompleteOwn(s: State, c: Claim)
    requires Own(s)
    ensures Own(Completed(s, c))
  {
  }

  lemma RouteAccounts(s: State)
    requires Accounted(s) && Slot(s)
    ensures Accounted(Routed(s))
  {
    hide Own;
    if s.inHand.Some? {
      var c, r := s.inHand.value, Routed(s);
      assert c in Live(s) && c in s.sent by {
        OwnInHand(s);
      }
      assert Places(s, c) == 1;
      forall id | id in r.sent ensures Places(r, id) == 1 {
        assert Places(s, id) == 1;
      }
      RouteOwn(s);
    }
  }

  lemma OwnInHand(s: State)
    requires Own(s)
    ensures s.inHand.Some? ==> s.inHand.value in s.sent
  {
  }

  lemma RouteOwn(s: State)
    requires Own(s) && s.inHand.Some? && ChanOf(s, s.inHand.value) != Some(s.inHand.value)
    requires s.updateWaiter == s.inHand || s.updateSignalPending == s.inHand
    requires Exclusive(s)
    ensures Own(Routed(s))
  {
  }

  lemma DeliverAccounts(s: State)
    requires Accounted(s)
    ensures Accounted(Delivered(s)) && Delivered(s) == s.(delivering := None, chans := Delivered(s).chans)
  {
    if s.delivering.Some? {
      var r := Delivered(s);
      forall id | id in r.sent ensures Places(r, id) == 1 {
        assert Places(s, id) == 1;
      }
    }
  }

  lemma ReceiveAccounts(s: State, t: Thread)
    requires Accounted(s) && t in s.calls
    ensures Accounted(Received(s, t))
  {
    var r := Received(s, t);
    if r != s {
      forall c | c in r.sent ensures Places(r, c) == 1 {
        assert Places(s, c) == 1;
      }
    }
  }

  lemma IdsAreKnown(s: State)
    requires Slot(s)
    ensures forall t :: t in s.calls ==> s.calls[t].id < s.next
    ensures s.request.Some? ==> s.request.value.id < s.next
  {
  }

  lemma StepAccounts(s: State, a: Action)
    requires Accounted(s) && Slot(s)
    ensures Accounted(Step(s, a))
  {
    hide Accounted, Slot, Live, Routed, Completed, Delivered, Received, Written;
    match a {
      case Write(t) =>
        if t in s.calls {
          IdsAreKnown(s);
          WriteAccounts(s, s.calls[t].id);
        }
      case WriteRequest =>
        if s.request.Some? {
          IdsAreKnown(s);
          WriteAccounts(s, s.request.value.id);
        }
      case Refuse(c) => RefuseAccounts(s, c);
      case Complete(c) => CompleteAccounts(s, c);
      case Route => RouteAccounts(s);
      case Deliver => DeliverAccounts(s);
      case Receive(t) => if t in s.calls { ReceiveAccounts(s, t); }
      case Register(t) => RegisterAccounts(s, t);
      case _ => SameAccount(s, Step(s, a));
    }
  }

  lemma RegisterAccounts(s: State, t: Thread)
    requires Accounted(s)
    ensures Accounted(Step(s, Register(t)))
  {
    assert s.next !in s.sent;
    assert ChanOf(s, s.next) == None;
    SameAccount(s, Step(s, Register(t)));
  }

  // ... and says who holds the slot.

  ghost predicate Known(s: State) {
    && s.owed <= s.sent && (s.inHand.Some? ==> s.inHand.value in s.sent && s.inHand.value !in s.owed)
    && (forall id :: id in s.sent ==> id < s.next)
  }

  lemma KnownLive(s: State)
    requires Known(s)
    ensures forall id :: id in Live(s) ==> id in s.sent && id < s.next
  {
  }

  lemma RegisterKeepsSlot(s: State, t: Thread)
    requires Known(s) && Slot(s)
    ensures Slot(Step(s, Register(t)))
  {
    hide Live;
    KnownLive(s);
    var r := Step(s, Register(t));
    if r != s {
      assert Live(r) == Live(s) by {
        LiveIs(s, r);
      }
      assert s.calls == map[] && r.calls.Keys == {t};
    }
  }

  lemma LiveIs(s: State, r: State)
    requires r.inHand == s.inHand && r.chDone == s.chDone && r.owed == s.owed
    ensures Live(r) == Live(s)
  {
  }

  /** A step of a call that keeps its claim. */
  lemma CallGoesOn(s: State, r: State, t: Thread, call: Call)
    requires Slot(s) && t in s.calls && call.id == s.calls[t].id
    requires r == At(s, t, call).(received := r.received, chans := r.chans)
    ensures Slot(r)
  {
    hide Live;
    LiveIs(s, r);
    assert r.calls.Keys == s.calls.Keys;
  }

  lemma WriteKeepsSlot(s: State, id: Claim)
    requires Slot(s) && (s.updateWaiter == Some(id) || s.updateSignalPending == Some(id) || id in s.sent)
    ensures Slot(Written(s, id))
  {
  }

  lemma CallKeepsSlot(s: State, a: Action)
    requires Known(s) && Slot(s)
    requires a.Register? || a.Write? || a.Return? || a.Receive? || a.GiveUp?
    ensures Slot(Step(s, a))
  {
    hide Slot, Live;
    var r := Step(s, a);
    if a.Register? {
      RegisterKeepsSlot(s, a.t);
    } else if a.t in s.calls {
      SlotOfCall(s, a.t);
      if a.Write? {
        WriteKeepsSlot(s, s.calls[a.t].id);
      } else if r != s {
        CallGoesOn(s, r, a.t, r.calls[a.t]);
      }
    }
  }

  lemma SlotOfCall(s: State, t: Thread)
    requires Slot(s) && t in s.calls
    ensures s.updateWaiter == Some(s.calls[t].id) && s.updateSignalPending == None && s.calls.Keys == {t}
  {
  }

  lemma ClearKeepsSlot(s: State, t: Thread)
    requires Slot(s) && !Step(s, Clear(t)).abandoned
    ensures Slot(Step(s, Clear(t)))
  {
    hide Live;
    var r := Step(s, Clear(t));
    LiveIs(s, r);
    if r != s {
      assert r.calls == map[];
    }
  }

  lemma AdmitKeepsSlot(s: State)
    requires Known(s) && Slot(s)
    ensures Slot(Step(s, Admit))
  {
    hide Live;
    KnownLive(s);
    LiveIs(s, Step(s, Admit));
  }

  lemma ReturnKeepsSlot(s: State, ok: bool)
    requires Slot(s)
    ensures Slot(RequestReturned(s, ok))
  {
    hide Live;
    LiveIs(s, RequestReturned(s, ok));
  }

  lemma SlotOfRequest(s: State)
    requires Slot(s) && s.request.Some?
    ensures s.updateSignalPending == Some(s.request.value.id) || s.request.value.id in s.sent
  {
  }

  lemma WithdrawKeepsSlot(s: State)
    requires Slot(s) && !Step(s, Withdraw).abandoned
    ensures Slot(Step(s, Withdraw))
  {
    hide Live;
    LiveIs(s, Step(s, Withdraw));
  }

  lemma RequestKeepsSlot(s: State, a: Action)
    requires Known(s) && Slot(s) && OfRequest(a) && !Step(s, a).abandoned
    ensures Slot(Step(s, a))
  {
    hide Slot, Known, Live, RequestReturned, Written, Released;
    match a {
      case Admit => AdmitKeepsSlot(s);
      case WriteRequest =>
        if s.request.Some? {
          SlotOfRequest(s);
          WriteKeepsSlot(s, s.request.value.id);
        }
      case ReturnRequest(ok) => ReturnKeepsSlot(s, ok);
      case _ => WithdrawKeepsSlot(s);
    }
  }

  /** Fewer completions under way leave the slot as it is. */
  lemma LessUnderWay(s: State, r: State)
    requires Slot(s) && Live(r) <= Live(s) && (r.inHand.None? || r.delivering.None?) && s.sent <= r.sent
    requires r.updateWaiter == s.updateWaiter && r.updateSignalPending == s.updateSignalPending
    requires r.calls == s.calls && r.request == s.request && r.next == s.next
    ensures Slot(r)
  {
    hide Live;
  }

  lemma RouteKeepsSlot(s: State)
    requires Known(s) && Slot(s)
    ensures Slot(Routed(s))
  {
    if s.inHand.Some? {
      assert s.inHand.value in Live(s);
      assert Live(Routed(s)) == {};
    }
  }

  lemma EventKeepsSlot(s: State, a: Action)
    requires Known(s) && Slot(s) && IsEvent(a)
    ensures Slot(Step(s, a))
  {
    hide Known, Slot, Routed;
    if a.Route? {
      RouteKeepsSlot(s);
    } else {
      OneUnderWay(s);
      LessUnderWay(s, Step(s, a));
    }
  }

  lemma OneUnderWay(s: State)
    requires Slot(s)
    ensures s.inHand.None? || s.delivering.None?
  {
  }

  lemma StepIsOrderly(s: State, a: Action)
    requires Orderly(s)
    ensures Orderly(Step(s, a))
  {
    hide Slot, Accounted, Known, Step;
    AbandonmentStays(s, a);
    if !Step(s, a).abandoned {
      StepAccounts(s, a);
      AccountedIsKnown(s);
      if IsEvent(a) {
        EventKeepsSlot(s, a);
      } else if OfRequest(a) {
        RequestKeepsSlot(s, a);
      } else if a.Clear? {
        ClearKeepsSlot(s, a.t);
      } else {
        CallKeepsSlot(s, a);
      }
    }
  }

  lemma AccountedIsKnown(s: State)
    requires Accounted(s)
    ensures Known(s)
  {
    if s.inHand.Some? {
      assert Places(s, s.inHand.value) == 1;
    }
  }

  lemma AbandonmentStays(s: State, a: Action)
    ensures s.abandoned ==> Step(s, a).abandoned
  {
    hide Live;
  }

  lemma {:induction false} RunsAreOrderly(s: State, schedule: seq<Action>)
    requires Orderly(s)
    ensures Orderly(Run(s, schedule))
    decreases |schedule|
  {
    hide Orderly, Step;
    if schedule != [] {
      StepIsOrderly(s, schedule[0]);
      RunsAreOrderly(Step(s, schedule[0]), schedule[1..]);
    }
  }

  /** In every run in which the slot is never released with a completion still to reach it, and the
      controller completes each command at most once: each command's completion is owed or will never
      come, is on its way to its own claimant, waits in its claimant's channel or was received by it,
      exactly one of these, and none is dropped or received by another. */
  lemma CompletionsAreAttributed(schedule: seq<Action>)
    requires !Run(INITIAL, schedule).abandoned
    ensures Accounted(Run(INITIAL, schedule))
  {
    InitialIsOrderly();
    RunsAreOrderly(INITIAL, schedule);
  }

  lemma InitialIsOrderly()
    ensures Orderly(INITIAL)
  {
  }

  // ---- When a release does harm ----

  /** The state after a release, with the record of what it abandoned wiped. */
  function Forgotten(s: State, a: Action): State {
    Step(s, a).(abandoned := false)
  }

  /** A continuation, in which no further release abandons a completion, that hands a completion to a
      claimant whose command did not cause it. */
  ghost predicate Misattributes(s: State, a: Action, more: seq<Action>) {
    var r := Run(Forgotten(s, a), more);
    !r.abandoned && exists i :: 0 <= i < |r.received| && r.received[i].0 != r.received[i].1
  }

  /** A request handler that is still at work, though its completion has come, is out of the way. */
  lemma RequestEnds(s: State)
    requires s.request.Some? ==> s.request.value.id in s.sent && s.request.value.id !in Live(s)
    requires s.updateSignalPending == None && !s.abandoned
    ensures Step(Step(s, ReturnRequest(true)), Withdraw) == s.(request := None)
  {
    var r := Step(s, ReturnRequest(true));
    if s.request.Some? && s.request.value.Withdrawing? {
      assert r == s;
    } else {
      assert r == s.(request := None);
    }
  }

  /** The abandoned completion is taken for that of a peer request that claims the slot next. */
  lemma RequestTakes(s: State, id: Claim)
    requires id in Live(s) && id < s.next && s.delivering == None && s.request == None
    requires s.updateWaiter == None && s.updateSignalPending == None && !s.abandoned
    requires s.inHand.Some? ==> s.inHand == Some(id)
    ensures var r := Step(Step(Step(s, Admit), Complete(id)), Route);
            !r.abandoned && r.received != [] && r.received[|r.received| - 1] == (s.next, id)
  {
    var s1 := Step(s, Admit);
    var s2 := Step(s1, Complete(id));
    assert s2.inHand == Some(id) && s2.updateSignalPending == Some(s.next);
  }

  /** Behind a release the slot is free, a handler still at work has had its completion, and whatever can
      still reach the slot is the released claim's. */
  lemma ReleaseFrees(s: State, a: Action)
    requires Known(s) && Slot(s) && Releases(s, a).Some? && Releases(s, a).value in Live(s)
    ensures var f, id := Forgotten(s, a), Releases(s, a).value;
            && id in Live(f) && id < f.next && f.inHand == s.inHand && f.delivering == s.delivering && !f.abandoned
            && f.updateWaiter == None && f.updateSignalPending == None && (f.inHand.Some? ==> f.inHand == Some(id))
            && (f.request.Some? ==> f.request.value.id in f.sent && f.request.value.id !in Live(f))
  {
    var f, id := Forgotten(s, a), Releases(s, a).value;
    KnownLive(s);
    LiveIs(s, f);
    assert s.inHand.Some? ==> s.inHand.value in Live(s);
  }

  lemma AbandonedMisattributes(s: State, a: Action) returns (more: seq<Action>)
    requires Known(s) && Slot(s) && Releases(s, a).Some? && Releases(s, a).value in Live(s)
    ensures Misattributes(s, a, more)
  {
    hide Known, Slot, Live, Releases, Forgotten;
    var f, id := Forgotten(s, a), Releases(s, a).value;
    ReleaseFrees(s, a);
    more := [Deliver, ReturnRequest(true), Withdraw, Admit, Complete(id), Route];
    var f1 := Step(f, Deliver);
    assert f1 == f.(delivering := None, chans := f1.chans);
    LiveIs(f, f1);
    RequestEnds(f1);
    var f2 := f1.(request := None);
    LiveIs(f1, f2);
    RequestTakes(f2, id);
    RunOfSix(f, more);
    var r := Run(f, more);
    assert r.received[|r.received| - 1] == (f2.next, id);
  }

  lemma OthersMisattributeNothing(s: State, a: Action, more: seq<Action>)
    requires Orderly(s) && !s.abandoned && Releases(s, a).Some? && Releases(s, a).value !in Live(s)
    ensures !Misattributes(s, a, more)
  {
    hide Slot, Accounted, Live;
    StepIsOrderly(s, a);
    assert Forgotten(s, a) == Step(s, a);
    RunsAreOrderly(Forgotten(s, a), more);
    var r := Run(Forgotten(s, a), more);
    if !r.abandoned {
      NoneMisattributed(r);
    }
  }

  lemma NoneMisattributed(s: State)
    requires Accounted(s)
    ensures forall i :: 0 <= i < |s.received| ==> s.received[i].0 == s.received[i].1
  {
  }

  /** A release of the slot in a reachable state, by a call or by the request handler and for whatever
      reason, leads to a completion at the wrong claimant, in some continuation in which no further release
      abandons one, if and only if its own completion can still reach the slot. */
  lemma ReleaseIsExact(schedule: seq<Action>, a: Action)
    requires var s := Run(INITIAL, schedule); !s.abandoned && Releases(s, a).Some?
    ensures var s := Run(INITIAL, schedule);
            Releases(s, a).value in Live(s) <==> exists more :: Misattributes(s, a, more)
  {
    hide Run, Orderly, Misattributes, Releases, Live;
    InitialIsOrderly();
    RunsAreOrderly(INITIAL, schedule);
    var s := Run(INITIAL, schedule);
    if Releases(s, a).value in Live(s) {
      OrderlyMeans(s);
      AccountedIsKnown(s);
      var more := AbandonedMisattributes(s, a);
    } else {
      forall more ensures !Misattributes(s, a, more) {
        OthersMisattributeNothing(s, a, more);
      }
    }
  }

  lemma OrderlyMeans(s: State)
    requires Orderly(s) && !s.abandoned
    ensures Accounted(s) && Slot(s)
  {
  }

  // ---- Runs that come to such a release ----

  /** A call that gives up, or whose Send times out, before the completion of its command has come. */
  lemma CallHarmIsReachable(waits: bool)
    ensures var s := Run(INITIAL, [Register(0), Write(0), Return(0, waits), GiveUp(0)]);
            !s.abandoned && Releases(s, Clear(0)) == Some(0) && 0 in Live(s)
  {
    hide Run;
    var s1 := Step(INITIAL, Register(0));
    var s2 := Step(s1, Write(0));
    var s3 := Step(s2, Return(0, waits));
    var acts := [Register(0), Write(0), Return(0, waits), GiveUp(0)];
    RunFollows(INITIAL, acts, [INITIAL, s1, s2, s3, Step(s3, GiveUp(0))]);
  }

  const TIMED_OUT: seq<Action> := [Admit, WriteRequest, ReturnRequest(false)]

  const TIMED_OUT_STATE :=
    State(None, Some(0), false, map[], Some(Withdrawing(0)), map[], {0}, {0}, {}, {}, None, None, [], false, 1)

  /** The handler of a peer request whose Send times out on a command the controller executes ... */
  lemma RequestHarmIsReachable()
    ensures Run(INITIAL, TIMED_OUT) == TIMED_OUT_STATE
    ensures Releases(TIMED_OUT_STATE, Withdraw) == Some(0) && 0 in Live(TIMED_OUT_STATE)
  {
    hide Run;
    var s1 := Step(INITIAL, Admit);
    var s2 := Step(s1, WriteRequest);
    RunFollows(INITIAL, TIMED_OUT, [INITIAL, s1, s2, TIMED_OUT_STATE]);
  }

  /** ... from where the late completion goes to the call that has the slot by then. */
  lemma LateCompletionIsMistaken()
    ensures var more := [Withdraw, Register(1), Write(1), Return(1, true), Complete(0), Route, Deliver, Receive(1)];
            Run(Run(INITIAL, TIMED_OUT), more).received == [(1, 0)]
  {
    hide Run, TIMED_OUT;
    RequestHarmIsReachable();
    var issued := State(Some(1), None, false, map[1 := Issuing(1)], None, map[1 := None],
                        {0, 1}, {0, 1}, {}, {}, None, None, [], true, 2);
    var more := [Withdraw, Register(1), Write(1), Return(1, true), Complete(0), Route, Deliver, Receive(1)];
    var s1 := Step(TIMED_OUT_STATE, Withdraw);
    var s2 := Step(s1, Register(1));
    assert Step(s2, Write(1)) == issued;
    var t1 := Step(issued, Return(1, true));
    var t2 := Step(t1, Complete(0));
    var t3 := Step(t2, Route);
    var t4 := Step(t3, Deliver);
    RunFollows(TIMED_OUT_STATE, more, [TIMED_OUT_STATE, s1, s2, issued, t1, t2, t3, t4, Step(t4, Receive(1))]);
  }

  /** A run whose states are given one by one. */
  lemma {:induction false} RunFollows(s: State, acts: seq<Action>, trace: seq<State>)
    requires |trace| == |acts| + 1 && trace[0] == s
    requires forall i :: 0 <= i < |acts| ==> trace[i + 1] == Step(trace[i], acts[i])
    ensures Run(s, acts) == trace[|acts|]
    decreases |acts|
  {
    hide Step;
    if acts != [] {
      forall i | 0 <= i < |acts[1..]| ensures trace[1..][i + 1] == Step(trace[1..][i], acts[1..][i]) {
        assert trace[(i + 1) + 1] == Step(trace[i + 1], acts[i + 1]);
      }
      assert trace[1] == Step(trace[0], acts[0]);
      RunFollows(trace[1], acts[1..], trace[1..]);
    }
  }

  lemma RunOfSix(s: State, acts: seq<Action>)
    requires |acts| == 6
    ensures Run(s, acts)
         == Step(Step(Step(Step(Step(Step(s, acts[0]), acts[1]), acts[2]), acts[3]), acts[4]), acts[5])
  {
    hide Step, Run;
    var s1 := Step(s, acts[0]);
    var s2 := Step(s1, acts[1]);
    var s3 := Step(s2, acts[2]);
    var s4 := Step(s3, acts[3]);
    var s5 := Step(s4, acts[4]);
    RunFollows(s, acts, [s, s1, s2, s3, s4, s5, Step(s5, acts[5])]);
  }
}
