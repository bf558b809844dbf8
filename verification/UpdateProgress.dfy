/** Which calls and requests of UpdateSlot get the completion they wait for. */
module UpdateProgress {
  import opened Wrappers
  import opened UpdateSlot

  /** A call that has registered and not yet left its select has received nothing; one that waits has had
      its command written. Nor has a peer request that holds the slot, for which no channel is in use. */
  ghost predicate Unserved(s: State) {
    && (forall t :: t in s.calls && !s.calls[t].Clearing? ==>
          && (s.calls[t].id, s.calls[t].id) !in s.received
          && (s.calls[t].Waiting? ==> s.calls[t].id in s.sent))
    && (s.updateSignalPending.Some? ==> Pending(s, s.updateSignalPending.value))
  }

  ghost predicate Pending(s: State, id: Claim) {
    (id, id) !in s.received && ChanOf(s, id) == None && (s.delivering.Some? ==> s.delivering.value.0 != id)
  }

  lemma EventKeepsUnserved(s: State, a: Action)
    requires Own(s) && Slot(s) && Unserved(s) && IsEvent(a)
    ensures Unserved(Step(s, a))
  {
    hide Live;
    if s.updateSignalPending.Some? {
      assert s.calls == map[];
    }
  }

  lemma AdmitKeepsUnserved(s: State)
    requires Own(s) && Unserved(s)
    ensures Unserved(Step(s, Admit))
  {
    assert s.next !in s.sent && Pending(s, s.next);
  }

  /** Claims that stand as they did, with nothing delivered or received. */
  lemma SameUnserved(s: State, r: State)
    requires Unserved(s) && r.received == s.received && r.chans == s.chans && r.delivering == s.delivering
    requires s.sent <= r.sent && (r.updateSignalPending == s.updateSignalPending || r.updateSignalPending == None)
    requires forall t :: t in r.calls && !r.calls[t].Clearing? ==>
               && t in s.calls && !s.calls[t].Clearing? && r.calls[t].id == s.calls[t].id
               && (r.calls[t].Waiting? ==> r.calls[t].id in r.sent)
    ensures Unserved(r)
  {
  }

  lemma RequestKeepsUnserved(s: State, a: Action)
    requires Own(s) && Unserved(s) && OfRequest(a)
    ensures Unserved(Step(s, a))
  {
    hide Live, Own, Received, Returned, Routed, Completed, Delivered;
    match a {
      case Admit => AdmitKeepsUnserved(s);
      case WriteRequest => SameUnserved(s, Step(s, a));
      case ReturnRequest(_) => SameUnserved(s, Step(s, a));
      case Withdraw => SameUnserved(s, Step(s, a));
    }
  }

  lemma RegisterKeepsUnserved(s: State, t: Thread)
    requires Own(s) && Unserved(s)
    ensures Unserved(Step(s, Register(t)))
  {
    assert (s.next, s.next) !in s.received;
  }

  lemma ReceiveKeepsUnserved(s: State, t: Thread)
    requires Slot(s) && Unserved(s)
    ensures Unserved(Step(s, Receive(t)))
  {
    hide Live;
  }

  lemma CallKeepsUnserved(s: State, a: Action)
    requires Own(s) && Slot(s) && Unserved(s) && !IsEvent(a) && !OfRequest(a)
    ensures Unserved(Step(s, a))
  {
    hide Live, Own, Slot, Received, RequestReturned, Routed, Completed, Delivered;
    match a {
      case Register(t) => RegisterKeepsUnserved(s, t);
      case Receive(t) => ReceiveKeepsUnserved(s, t);
      case _ => SameUnserved(s, Step(s, a));
    }
  }

  lemma StepKeepsUnserved(s: State, a: Action)
    requires Accounted(s) && Slot(s) && Unserved(s)
    ensures Unserved(Step(s, a))
  {
    hide Own, Slot, Unserved, Step;
    if IsEvent(a) {
      EventKeepsUnserved(s, a);
    } else if OfRequest(a) {
      RequestKeepsUnserved(s, a);
    } else {
      CallKeepsUnserved(s, a);
    }
  }

  /** In every reachable state up to the first release that abandons a completion. */
  ghost predicate Served(s: State) {
    s.abandoned || (Accounted(s) && Slot(s) && Unserved(s))
  }

  lemma StepIsServed(s: State, a: Action)
    requires Served(s)
    ensures Served(Step(s, a))
  {
    hide Accounted, Slot, Unserved, Step;
    StepIsOrderly(s, a);
    AbandonmentStays(s, a);
    if !s.abandoned {
      StepKeepsUnserved(s, a);
    }
  }

  lemma {:induction false} RunsAreServed(s: State, schedule: seq<Action>)
    requires Served(s)
    ensures Served(Run(s, schedule))
    decreases |schedule|
  {
    hide Served, Step;
    if schedule != [] {
      StepIsServed(s, schedule[0]);
      RunsAreServed(Step(s, schedule[0]), schedule[1..]);
    }
  }

  lemma Reachable(schedule: seq<Action>)
    ensures Served(Run(INITIAL, schedule))
  {
    InitialIsOrderly();
    RunsAreServed(INITIAL, schedule);
  }

  /** The completion of command id has come, or can come: the controller has not refused it, and it is not
      lost with the connection. */
  predicate CanCome(s: State, id: Claim) {
    id !in s.refused && id !in s.missed && (id in s.owed ==> !s.chDone)
  }

  // ---- It is received ----

  /** The way of a completion from the controller to the claimant, from wherever it is. */
  function WayOf(id: Claim): seq<Action> {
    [Deliver, Complete(id), Route, Deliver]
  }

  /** Nothing else is in the way of the slot holder's completion. */
  lemma WayIsFree(s: State, id: Claim)
    requires Accounted(s) && Slot(s) && id in s.sent
    requires s.updateWaiter == Some(id) || s.updateSignalPending == Some(id)
    ensures s.inHand.Some? ==> s.inHand == Some(id) && s.delivering.None? && id !in s.owed
    ensures s.delivering == Some((id, id)) ==> ChanOf(s, id) == None && s.inHand == None && id !in s.owed
    ensures ChanOf(s, id) == None || ChanOf(s, id) == Some(id)
    ensures ChanOf(s, id) == Some(id) ==> id !in s.owed && s.inHand == None && s.delivering != Some((id, id))
    ensures s.delivering.Some? ==> s.delivering.value.0 == s.delivering.value.1
  {
    assert Places(s, id) == 1;
    if s.inHand.Some? {
      assert s.inHand.value in Live(s);
    }
  }

  lemma WhereItIs(s: State, id: Claim)
    requires Accounted(s) && id in s.sent && (id, id) !in s.received && id !in s.refused && id !in s.missed
    ensures id in s.owed || s.inHand == Some(id) || s.delivering == Some((id, id)) || ChanOf(s, id) == Some(id)
  {
    assert Places(s, id) == 1;
  }

  lemma FirstDelivery(s: State, id: Claim)
    requires Accounted(s) && Slot(s) && id in s.sent
    requires s.updateWaiter == Some(id) || s.updateSignalPending == Some(id)
    ensures var r := Step(s, Deliver);
            && r == s.(delivering := None, chans := r.chans)
            && ChanOf(r, id) == if s.delivering == Some((id, id)) then Some(id) else ChanOf(s, id)
  {
    hide Places;
    WayIsFree(s, id);
  }

  /** A waiter's completion gets into its channel. */
  lemma ReachesChannel(s: State, id: Claim)
    requires Accounted(s) && Slot(s) && s.updateWaiter == Some(id) && s.updateSignalPending == None
    requires id in s.sent && (id, id) !in s.received && CanCome(s, id)
    ensures var r := Run(s, WayOf(id));
            && ChanOf(r, id) == Some(id) && r.calls == s.calls && r.received == s.received
            && r.abandoned == s.abandoned && id in r.chans
  {
    hide Accounted, Slot, Places, Run;
    WayIsFree(s, id);
    WhereItIs(s, id);
    FirstDelivery(s, id);
    var s1 := Step(s, Deliver);
    var s2 := Step(s1, Complete(id));
    var s3 := Step(s2, Route);
    var s4 := Step(s3, Deliver);
    RunFollows(s, WayOf(id), [s, s1, s2, s3, s4]);
  }

  lemma RunOn(s: State, acts: seq<Action>, a: Action)
    ensures Run(s, acts + [a]) == Step(Run(s, acts), a)
    decreases |acts|
  {
    if acts == [] {
      assert acts + [a] == [a] && [a][1..] == [];
    } else {
      assert (acts + [a])[1..] == acts[1..] + [a];
      RunOn(Step(s, acts[0]), acts[1..], a);
    }
  }

  /** A call that waits for a completion that can come receives it, in a continuation that releases nothing. */
  lemma WaitingCallReceives(s: State, t: Thread, id: Claim) returns (more: seq<Action>)
    requires Served(s) && !s.abandoned && t in s.calls && s.calls[t] == Waiting(id) && CanCome(s, id)
    ensures var r := Run(s, more);
            !r.abandoned && r.received == s.received + [(id, id)] && t in r.calls && r.calls[t] == Clearing(id)
  {
    hide Accounted, Slot, Run, WayOf, CanCome;
    SlotOfCall(s, t);
    ReachesChannel(s, id);
    more := WayOf(id) + [Receive(t)];
    RunOn(s, WayOf(id), Receive(t));
  }

  /** A peer request's completion is consumed by its flag, which frees the slot. */
  lemma RequestReceives(s: State, id: Claim) returns (more: seq<Action>)
    requires Served(s) && !s.abandoned && s.updateSignalPending == Some(id) && id in s.sent && CanCome(s, id)
    ensures var r := Run(s, more);
            !r.abandoned && r.received == s.received + [(id, id)] && r.updateSignalPending == None
  {
    hide Accounted, Slot, Places, Run;
    WayIsFree(s, id);
    WhereItIs(s, id);
    FirstDelivery(s, id);
    var s1 := Step(s, Deliver);
    var s2 := Step(s1, Complete(id));
    var s3 := Step(s2, Route);
    more := [Deliver, Complete(id), Route];
    RunFollows(s, more, [s, s1, s2, s3]);
  }

  // ---- It is not ----

  lemma StaysLost(s: State, a: Action, id: Claim)
    requires Known(s) && id in s.sent && !CanCome(s, id)
    ensures id in Step(s, a).sent && !CanCome(Step(s, a), id)
  {
    hide Step, CanCome, Known;
    if IsEvent(a) {
      EventKeepsLost(s, a, id);
    } else if OfRequest(a) {
      RequestKeepsLost(s, a, id);
    } else {
      CallKeepsLost(s, a, id);
    }
  }

  lemma EventKeepsLost(s: State, a: Action, id: Claim)
    requires Known(s) && id in s.sent && !CanCome(s, id) && IsEvent(a)
    ensures id in Step(s, a).sent && !CanCome(Step(s, a), id)
  {
  }

  lemma RequestKeepsLost(s: State, a: Action, id: Claim)
    requires id in s.sent && !CanCome(s, id) && OfRequest(a)
    ensures id in Step(s, a).sent && !CanCome(Step(s, a), id)
  {
    hide Live;
  }

  lemma CallKeepsLost(s: State, a: Action, id: Claim)
    requires id in s.sent && !CanCome(s, id) && !IsEvent(a) && !OfRequest(a)
    ensures id in Step(s, a).sent && !CanCome(Step(s, a), id)
  {
    hide Live;
  }

  lemma {:induction false} LostForever(s: State, more: seq<Action>, id: Claim)
    requires Served(s) && id in s.sent && !CanCome(s, id) && !Run(s, more).abandoned
    ensures (id, id) !in Run(s, more).received
    decreases |more|
  {
    hide Served, Step, CanCome;
    if more == [] {
      LostIsNotReceived(s, id);
    } else {
      StepIsServed(s, more[0]);
      AbandonedIsForever(s, more);
      ServedIsKnown(s);
      StaysLost(s, more[0], id);
      LostForever(Step(s, more[0]), more[1..], id);
    }
  }

  lemma LostIsNotReceived(s: State, id: Claim)
    requires Served(s) && !s.abandoned && id in s.sent && !CanCome(s, id)
    ensures (id, id) !in s.received
  {
    assert Places(s, id) == 1;
  }

  lemma ServedIsKnown(s: State)
    requires Served(s) && !s.abandoned
    ensures Known(s)
  {
    hide Slot, Unserved, Accounted;
    AccountedIsKnown(s);
  }

  lemma {:induction false} AbandonedIsForever(s: State, more: seq<Action>)
    ensures s.abandoned ==> Run(s, more).abandoned
    decreases |more|
  {
    hide Step;
    if more != [] {
      AbandonmentStays(s, more[0]);
      AbandonedIsForever(Step(s, more[0]), more[1..]);
    }
  }

  /** A continuation, in which no release abandons a completion, that hands call id its own. */
  ghost predicate Hands(s: State, more: seq<Action>, id: Claim) {
    var r := Run(s, more);
    !r.abandoned && (id, id) in r.received
  }

  /** In every reachable state up to the first release that abandons a completion, a call that waits, or a
      peer request that holds the slot, can still get the completion of its command, once written, if and
      only if the controller has not refused the command and the connection did not close before the
      completion. */
  lemma WaitIsExact(schedule: seq<Action>, t: Thread)
    requires var s := Run(INITIAL, schedule); !s.abandoned && t in s.calls && s.calls[t].Waiting?
    ensures var s := Run(INITIAL, schedule);
            var id := s.calls[t].id;
            (exists more :: Hands(s, more, id))
            <==> id !in s.refused && id !in s.missed && (id in s.owed ==> !s.chDone)
  {
    hide Run, Served, Hands;
    Reachable(schedule);
    var s := Run(INITIAL, schedule);
    var id := s.calls[t].id;
    WaitingIsSent(s, t);
    if CanCome(s, id) {
      var more := WaitingCallReceives(s, t, id);
      HandedOver(s, more, id);
    } else {
      forall more ensures !Hands(s, more, id) {
        NotHandedOver(s, more, id);
      }
    }
  }

  lemma RequestIsExact(schedule: seq<Action>)
    requires var s := Run(INITIAL, schedule);
             !s.abandoned && s.updateSignalPending.Some? && s.updateSignalPending.value in s.sent
    ensures var s := Run(INITIAL, schedule);
            var id := s.updateSignalPending.value;
            (exists more :: Hands(s, more, id))
            <==> id !in s.refused && id !in s.missed && (id in s.owed ==> !s.chDone)
  {
    hide Run, Served, Hands;
    Reachable(schedule);
    var s := Run(INITIAL, schedule);
    var id := s.updateSignalPending.value;
    if CanCome(s, id) {
      var more := RequestReceives(s, id);
      HandedOver(s, more, id);
    } else {
      forall more ensures !Hands(s, more, id) {
        NotHandedOver(s, more, id);
      }
    }
  }

  lemma WaitingIsSent(s: State, t: Thread)
    requires Served(s) && !s.abandoned && t in s.calls && s.calls[t].Waiting?
    ensures s.calls[t].id in s.sent
  {
    hide Accounted, Slot;
  }

  lemma HandedOver(s: State, more: seq<Action>, id: Claim)
    requires !Run(s, more).abandoned && Run(s, more).received == s.received + [(id, id)]
    ensures Hands(s, more, id)
  {
    assert Run(s, more).received[|s.received|] == (id, id);
  }

  lemma NotHandedOver(s: State, more: seq<Action>, id: Claim)
    requires Served(s) && id in s.sent && !CanCome(s, id)
    ensures !Hands(s, more, id)
  {
    hide Served, CanCome, Run;
    if !Run(s, more).abandoned {
      LostForever(s, more, id);
    }
  }
}
