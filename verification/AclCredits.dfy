/** The shared ACL transmit pool (linux/hci/buffer.go), the fragment trains that draw on it
    (linux/hci/conn.go) and the events that refill it (linux/hci/hci.go), as a step protocol. */
module AclCredits {
  import opened Wrappers

  type Buf = nat
  type ConnId = nat
  type Thread = nat

  /** Where a buffer is: in the pool's channel, in a connection's in-flight channel, or taken from one
      and not yet sent to the other, by a goroutine or by the event loop. */
  datatype Place = InPool | InFlight(c: ConnId) | InHand(t: Thread) | WithLoop

  /** A connection's txCredits and chDone, and counts of what happened to its packets. */
  datatype Conn = Conn(
    mu: Option<Thread>,
    sent: seq<Buf>,
    done: bool,
    reclaimed: bool,   // a ReclaimAll that followed closeChans has finished
    pushed: nat,       // buffers enqueued in sent
    flushed: nat,      // packets written to the controller
    acked: nat,        // packets the controller reported completed
    puts: nat,         // calls of Put
    popped: nat,       // buffers Put took from sent
    drained: nat       // buffers ReclaimAll took from sent
  )

  const NEW_CONN := Conn(None, [], false, false, 0, 0, 0, 0, 0, 0)

  datatype Pc =
    // writePDU with `rest` bytes to go
    | Locking(c: ConnId, rest: nat)
    | Checking(c: ConnId, rest: nat)
    | Waiting(c: ConnId, rest: nat)            // in GetTimeout's select
    | Got(c: ConnId, b: Buf, rest: nat)        // before the buffer is enqueued in sent
    | Filling(c: ConnId, b: Buf, rest: nat)
    | Flushing(c: ConnId, b: Buf, rest: nat)   // filled; `rest` is what follows this fragment
    | Unlocking(c: ConnId)
    // a teardown: closeChans, then ReclaimAll
    | Closing(c: ConnId)
    | ReclaimLocking(c: ConnId)
    | Draining(c: ConnId)
    | Returning(c: ConnId, b: Buf)

  /** The event loop inside handleNumberOfCompletedPackets: `left` Puts to do on c, and the buffer the
      current one has taken. */
  datatype Acks = Acks(c: ConnId, left: nat, hand: Option<Buf>)

  datatype State = State(
    cnt: nat, size: nat,
    pool: seq<Buf>,
    caps: seq<nat>,               // the buffers' capacities
    at: seq<Place>,
    conns: map<ConnId, Conn>,
    threads: map<Thread, Pc>,
    acks: Option<Acks>
  )

  /** NewPool(size, cnt). */
  function Initial(size: nat, cnt: nat): State {
    State(cnt, size, seq(cnt, i => i), seq(cnt, _ => size), seq(cnt, _ => InPool), map[], map[], None)
  }

  /** What a goroutine does next. */
  datatype Move =
    | Lock
    | Check             // the chDone test behind the lock
    | Acquire           // GetTimeout's pool arm
    | GiveUp            // its done and timer arms
    | Enqueue
    | Fill
    | Flush(ok: bool)   // the second chDone test and the socket write
    | Unlock
    | Close
    | Drain
    | Return

  datatype Action =
    | Connect(c: ConnId)
    | StartWrite(t: Thread, c: ConnId, len: nat)
    | StartTeardown(t: Thread, c: ConnId)
    | Advance(t: Thread, m: Move)
    | Completed(c: ConnId, n: nat) // a NumberOfCompletedPackets entry
    | Put
    | PutBack

  // ---- The steps; one that is not enabled changes nothing ----

  /** A goroutine's move touches its connection, the pool and the buffers only. */
  datatype Local = Local(pool: seq<Buf>, caps: seq<nat>, at: seq<Place>, k: Conn, pc: Option<Pc>)

  function Locked(l: Local, t: Thread): Local {
    if l.pc.None? || l.k.mu.Some? then l
    else
      match l.pc.value
      case Locking(c, rest) => l.(k := l.k.(mu := Some(t)), pc := Some(Checking(c, rest)))
      case ReclaimLocking(c) => l.(k := l.k.(mu := Some(t)), pc := Some(Draining(c)))
      case _ => l
  }

  function Checked(l: Local): Local {
    match l.pc
    case Some(Checking(c, rest)) => l.(pc := Some(if l.k.done || rest == 0 then Unlocking(c) else Waiting(c, rest)))
    case _ => l
  }

  function Acquired(l: Local, t: Thread): Local {
    match l.pc
    case Some(Waiting(c, rest)) =>
      if l.pool == [] || l.pool[0] >= |l.at| then l
      else l.(pool := l.pool[1..], at := l.at[l.pool[0] := InHand(t)], pc := Some(Got(c, l.pool[0], rest)))
    case _ => l
  }

  function Enqueued(l: Local, cnt: nat): Local {
    match l.pc
    case Some(Got(c, b, rest)) =>
      if |l.k.sent| >= cnt || b >= |l.at| then l
      else l.(k := l.k.(sent := l.k.sent + [b], pushed := l.k.pushed + 1), at := l.at[b := InFlight(c)],
              pc := Some(Filling(c, b, rest)))
    case _ => l
  }

  /** The fragment: as much of the PDU as the buffer holds behind the packet type and the header. */
  function FragmentLength(rest: nat, cap: nat): int {
    if rest > cap - 5 then cap - 5 else rest
  }

  /** writeACLData: a bytes.Buffer that is written past its capacity is reallocated. */
  function Filled(l: Local): Local {
    match l.pc
    case Some(Filling(c, b, rest)) =>
      if b >= |l.caps| || FragmentLength(rest, l.caps[b]) < 0 then l
      else
        var n := FragmentLength(rest, l.caps[b]);
        l.(caps := if 5 + n > l.caps[b] then l.caps[b := 5 + n] else l.caps, pc := Some(Flushing(c, b, rest - n)))
    case _ => l
  }

  function Flushed(l: Local, ok: bool): Local {
    match l.pc
    case Some(Flushing(c, b, rest)) =>
      if l.k.done || !ok then l.(pc := Some(Unlocking(c)))
      else l.(k := l.k.(flushed := l.k.flushed + 1), pc := Some(if rest == 0 then Unlocking(c) else Waiting(c, rest)))
    case _ => l
  }

  function Drained(l: Local, t: Thread): Local {
    match l.pc
    case Some(Draining(c)) =>
      if l.k.sent == [] then l.(k := l.k.(reclaimed := true), pc := Some(Unlocking(c)))
      else if l.k.sent[0] >= |l.at| then l
      else l.(k := l.k.(sent := l.k.sent[1..], drained := l.k.drained + 1), at := l.at[l.k.sent[0] := InHand(t)],
              pc := Some(Returning(c, l.k.sent[0])))
    case _ => l
  }

  function Returned(l: Local, cnt: nat): Local {
    match l.pc
    case Some(Returning(c, b)) =>
      if |l.pool| >= cnt || b >= |l.at| then l
      else l.(pool := l.pool + [b], at := l.at[b := InPool], pc := Some(Draining(c)))
    case _ => l
  }

  function Moved(l: Local, t: Thread, m: Move, cnt: nat): Local {
    match m
    case Lock => Locked(l, t)
    case Check => Checked(l)
    case Acquire => Acquired(l, t)
    case GiveUp => if l.pc.Some? && l.pc.value.Waiting? then l.(pc := Some(Unlocking(l.pc.value.c))) else l
    case Enqueue => Enqueued(l, cnt)
    case Fill => Filled(l)
    case Flush(ok) => Flushed(l, ok)
    case Unlock => if l.pc.Some? && l.pc.value.Unlocking? then l.(k := l.k.(mu := None), pc := None) else l
    case Close =>
      if l.pc.Some? && l.pc.value.Closing?
      then l.(k := l.k.(done := true), pc := Some(ReclaimLocking(l.pc.value.c))) else l
    case Drain => Drained(l, t)
    case Return => Returned(l, cnt)
  }

  /** The part of the state a goroutine's move can touch. */
  function LocalOf(s: State, t: Thread): Local
    requires t in s.threads && s.threads[t].c in s.conns
  {
    Local(s.pool, s.caps, s.at, s.conns[s.threads[t].c], Some(s.threads[t]))
  }

  /** The state with that part replaced. */
  function With(s: State, t: Thread, l: Local): State
    requires t in s.threads
  {
    State(s.cnt, s.size, l.pool, l.caps, l.at, s.conns[s.threads[t].c := l.k],
          if l.pc.Some? then s.threads[t := l.pc.value] else s.threads - {t}, s.acks)
  }

  function Step(s: State, a: Action): State {
    match a
    case Connect(c) => if c in s.conns then s else s.(conns := s.conns[c := NEW_CONN])
    case StartWrite(t, c, len) =>
      if t in s.threads || c !in s.conns then s else s.(threads := s.threads[t := Locking(c, len)])
    case StartTeardown(t, c) => if t in s.threads || c !in s.conns then s else s.(threads := s.threads[t := Closing(c)])
    case Completed(c, n) => // an honest controller: no more than it was sent
      if s.acks.Some? || c !in s.conns || s.conns[c].acked + n > s.conns[c].flushed then s
      else s.(conns := s.conns[c := s.conns[c].(acked := s.conns[c].acked + n)], acks := Some(Acks(c, n, None)))
    case Put => PutTakes(s)
    case PutBack => PutReturns(s)
    case Advance(t, m) =>
      if t !in s.threads || s.threads[t].c !in s.conns then s else With(s, t, Moved(LocalOf(s, t), t, m, s.cnt))
  }

  /** Put's receive from sent, with its default arm. */
  function PutTakes(s: State): State {
    if s.acks.None? || s.acks.value.hand.Some? || s.acks.value.c !in s.conns then s
    else
      var c, left := s.acks.value.c, s.acks.value.left;
      var k := s.conns[c];
      if left == 0 then s.(acks := None)
      else if k.sent == [] || k.sent[0] >= |s.at| then
        s.(conns := s.conns[c := k.(puts := k.puts + 1)], acks := Some(Acks(c, left - 1, None)))
      else
        s.(conns := s.conns[c := k.(puts := k.puts + 1, popped := k.popped + 1, sent := k.sent[1..])],
           at := s.at[k.sent[0] := WithLoop], acks := Some(Acks(c, left - 1, Some(k.sent[0]))))
  }

  /** Put's send to the pool; it would block on a full channel. */
  function PutReturns(s: State): State {
    if s.acks.None? || s.acks.value.hand.None? || |s.pool| >= s.cnt || s.acks.value.hand.value >= |s.at| then s
    else
      var b := s.acks.value.hand.value;
      s.(pool := s.pool + [b], at := s.at[b := InPool], acks := Some(s.acks.value.(hand := None)))
  }

  function Run(s: State, schedule: seq<Action>): State
    decreases |schedule|
  {
    if schedule == [] then s else Run(Step(s, schedule[0]), schedule[1..])
  }

  // ---- Conservation: every buffer is in exactly one place ----

  /** `q` lists exactly the buffers at place p, each once. */
  ghost predicate Lists(q: seq<Buf>, at: seq<Place>, p: Place) {
    && (forall i :: 0 <= i < |q| ==> q[i] < |at| && at[q[i]] == p)
    && (forall b :: 0 <= b < |at| && at[b] == p ==> b in q)
    && (forall i, j :: 0 <= i < j < |q| ==> q[i] != q[j])
  }

  function Hand(pc: Pc): Option<Buf> {
    match pc
    case Got(_, b, _) => Some(b)
    case Returning(_, b) => Some(b)
    case _ => None
  }

  /** The hands agree with the places, in both directions. */
  ghost predicate HandsMatch(at: seq<Place>, threads: map<Thread, Pc>, acks: Option<Acks>) {
    && (forall t :: t in threads && Hand(threads[t]).Some? ==>
          Hand(threads[t]).value < |at| && at[Hand(threads[t]).value] == InHand(t))
    && (forall b :: 0 <= b < |at| && at[b].InHand? ==> at[b].t in threads && Hand(threads[at[b].t]) == Some(b))
    && (acks.Some? && acks.value.hand.Some? ==> acks.value.hand.value < |at| && at[acks.value.hand.value] == WithLoop)
    && (forall b :: 0 <= b < |at| && at[b] == WithLoop ==> acks.Some? && acks.value.hand == Some(b))
  }

  ghost predicate Conserved(s: State) {
    && |s.at| == |s.caps| == s.cnt
    && Lists(s.pool, s.at, InPool)
    && (forall c :: c in s.conns ==> Lists(s.conns[c].sent, s.at, InFlight(c)))
    && (forall b :: 0 <= b < |s.at| && s.at[b].InFlight? ==> s.at[b].c in s.conns)
    && HandsMatch(s.at, s.threads, s.acks)
    && (forall t :: t in s.threads ==> s.threads[t].c in s.conns)
    && (s.acks.Some? ==> s.acks.value.c in s.conns)
    && (forall b :: 0 <= b < |s.caps| ==> s.caps[b] == s.size)
  }

  lemma ListsWithout(q: seq<Buf>, at: seq<Place>, p: Place, to: Place)
    requires Lists(q, at, p) && q != [] && to != p
    ensures Lists(q[1..], at[q[0] := to], p)
  {
  }

  lemma ListsWith(q: seq<Buf>, at: seq<Place>, b: Buf, p: Place)
    requires Lists(q, at, p) && b < |at| && at[b] != p
    ensures Lists(q + [b], at[b := p], p)
  {
    assert (q + [b])[|q|] == b;
    forall x | 0 <= x < |at| && at[b := p][x] == p ensures x in q + [b] {
      if x != b {
        assert x in q;
      }
    }
  }

  lemma ListsUntouched(q: seq<Buf>, at: seq<Place>, b: Buf, p: Place, to: Place)
    requires Lists(q, at, p) && b < |at| && at[b] != p && to != p
    ensures Lists(q, at[b := to], p)
  {
  }

  /** The queue of place p after buffer b moved from place `was` to place `to`. */
  ghost predicate Requeued(q: seq<Buf>, r: seq<Buf>, p: Place, b: Buf, was: Place, to: Place) {
    if p == was then q != [] && q[0] == b && r == q[1..]
    else if p == to then r == q + [b]
    else r == q
  }

  lemma RequeuedLists(q: seq<Buf>, r: seq<Buf>, at: seq<Place>, p: Place, b: Buf, to: Place)
    requires Lists(q, at, p) && b < |at| && to != at[b] && Requeued(q, r, p, b, at[b], to)
    ensures Lists(r, at[b := to], p)
  {
    hide Lists;
    if p == at[b] {
      ListsWithout(q, at, p, to);
    } else if p == to {
      ListsWith(q, at, b, p);
    } else {
      ListsUntouched(q, at, b, p, to);
    }
  }

  /** A step that moves one buffer, dequeuing and enqueuing it accordingly, conserves. */
  lemma MoveConserves(s: State, r: State, b: Buf, to: Place)
    requires Conserved(s) && b < s.cnt && to != s.at[b] && (to.InFlight? ==> to.c in s.conns)
    requires r.cnt == s.cnt && r.size == s.size && r.caps == s.caps && r.at == s.at[b := to]
    requires r.conns.Keys == s.conns.Keys
    requires Requeued(s.pool, r.pool, InPool, b, s.at[b], to)
    requires forall c :: c in s.conns ==> Requeued(s.conns[c].sent, r.conns[c].sent, InFlight(c), b, s.at[b], to)
    requires HandsMatch(r.at, r.threads, r.acks)
    requires (forall t :: t in r.threads ==> r.threads[t].c in s.conns) && (r.acks.Some? ==> r.acks.value.c in s.conns)
    ensures Conserved(r)
  {
    hide Lists, Requeued, HandsMatch;
    RequeuedLists(s.pool, r.pool, s.at, InPool, b, to);
    forall c | c in r.conns ensures Lists(r.conns[c].sent, r.at, InFlight(c)) {
      RequeuedLists(s.conns[c].sent, r.conns[c].sent, s.at, InFlight(c), b, to);
    }
  }

  /** A step that moves no buffer and leaves the hands alone conserves. */
  lemma StayConserves(s: State, r: State)
    requires Conserved(s)
    requires r.cnt == s.cnt && r.size == s.size && r.at == s.at && r.pool == s.pool
    requires |r.caps| == |s.caps| && forall b :: 0 <= b < |r.caps| ==> r.caps[b] == s.size
    requires s.conns.Keys <= r.conns.Keys
    requires forall c :: c in s.conns ==> r.conns[c].sent == s.conns[c].sent
    requires forall c :: c in r.conns && c !in s.conns ==> r.conns[c].sent == []
    requires HandsMatch(r.at, r.threads, r.acks)
    requires (forall t :: t in r.threads ==> r.threads[t].c in r.conns) && (r.acks.Some? ==> r.acks.value.c in r.conns)
    ensures Conserved(r)
  {
    forall c | c in r.conns ensures Lists(r.conns[c].sent, r.at, InFlight(c)) {
      if c !in s.conns {
        assert forall b :: 0 <= b < |s.at| ==> s.at[b] != InFlight(c);
      }
    }
  }

  // ---- How the hands change ----

  lemma HandsTake(at: seq<Place>, threads: map<Thread, Pc>, acks: Option<Acks>, t: Thread, pc: Pc, b: Buf)
    requires HandsMatch(at, threads, acks) && t in threads && Hand(threads[t]) == None
    requires b < |at| && (at[b] == InPool || at[b].InFlight?) && Hand(pc) == Some(b)
    ensures HandsMatch(at[b := InHand(t)], threads[t := pc], acks)
  {
  }

  lemma HandsGive(at: seq<Place>, threads: map<Thread, Pc>, acks: Option<Acks>, t: Thread, pc: Pc, b: Buf, to: Place)
    requires HandsMatch(at, threads, acks) && t in threads && Hand(threads[t]) == Some(b) && b < |at|
    requires (to == InPool || to.InFlight?) && Hand(pc) == None
    ensures at[b] == InHand(t) && HandsMatch(at[b := to], threads[t := pc], acks)
  {
  }

  lemma HandsStay(at: seq<Place>, threads: map<Thread, Pc>, acks: Option<Acks>, t: Thread, pc: Option<Pc>)
    requires HandsMatch(at, threads, acks) && (t in threads ==> Hand(threads[t]) == None)
    requires pc.Some? ==> Hand(pc.value) == None
    ensures HandsMatch(at, if pc.Some? then threads[t := pc.value] else threads - {t}, acks)
  {
  }

  /** What a goroutine's move does with buffers: takes one into its hand, puts it down, or neither. */
  lemma MovedPlaces(l: Local, t: Thread, m: Move, cnt: nat)
    requires l.pc.Some?
    ensures var r := Moved(l, t, m, cnt);
            if m.Acquire? && r != l then
              && l.pc.value.Waiting? && l.pool != [] && l.pool[0] < |l.at|
              && r.pc == Some(Got(l.pc.value.c, l.pool[0], l.pc.value.rest))
              && r == l.(pool := l.pool[1..], at := l.at[l.pool[0] := InHand(t)], pc := r.pc)
            else if m.Enqueue? && r != l then
              && l.pc.value.Got? && l.pc.value.b < |l.at| && r.pc.Some? && Hand(r.pc.value) == None
              && r == l.(k := r.k, at := l.at[l.pc.value.b := InFlight(l.pc.value.c)], pc := r.pc)
              && r.k.sent == l.k.sent + [l.pc.value.b]
            else if m.Drain? && r != l && l.k.sent != [] then
              && l.pc.value.Draining? && l.k.sent[0] < |l.at| && r.pc == Some(Returning(l.pc.value.c, l.k.sent[0]))
              && r == l.(k := r.k, at := l.at[l.k.sent[0] := InHand(t)], pc := r.pc) && r.k.sent == l.k.sent[1..]
            else if m.Return? && r != l then
              && l.pc.value.Returning? && l.pc.value.b < |l.at| && r.pc.Some? && Hand(r.pc.value) == None
              && r == l.(pool := l.pool + [l.pc.value.b], at := l.at[l.pc.value.b := InPool], pc := r.pc)
            else
              && r == l.(k := r.k, caps := r.caps, pc := r.pc) && r.k.sent == l.k.sent
              && (r != l ==> Hand(l.pc.value) == None && (r.pc.Some? ==> Hand(r.pc.value) == None))
    ensures Moved(l, t, m, cnt).pc.Some? ==> Moved(l, t, m, cnt).pc.value.c == l.pc.value.c
  {
  }

  /** A fragment never outgrows its buffer, so that no buffer is ever reallocated. */
  lemma CapacitiesKept(l: Local, t: Thread, m: Move, cnt: nat)
    ensures Moved(l, t, m, cnt).caps == l.caps
  {
  }

  /** The goroutine takes b, which was the oldest in the pool or in flight. */
  lemma TakeConserves(s: State, t: Thread, l: Local, b: Buf)
    requires Conserved(s) && t in s.threads && Hand(s.threads[t]) == None
    requires l.pc.Some? && Hand(l.pc.value) == Some(b) && l.pc.value.c == s.threads[t].c && l.caps == s.caps
    requires b < s.cnt && l.at == s.at[b := InHand(t)]
    requires (&& s.at[b] == InPool && s.pool != [] && s.pool[0] == b && l.pool == s.pool[1..]
              && l.k.sent == s.conns[s.threads[t].c].sent)
          || (&& s.at[b] == InFlight(s.threads[t].c)
              && s.conns[s.threads[t].c].sent != [] && s.conns[s.threads[t].c].sent[0] == b
              && l.k.sent == s.conns[s.threads[t].c].sent[1..] && l.pool == s.pool)
    ensures Conserved(With(s, t, l))
  {
    hide HandsMatch, Lists;
    HandsTake(s.at, s.threads, s.acks, t, l.pc.value, b);
    MoveConserves(s, With(s, t, l), b, InHand(t));
  }

  /** The goroutine puts b down, behind the queue it now belongs to. */
  lemma GiveConserves(s: State, t: Thread, l: Local, b: Buf, to: Place)
    requires Conserved(s) && t in s.threads && Hand(s.threads[t]) == Some(b)
    requires l.pc.Some? && Hand(l.pc.value) == None && l.pc.value.c == s.threads[t].c && l.caps == s.caps
    requires b < s.cnt && l.at == s.at[b := to]
    requires (to == InPool && l.pool == s.pool + [b] && l.k.sent == s.conns[s.threads[t].c].sent)
          || (to == InFlight(s.threads[t].c) && l.k.sent == s.conns[s.threads[t].c].sent + [b] && l.pool == s.pool)
    ensures Conserved(With(s, t, l))
  {
    hide HandsMatch, Lists;
    HandsGive(s.at, s.threads, s.acks, t, l.pc.value, b, to);
    MoveConserves(s, With(s, t, l), b, to);
  }

  lemma IdleConserves(s: State, t: Thread, l: Local)
    requires Conserved(s) && t in s.threads && Hand(s.threads[t]) == None
    requires l.pc.Some? ==> Hand(l.pc.value) == None && l.pc.value.c == s.threads[t].c
    requires l.caps == s.caps && l.at == s.at && l.pool == s.pool && l.k.sent == s.conns[s.threads[t].c].sent
    ensures Conserved(With(s, t, l))
  {
    hide HandsMatch, Lists;
    HandsStay(s.at, s.threads, s.acks, t, l.pc);
    StayConserves(s, With(s, t, l));
  }

  lemma NothingMoved(s: State, t: Thread)
    requires t in s.threads && s.threads[t].c in s.conns
    ensures With(s, t, LocalOf(s, t)) == s
  {
  }

  lemma GoroutineConserves(s: State, t: Thread, m: Move)
    requires Conserved(s) && t in s.threads
    ensures Conserved(Step(s, Advance(t, m)))
  {
    hide Moved, HandsMatch, Lists, With;
    var c, l := s.threads[t].c, LocalOf(s, t);
    var r := Moved(l, t, m, s.cnt);
    MovedPlaces(l, t, m, s.cnt);
    CapacitiesKept(l, t, m, s.cnt);
    if r == l {
      NothingMoved(s, t);
    } else if m.Acquire? {
      HeadIsAt(s.pool, s.at, InPool);
      TakeConserves(s, t, r, s.pool[0]);
    } else if m.Enqueue? {
      GiveConserves(s, t, r, s.threads[t].b, InFlight(c));
    } else if m.Drain? && s.conns[c].sent != [] {
      HeadIsAt(s.conns[c].sent, s.at, InFlight(c));
      TakeConserves(s, t, r, s.conns[c].sent[0]);
    } else if m.Return? {
      GiveConserves(s, t, r, s.threads[t].b, InPool);
    } else {
      IdleConserves(s, t, r);
    }
  }

  lemma HandsOfLoop(at: seq<Place>, threads: map<Thread, Pc>, acks: Option<Acks>, c: ConnId, left: nat)
    requires HandsMatch(at, threads, acks)
    ensures acks.None? || acks.value.hand.None? ==>
              HandsMatch(at, threads, None) && HandsMatch(at, threads, Some(Acks(c, left, None)))
    ensures forall b ::
              (acks.None? || acks.value.hand.None?) && 0 <= b < |at| && (at[b] == InPool || at[b].InFlight?) ==>
              HandsMatch(at[b := WithLoop], threads, Some(Acks(c, left, Some(b))))
    ensures acks.Some? && acks.value.hand.Some? ==>
              && acks.value.hand.value < |at| && at[acks.value.hand.value] == WithLoop
              && HandsMatch(at[acks.value.hand.value := InPool], threads, Some(acks.value.(hand := None)))
  {
  }

  lemma CompletedConserves(s: State, c: ConnId, n: nat)
    requires Conserved(s)
    ensures Conserved(Step(s, Completed(c, n)))
  {
    hide HandsMatch, Lists;
    HandsOfLoop(s.at, s.threads, s.acks, c, n);
    StayConserves(s, Step(s, Completed(c, n)));
  }

  lemma PutConserves(s: State)
    requires Conserved(s)
    ensures Conserved(PutTakes(s))
  {
    hide HandsMatch, Lists;
    var r := PutTakes(s);
    if r != s {
      var c := s.acks.value.c;
      HandsOfLoop(s.at, s.threads, s.acks, c, if r.acks.Some? then r.acks.value.left else 0);
      if r.acks.Some? && r.acks.value.hand.Some? {
        HeadIsAt(s.conns[c].sent, s.at, InFlight(c));
        MoveConserves(s, r, s.conns[c].sent[0], WithLoop);
      } else {
        StayConserves(s, r);
      }
    }
  }

  lemma HeadIsAt(q: seq<Buf>, at: seq<Place>, p: Place)
    requires Lists(q, at, p) && q != []
    ensures q[0] < |at| && at[q[0]] == p
  {
  }

  lemma PutBackConserves(s: State)
    requires Conserved(s)
    ensures Conserved(PutReturns(s))
  {
    hide HandsMatch, Lists;
    var r := PutReturns(s);
    if r != s {
      HandsOfLoop(s.at, s.threads, s.acks, s.acks.value.c, 0);
      MoveConserves(s, r, s.acks.value.hand.value, InPool);
    }
  }

  lemma StartConserves(s: State, t: Thread, pc: Pc)
    requires Conserved(s) && t !in s.threads && pc.c in s.conns && Hand(pc) == None
    ensures Conserved(s.(threads := s.threads[t := pc]))
  {
    hide HandsMatch, Lists;
    HandsStay(s.at, s.threads, s.acks, t, Some(pc));
    StayConserves(s, s.(threads := s.threads[t := pc]));
  }

  lemma StepConserves(s: State, a: Action)
    requires Conserved(s)
    ensures Conserved(Step(s, a))
  {
    hide Conserved, PutTakes, PutReturns, With, Moved;
    match a {
      case Connect(c) => ConnectConserves(s, c);
      case StartWrite(t, c, len) =>
        if t !in s.threads && c in s.conns {
          StartConserves(s, t, Locking(c, len));
        }
      case StartTeardown(t, c) =>
        if t !in s.threads && c in s.conns {
          StartConserves(s, t, Closing(c));
        }
      case Completed(c, n) => CompletedConserves(s, c, n);
      case Put => PutConserves(s);
      case PutBack => PutBackConserves(s);
      case Advance(t, m) =>
        if t in s.threads {
          GoroutineConserves(s, t, m);
        }
    }
  }

  lemma ConnectConserves(s: State, c: ConnId)
    requires Conserved(s)
    ensures Conserved(Step(s, Connect(c)))
  {
    StayConserves(s, Step(s, Connect(c)));
  }

  lemma InitialConserves(size: nat, cnt: nat)
    ensures Conserved(Initial(size, cnt))
  {
    var s := Initial(size, cnt);
    forall b | 0 <= b < cnt ensures b in s.pool {
      assert s.pool[b] == b;
    }
  }

  /** In every run each buffer is in exactly one place (the pool, one connection's in-flight queue, or
      one hand), every queue lists exactly the buffers at its place, and capacities never change. */
  lemma {:induction false} BuffersAreConserved(s: State, schedule: seq<Action>)
    requires Conserved(s)
    ensures Conserved(Run(s, schedule)) && Run(s, schedule).cnt == s.cnt && Run(s, schedule).size == s.size
    decreases |schedule|
  {
    hide Conserved;
    if schedule != [] {
      StepConserves(s, schedule[0]);
      BuffersAreConserved(Step(s, schedule[0]), schedule[1..]);
    }
  }

  // ---- No send blocks ----

  lemma {:induction false} DistinctBound(q: seq<Buf>, n: nat)
    requires forall i :: 0 <= i < |q| ==> q[i] < n
    requires forall i, j :: 0 <= i < j < |q| ==> q[i] != q[j]
    ensures |q| <= n
    decreases n
  {
    if q != [] {
      assert q[0] < n;
      if i :| 0 <= i < |q| && q[i] == n - 1 {
        var rest := q[..i] + q[i + 1..];
        forall j | 0 <= j < |rest| ensures rest[j] == q[if j < i then j else j + 1] {}
        DistinctBound(rest, n - 1);
      } else {
        DistinctBound(q, n - 1);
      }
    }
  }

  /** A queue that lacks some buffer has room for it. */
  lemma RoomFor(q: seq<Buf>, at: seq<Place>, p: Place, b: Buf)
    requires Lists(q, at, p) && b < |at| && at[b] != p
    ensures |q| < |at|
  {
    var all := q + [b];
    forall i, j | 0 <= i < j < |all| ensures all[i] != all[j] {
      assert i < |q| && at[q[i]] == p;
    }
    DistinctBound(all, |at|);
  }

  /** Whoever has a buffer in hand can send it on: neither channel is ever full then. */
  lemma SendsNeverBlock(size: nat, cnt: nat, schedule: seq<Action>)
    ensures var s := Run(Initial(size, cnt), schedule);
            && (forall t :: t in s.threads && s.threads[t].Got? ==>
                  s.threads[t].c in s.conns && |s.conns[s.threads[t].c].sent| < cnt)
            && (forall t :: t in s.threads && s.threads[t].Returning? ==> |s.pool| < cnt)
            && (s.acks.Some? && s.acks.value.hand.Some? ==> |s.pool| < cnt)
  {
    hide Run;
    InitialConserves(size, cnt);
    BuffersAreConserved(Initial(size, cnt), schedule);
    var s := Run(Initial(size, cnt), schedule);
    forall t | t in s.threads && s.threads[t].Got? ensures |s.conns[s.threads[t].c].sent| < cnt {
      RoomFor(s.conns[s.threads[t].c].sent, s.at, InFlight(s.threads[t].c), s.threads[t].b);
    }
    forall t | t in s.threads && s.threads[t].Returning? ensures |s.pool| < cnt {
      RoomFor(s.pool, s.at, InPool, s.threads[t].b);
    }
    if s.acks.Some? && s.acks.value.hand.Some? {
      RoomFor(s.pool, s.at, InPool, s.acks.value.hand.value);
    }
  }

  // ---- The train mutex ----

  /** The places in the code where the connection's train mutex is held. */
  predicate Critical(pc: Pc) {
    !(pc.Locking? || pc.Closing? || pc.ReclaimLocking?)
  }

  ghost predicate Exclusive(s: State) {
    && (forall t :: t in s.threads ==>
          && s.threads[t].c in s.conns
          && (Critical(s.threads[t]) <==> s.conns[s.threads[t].c].mu == Some(t))
          && (s.threads[t].ReclaimLocking? ==> s.conns[s.threads[t].c].done))
    && (forall c :: c in s.conns && s.conns[c].mu.Some? ==>
          s.conns[c].mu.value in s.threads && s.threads[s.conns[c].mu.value].c == c)
    && (s.acks.Some? ==> s.acks.value.c in s.conns)
  }

  function Holder(s: State, c: ConnId): Option<Pc>
    requires c in s.conns
  {
    var mu := s.conns[c].mu;
    if mu.Some? && mu.value in s.threads then Some(s.threads[mu.value]) else None
  }

  /** Puts still to be made on c for packets already reported. */
  function Left(acks: Option<Acks>, c: ConnId): nat {
    if acks.Some? && acks.value.c == c then acks.value.left else 0
  }

  /** A connection's counts, given who holds its mutex. Each packet reported completed is one Put, made or
      still to be made, and until a teardown reclaims buffers each Put finds one in flight. A train past
      the chDone test runs on a connection nothing was reclaimed from; the buffer it fills is the newest
      in flight and not yet flushed. */
  ghost predicate Counted(k: Conn, holder: Option<Pc>, left: nat) {
    && |k.sent| + k.popped + k.drained == k.pushed
    && k.popped <= k.puts && k.puts + left == k.acked <= k.flushed <= k.pushed
    && (k.drained == 0 ==> k.popped == k.puts)
    && (k.drained > 0 ==> k.done)
    && (k.reclaimed ==> k.done && k.sent == [])
    && match holder
       case Some(Waiting(_, _)) => k.drained == 0 && !k.reclaimed
       case Some(Got(_, _, _)) => k.drained == 0 && !k.reclaimed
       case Some(Filling(_, b, _)) => k.drained == 0 && !k.reclaimed && FillsNewest(k, b)
       case Some(Flushing(_, b, _)) => k.drained == 0 && !k.reclaimed && FillsNewest(k, b)
       case Some(Draining(_)) => k.done
       case Some(Returning(_, _)) => k.done
       case _ => true
  }

  ghost predicate FillsNewest(k: Conn, b: Buf) {
    k.sent != [] && k.sent[|k.sent| - 1] == b && k.flushed < k.pushed
  }

  ghost predicate AllCounted(s: State) {
    forall c :: c in s.conns ==> Counted(s.conns[c], Holder(s, c), Left(s.acks, c))
  }

  /** A move of the mutex holder, up to and including its release. */
  lemma HolderMoves(l: Local, t: Thread, m: Move, cnt: nat, left: nat)
    requires l.pc.Some? && Critical(l.pc.value) && l.k.mu.Some? && Counted(l.k, l.pc, left)
    ensures var r := Moved(l, t, m, cnt);
            && Counted(r.k, r.pc, left) && (l.k.done ==> r.k.done)
            && if r.pc == None then r.k.mu == None
               else r.k.mu == l.k.mu && Critical(r.pc.value) && r.pc.value.c == l.pc.value.c
  {
  }

  /** A move of a goroutine without the mutex: it waits, takes the free mutex, or closes the channels. */
  lemma OutsiderMoves(l: Local, t: Thread, m: Move, cnt: nat, left: nat, holder: Option<Pc>)
    requires l.pc.Some? && !Critical(l.pc.value) && Counted(l.k, holder, left)
    requires l.k.mu == None ==> holder == None
    requires l.pc.value.ReclaimLocking? ==> l.k.done
    ensures var r := Moved(l, t, m, cnt);
            && r.pc.Some? && r.pc.value.c == l.pc.value.c && (l.k.done ==> r.k.done)
            && if Critical(r.pc.value) then l.k.mu == None && r.k.mu == Some(t) && Counted(r.k, r.pc, left)
               else r.k.mu == l.k.mu && Counted(r.k, holder, left) && (r.pc.value.ReclaimLocking? ==> r.k.done)
  {
  }

  /** What HolderMoves and OutsiderMoves promise of a move, as far as the mutex is concerned. */
  ghost predicate Handover(s: State, t: Thread, l: Local)
    requires t in s.threads && s.threads[t].c in s.conns
  {
    var k := s.conns[s.threads[t].c];
    && (k.done ==> l.k.done)
    && (l.pc.Some? ==> l.pc.value.c == s.threads[t].c && (l.pc.value.ReclaimLocking? ==> l.k.done))
    && if Critical(s.threads[t]) then if l.pc == None then l.k.mu == None else Critical(l.pc.value) && l.k.mu == k.mu
       else l.pc.Some? && if Critical(l.pc.value) then k.mu == None && l.k.mu == Some(t) else l.k.mu == k.mu
  }

  /** Who is where, for one goroutine. */
  lemma StandsThere(s: State, t: Thread)
    requires Exclusive(s) && AllCounted(s) && t in s.threads
    ensures var c := s.threads[t].c;
            && c in s.conns && Counted(s.conns[c], Holder(s, c), Left(s.acks, c))
            && (Critical(s.threads[t]) <==> s.conns[c].mu == Some(t))
            && (Critical(s.threads[t]) ==> Holder(s, c) == Some(s.threads[t]))
            && (s.threads[t].ReclaimLocking? ==> s.conns[c].done)
  {
    hide Counted;
  }

  lemma MoveHandsOver(s: State, t: Thread, m: Move)
    requires Exclusive(s) && AllCounted(s) && t in s.threads && s.threads[t].c in s.conns
    ensures var c, l := s.threads[t].c, Moved(LocalOf(s, t), t, m, s.cnt);
            && Handover(s, t, l)
            && Counted(l.k, if l.k.mu == Some(t) then l.pc else if l.k.mu == None then None else Holder(s, c),
                       Left(s.acks, c))
  {
    hide Moved, Counted, Exclusive, AllCounted;
    StandsThere(s, t);
    var pc, l := s.threads[t], LocalOf(s, t);
    if Critical(pc) {
      HolderMoves(l, t, m, s.cnt, Left(s.acks, pc.c));
    } else {
      OutsiderMoves(l, t, m, s.cnt, Left(s.acks, pc.c), Holder(s, pc.c));
    }
  }

  lemma MoveStaysExclusive(s: State, t: Thread, l: Local)
    requires Exclusive(s) && t in s.threads && Handover(s, t, l)
    ensures Exclusive(With(s, t, l))
  {
  }

  lemma MoveStaysCounted(s: State, t: Thread, l: Local)
    requires Exclusive(s) && AllCounted(s) && t in s.threads && Handover(s, t, l)
    requires var c := s.threads[t].c;
             Counted(l.k, if l.k.mu == Some(t) then l.pc else if l.k.mu == None then None else Holder(s, c),
                     Left(s.acks, c))
    ensures AllCounted(With(s, t, l))
  {
    hide Counted;
    var r := With(s, t, l);
    forall d | d in r.conns ensures Counted(r.conns[d], Holder(r, d), Left(r.acks, d)) {
      if d != s.threads[t].c {
        assert Holder(r, d) == Holder(s, d);
      }
    }
  }

  lemma GoroutineIsOrderly(s: State, t: Thread, m: Move)
    requires Exclusive(s) && AllCounted(s) && t in s.threads
    ensures Exclusive(Step(s, Advance(t, m))) && AllCounted(Step(s, Advance(t, m)))
  {
    hide Moved, Counted, Exclusive, AllCounted, Handover, With;
    StandsThere(s, t);
    MoveHandsOver(s, t, m);
    var l := Moved(LocalOf(s, t), t, m, s.cnt);
    MoveStaysExclusive(s, t, l);
    MoveStaysCounted(s, t, l);
  }

  /** Put takes the oldest buffer in flight; while one is being filled there is an older one. */
  lemma PutIsCounted(k: Conn, holder: Option<Pc>, left: nat)
    requires Counted(k, holder, left) && left > 0
    ensures Counted(k.(puts := k.puts + 1), holder, left - 1) || k.sent != []
    ensures k.sent != [] ==>
              Counted(k.(puts := k.puts + 1, popped := k.popped + 1, sent := k.sent[1..]), holder, left - 1)
    ensures k.sent != [] && holder.Some? && (holder.value.Filling? || holder.value.Flushing?) ==>
              k.sent[0] != holder.value.b || |k.sent| > 1
  {
  }

  lemma CompletedKeepsCounts(s: State, c: ConnId, n: nat)
    requires AllCounted(s)
    ensures AllCounted(Step(s, Completed(c, n)))
  {
    var r := Step(s, Completed(c, n));
    forall d | d in r.conns ensures Counted(r.conns[d], Holder(r, d), Left(r.acks, d)) {
      assert Holder(r, d) == Holder(s, d);
    }
  }

  lemma CompletedIsOrderly(s: State, c: ConnId, n: nat)
    requires Exclusive(s) && AllCounted(s)
    ensures Exclusive(Step(s, Completed(c, n))) && AllCounted(Step(s, Completed(c, n)))
  {
    hide Exclusive, AllCounted;
    CompletedKeepsCounts(s, c, n);
    AcksAreOfConns(s);
    SameMutexes(s, Step(s, Completed(c, n)));
  }

  lemma PutKeepsCounts(s: State)
    requires Conserved(s) && Exclusive(s) && AllCounted(s)
    ensures AllCounted(PutTakes(s))
  {
    hide Conserved, Counted, Exclusive;
    var r := PutTakes(s);
    if r != s && s.acks.value.left > 0 {
      var c := s.acks.value.c;
      SentAreBuffers(s, c);
      PutIsCounted(s.conns[c], Holder(s, c), s.acks.value.left);
    }
    forall d | d in r.conns ensures Counted(r.conns[d], Holder(r, d), Left(r.acks, d)) {
      assert Counted(s.conns[d], Holder(s, d), Left(s.acks, d));
      assert Holder(r, d) == Holder(s, d);
    }
  }

  lemma PutIsOrderly(s: State)
    requires Conserved(s) && Exclusive(s) && AllCounted(s)
    ensures Exclusive(PutTakes(s)) && AllCounted(PutTakes(s))
  {
    hide Conserved, AllCounted, Exclusive;
    PutKeepsCounts(s);
    AcksAreOfConns(s);
    SameMutexes(s, PutTakes(s));
  }

  lemma AcksAreOfConns(s: State)
    requires Exclusive(s)
    ensures s.acks.Some? ==> s.acks.value.c in s.conns
  {
  }

  /** Who holds which mutex does not change with the counts. */
  lemma SameMutexes(s: State, r: State)
    requires Exclusive(s) && r.threads == s.threads && r.conns.Keys == s.conns.Keys
    requires forall c :: c in s.conns ==> r.conns[c].mu == s.conns[c].mu && r.conns[c].done == s.conns[c].done
    requires r.acks.Some? ==> r.acks.value.c in r.conns
    ensures Exclusive(r)
  {
  }

  lemma PutBackIsOrderly(s: State)
    requires Exclusive(s) && AllCounted(s)
    ensures Exclusive(PutReturns(s)) && AllCounted(PutReturns(s))
  {
    hide Counted;
    var r := PutReturns(s);
    forall d | d in r.conns ensures Counted(r.conns[d], Holder(r, d), Left(r.acks, d)) {
      assert Holder(r, d) == Holder(s, d) && Left(r.acks, d) == Left(s.acks, d);
    }
  }

  lemma SentAreBuffers(s: State, c: ConnId)
    requires Conserved(s) && c in s.conns
    ensures s.conns[c].sent != [] ==> s.conns[c].sent[0] < |s.at|
  {
  }

  /** What every reachable state satisfies. */
  ghost predicate Orderly(s: State) {
    Conserved(s) && Exclusive(s) && AllCounted(s)
  }

  lemma StepIsOrderly(s: State, a: Action)
    requires Orderly(s)
    ensures Orderly(Step(s, a))
  {
    hide Conserved, Exclusive, AllCounted, PutTakes, PutReturns, With, Moved;
    StepConserves(s, a);
    match a {
      case Connect(c) => ConnectIsOrderly(s, c);
      case StartWrite(t, c, len) => StartIsOrderly(s, t, Locking(c, len));
      case StartTeardown(t, c) => StartIsOrderly(s, t, Closing(c));
      case Completed(c, n) => CompletedIsOrderly(s, c, n);
      case Put => PutIsOrderly(s);
      case PutBack => PutBackIsOrderly(s);
      case Advance(t, m) =>
        if t in s.threads {
          GoroutineIsOrderly(s, t, m);
        }
    }
  }

  lemma ConnectIsOrderly(s: State, c: ConnId)
    requires Exclusive(s) && AllCounted(s)
    ensures Exclusive(Step(s, Connect(c))) && AllCounted(Step(s, Connect(c)))
  {
    hide AllCounted, Exclusive;
    ConnectKeepsCounts(s, c);
    ConnectKeepsMutexes(s, c);
  }

  lemma ConnectKeepsMutexes(s: State, c: ConnId)
    requires Exclusive(s)
    ensures Exclusive(Step(s, Connect(c)))
  {
  }

  lemma ConnectKeepsCounts(s: State, c: ConnId)
    requires Exclusive(s) && AllCounted(s)
    ensures AllCounted(Step(s, Connect(c)))
  {
    hide Exclusive;
    var r := Step(s, Connect(c));
    AcksAreOfConns(s);
    forall d | d in s.conns ensures Counted(r.conns[d], Holder(r, d), Left(r.acks, d)) {
      assert Holder(r, d) == Holder(s, d);
    }
  }

  lemma StartIsOrderly(s: State, t: Thread, pc: Pc)
    requires Exclusive(s) && AllCounted(s) && (pc.Locking? || pc.Closing?)
    ensures t !in s.threads && pc.c in s.conns ==>
              var r := s.(threads := s.threads[t := pc]); Exclusive(r) && AllCounted(r)
  {
    hide Counted;
    if t !in s.threads && pc.c in s.conns {
      var r := s.(threads := s.threads[t := pc]);
      forall d | d in r.conns ensures Counted(r.conns[d], Holder(r, d), Left(r.acks, d)) {
        assert Holder(r, d) == Holder(s, d);
      }
    }
  }

  lemma {:induction false} RunsAreOrderly(s: State, schedule: seq<Action>)
    requires Orderly(s)
    ensures Orderly(Run(s, schedule))
    decreases |schedule|
  {
    hide Orderly;
    if schedule != [] {
      StepIsOrderly(s, schedule[0]);
      RunsAreOrderly(Step(s, schedule[0]), schedule[1..]);
    }
  }

  lemma InitialIsOrderly(size: nat, cnt: nat)
    ensures Orderly(Initial(size, cnt))
  {
    InitialConserves(size, cnt);
  }

  // ---- The two promises ----

  /** When the controller acknowledges no more packets than it was sent, no Put ever recycles a buffer
      that a train is filling or has not flushed yet: in every reachable state it is still in flight on
      that train's connection, in the newest place of the queue. */
  lemma FillingBuffersAreInFlight(size: nat, cnt: nat, schedule: seq<Action>, t: Thread)
    ensures var s := Run(Initial(size, cnt), schedule);
            t in s.threads && (s.threads[t].Filling? || s.threads[t].Flushing?) ==>
              && var c, b := s.threads[t].c, s.threads[t].b;
              && c in s.conns && s.conns[c].sent != [] && s.conns[c].sent[|s.conns[c].sent| - 1] == b
              && b < |s.at| == |s.caps| && s.at[b] == InFlight(c) && s.caps[b] == size
  {
    hide Run, Conserved, Exclusive, AllCounted;
    InitialIsOrderly(size, cnt);
    RunsAreOrderly(Initial(size, cnt), schedule);
    BuffersAreConserved(Initial(size, cnt), schedule);
    var s := Run(Initial(size, cnt), schedule);
    if t in s.threads && (s.threads[t].Filling? || s.threads[t].Flushing?) {
      FillerHasNewest(s, t);
      NewestIsInFlight(s, s.threads[t].c);
    }
  }

  lemma FillerHasNewest(s: State, t: Thread)
    requires Exclusive(s) && AllCounted(s) && t in s.threads && (s.threads[t].Filling? || s.threads[t].Flushing?)
    ensures s.threads[t].c in s.conns && FillsNewest(s.conns[s.threads[t].c], s.threads[t].b)
  {
    var c := s.threads[t].c;
    assert Counted(s.conns[c], Holder(s, c), Left(s.acks, c));
  }

  lemma NewestIsInFlight(s: State, c: ConnId)
    requires Conserved(s) && c in s.conns && s.conns[c].sent != []
    ensures var b := s.conns[c].sent[|s.conns[c].sent| - 1];
            b < |s.at| == |s.caps| && s.at[b] == InFlight(c) && s.caps[b] == s.size
  {
    hide HandsMatch;
  }

  lemma ReclaimedStays(s: State, a: Action, c: ConnId)
    requires c in s.conns && s.conns[c].reclaimed
    ensures c in Step(s, a).conns && Step(s, a).conns[c].reclaimed
  {
  }

  lemma {:induction false} ReclaimedForever(s: State, schedule: seq<Action>, c: ConnId)
    requires c in s.conns && s.conns[c].reclaimed
    ensures c in Run(s, schedule).conns && Run(s, schedule).conns[c].reclaimed
    decreases |schedule|
  {
    hide Step;
    if schedule != [] {
      ReclaimedStays(s, schedule[0], c);
      ReclaimedForever(Step(s, schedule[0]), schedule[1..], c);
    }
  }

  /** Reclaiming is final: once a teardown's ReclaimAll has finished, the connection's in-flight queue is
      empty and stays so, whatever was parked in the credit wait, between acquire and flush, or about to
      start, and whatever starts later. */
  lemma ReclaimIsFinal(size: nat, cnt: nat, before: seq<Action>, after: seq<Action>, c: ConnId)
    ensures var s := Run(Initial(size, cnt), before);
            var r := Run(s, after);
            c in s.conns && s.conns[c].reclaimed ==> c in r.conns && r.conns[c].done && r.conns[c].sent == []
  {
    hide Run;
    InitialIsOrderly(size, cnt);
    RunsAreOrderly(Initial(size, cnt), before);
    var s := Run(Initial(size, cnt), before);
    RunsAreOrderly(s, after);
    if c in s.conns && s.conns[c].reclaimed {
      ReclaimedForever(s, after, c);
      assert Counted(Run(s, after).conns[c], Holder(Run(s, after), c), Left(Run(s, after).acks, c));
    }
  }
}
