/** What the protocol of AclCredits gives: completed packets refill the pool, and one buffer is enough for
    a write of any length. */
module AclProgress {
  import opened Wrappers
  import opened AclCredits

  lemma {:induction false} RunAppend(s: State, xs: seq<Action>, ys: seq<Action>)
    ensures Run(s, xs + ys) == Run(Run(s, xs), ys)
    decreases |xs|
  {
    if xs == [] {
      assert xs + ys == ys;
    } else {
      assert (xs + ys)[1..] == xs[1..] + ys;
      RunAppend(Step(s, xs[0]), xs[1..], ys);
    }
  }

  lemma RunFirst(s: State, a: Action, rest: seq<Action>)
    ensures Run(s, [a] + rest) == Run(Step(s, a), rest) && (rest == [] ==> Run(s, [a]) == Step(s, a))
  {
    assert [a][1..] == [];
    assert ([a] + rest)[1..] == rest;
  }

  lemma Reachable(size: nat, cnt: nat, schedule: seq<Action>)
    ensures var s := Run(Initial(size, cnt), schedule); Orderly(s) && s.size == size && s.cnt == cnt
  {
    hide Run, Orderly;
    InitialIsOrderly(size, cnt);
    RunsAreOrderly(Initial(size, cnt), schedule);
    InitialConserves(size, cnt);
    BuffersAreConserved(Initial(size, cnt), schedule);
  }

  // ---- Completed packets give their buffers back ----

  /** In every reachable state, each packet of a connection that was reported completed is one Put, made or
      left to be made; and while no teardown has reclaimed anything, each Put took a buffer that was in
      flight. So once the loop is idle exactly the completed ones are back, oldest first, and when all are
      completed none is in flight. */
  lemma CompletedBuffersAreBack(size: nat, cnt: nat, schedule: seq<Action>, c: ConnId)
    ensures var s := Run(Initial(size, cnt), schedule);
            |s.at| == cnt && (c in s.conns ==>
              var k := s.conns[c];
              && k.puts + Left(s.acks, c) == k.acked
              && |k.sent| + k.popped + k.drained == k.pushed
              && (k.drained == 0 ==> k.popped == k.puts)
              && (k.drained == 0 && s.acks == None ==> k.popped == k.acked && |k.sent| == k.pushed - k.acked)
              && (k.drained == 0 && s.acks == None && k.acked == k.pushed ==>
                    forall b :: 0 <= b < cnt ==> s.at[b] != InFlight(c)))
  {
    hide Run;
    Reachable(size, cnt, schedule);
    var s := Run(Initial(size, cnt), schedule);
    if c in s.conns {
      assert Counted(s.conns[c], Holder(s, c), Left(s.acks, c));
    }
  }

  /** What the event loop does for n completed packets. */
  function PutTurns(n: nat): seq<Action> {
    if n == 0 then [Put] else [Put, PutBack] + PutTurns(n - 1)
  }

  /** From s to r, n Puts moved the n oldest buffers in flight on c to the pool, in order, and nothing else. */
  ghost predicate Refilled(s: State, r: State, c: ConnId, n: nat) {
    && c in s.conns && n <= |s.conns[c].sent|
    && var k := s.conns[c];
    && r.pool == s.pool + k.sent[..n] && r.threads == s.threads
    && r.conns == s.conns[c := k.(puts := k.puts + n, popped := k.popped + n, sent := k.sent[n..])]
  }

  lemma NoneRefilled(s: State, r: State, c: ConnId)
    requires c in s.conns && r.pool == s.pool && r.threads == s.threads && r.conns == s.conns
    ensures Refilled(s, r, c, 0)
  {
    var k := s.conns[c];
    assert k.sent[0..] == k.sent && s.pool + k.sent[..0] == s.pool;
    assert s.conns == s.conns[c := k];
  }

  lemma RefilledNext(s: State, m: State, r: State, c: ConnId, n: nat)
    requires Refilled(s, m, c, 1) && Refilled(m, r, c, n)
    ensures Refilled(s, r, c, n + 1)
  {
    var q := s.conns[c].sent;
    assert q[1..][..n] == q[1..n + 1] && q[1..][n..] == q[n + 1..] && q[..n + 1] == q[..1] + q[1..n + 1];
    assert s.pool + q[..1] + q[1..n + 1] == s.pool + q[..n + 1];
  }

  /** One Put, with its send to the pool. */
  lemma OnePut(s: State, c: ConnId, n: nat)
    requires Orderly(s) && s.acks == Some(Acks(c, n, None)) && n > 0 && c in s.conns && s.conns[c].drained == 0
    ensures var r := Step(Step(s, Put), PutBack);
            && Orderly(r) && r.acks == Some(Acks(c, n - 1, None))
            && Refilled(s, r, c, 1) && c in r.conns && r.conns[c].drained == 0
  {
    hide Orderly, Holder;
    PutFindsOne(s, c, n);
    var m := Step(s, Put);
    StepIsOrderly(s, Put);
    StepIsOrderly(m, PutBack);
    PutBackHasRoom(m);
  }

  lemma PutFindsOne(s: State, c: ConnId, n: nat)
    requires Orderly(s) && s.acks == Some(Acks(c, n, None))
    ensures c in s.conns && (n > 0 && s.conns[c].drained == 0 ==> s.conns[c].sent != [])
    ensures s.conns[c].sent != [] ==> s.conns[c].sent[0] < |s.at|
  {
    hide Lists, HandsMatch;
    assert Counted(s.conns[c], Holder(s, c), Left(s.acks, c));
    if s.conns[c].sent != [] {
      HeadIsAt(s.conns[c].sent, s.at, InFlight(c));
    }
  }

  lemma PutBackHasRoom(s: State)
    requires Orderly(s) && s.acks.Some? && s.acks.value.hand.Some?
    ensures s.acks.value.hand.value < |s.at| && |s.pool| < s.cnt
  {
    hide Lists;
    RoomFor(s.pool, s.at, InPool, s.acks.value.hand.value);
  }

  lemma {:induction false} PutsRefill(s: State, c: ConnId, n: nat)
    requires Orderly(s) && s.acks == Some(Acks(c, n, None)) && c in s.conns && s.conns[c].drained == 0
    ensures var r := Run(s, PutTurns(n)); Orderly(r) && r.acks == None && Refilled(s, r, c, n)
    decreases n
  {
    hide Orderly, Run, Refilled;
    if n == 0 {
      RunFirst(s, Put, []);
      StepIsOrderly(s, Put);
      NoneRefilled(s, Step(s, Put), c);
    } else {
      OnePut(s, c, n);
      var m := Step(Step(s, Put), PutBack);
      PutsRefill(m, c, n - 1);
      assert [Put, PutBack] + PutTurns(n - 1) == [Put] + ([PutBack] + PutTurns(n - 1));
      RunFirst(s, Put, [PutBack] + PutTurns(n - 1));
      RunFirst(Step(s, Put), PutBack, PutTurns(n - 1));
      RefilledNext(s, m, Run(s, PutTurns(n)), c, n - 1);
    }
  }

  /** A NumberOfCompletedPackets entry for n packets, handled to its end, moves exactly the connection's n
      oldest buffers in flight to the pool, in order, and nothing else. */
  lemma CompletionRefillsPool(s: State, c: ConnId, n: nat)
    requires Orderly(s) && s.acks == None && c in s.conns && s.conns[c].drained == 0
    requires s.conns[c].acked + n <= s.conns[c].flushed
    ensures var r := Run(s, [Completed(c, n)] + PutTurns(n));
            && Orderly(r) && r.acks == None
            && Refilled(s.(conns := s.conns[c := s.conns[c].(acked := s.conns[c].acked + n)]), r, c, n)
  {
    hide Orderly, Run;
    StepIsOrderly(s, Completed(c, n));
    PutsRefill(Step(s, Completed(c, n)), c, n);
    RunFirst(s, Completed(c, n), PutTurns(n));
  }

  // ---- One buffer is enough for a write of any length ----

  /** A goroutine's turns for one fragment, from the wait for a buffer to the flush. */
  function FragmentTurns(t: Thread): seq<Action> {
    [Advance(t, Acquire), Advance(t, Enqueue), Advance(t, Fill), Advance(t, Flush(true))]
  }

  lemma RunFour(s: State, a: Action, b: Action, c: Action, d: Action)
    ensures Run(s, [a, b, c, d]) == Step(Step(Step(Step(s, a), b), c), d)
  {
    assert [a, b, c, d] == [a] + ([b] + ([c] + [d]));
    RunFirst(s, a, [b] + ([c] + [d]));
    RunFirst(Step(s, a), b, [c] + [d]);
    RunFirst(Step(Step(s, a), b), c, [d]);
    RunFirst(Step(Step(Step(s, a), b), c), d, []);
  }

  /** A goroutine that goes on from what its earlier moves left. */
  lemma MovesChain(s: State, t: Thread, l: Local, m: Move)
    requires t in s.threads && s.threads[t].c in s.conns && l.pc.Some? && l.pc.value.c == s.threads[t].c
    ensures Step(With(s, t, l), Advance(t, m)) == With(s, t, Moved(l, t, m, s.cnt))
  {
    hide Moved;
    var r := With(s, t, l);
    assert LocalOf(r, t) == l;
    var n := Moved(l, t, m, s.cnt);
    assert n.pc == None ==> r.threads - {t} == s.threads - {t};
  }

  lemma FourMoves(s: State, t: Thread, a: Move, b: Move, c: Move, d: Move)
    requires t in s.threads && s.threads[t].c in s.conns
    ensures var l0 := LocalOf(s, t);
            var l1 := Moved(l0, t, a, s.cnt);
            var l2 := Moved(l1, t, b, s.cnt);
            var l3 := Moved(l2, t, c, s.cnt);
            l1.pc.Some? && l2.pc.Some? && l3.pc.Some? ==>
              Run(s, [Advance(t, a), Advance(t, b), Advance(t, c), Advance(t, d)]) == With(s, t, Moved(l3, t, d, s.cnt))
  {
    hide Moved, With, Step, Run;
    var l0 := LocalOf(s, t);
    var l1 := Moved(l0, t, a, s.cnt);
    var l2 := Moved(l1, t, b, s.cnt);
    var l3 := Moved(l2, t, c, s.cnt);
    if l1.pc.Some? && l2.pc.Some? && l3.pc.Some? {
      RunFour(s, Advance(t, a), Advance(t, b), Advance(t, c), Advance(t, d));
      NothingMoved(s, t);
      MovedPlaces(l0, t, a, s.cnt);
      MovedPlaces(l1, t, b, s.cnt);
      MovedPlaces(l2, t, c, s.cnt);
      MovesChain(s, t, l0, a);
      MovesChain(s, t, l1, b);
      MovesChain(s, t, l2, c);
      MovesChain(s, t, l3, d);
    }
  }

  /** The bytes of the next fragment when buffers hold `room` of them. */
  function NextFragment(rest: nat, room: nat): nat {
    if rest > room then room else rest
  }

  /** The four moves that flush a fragment, when the pool has a buffer and sent has room. */
  lemma FragmentIsFlushed(l: Local, t: Thread, cnt: nat, size: nat)
    requires l.pc.Some? && l.pc.value.Waiting? && l.pool != [] && !l.k.done && size >= 5 && |l.k.sent| < cnt
    requires l.pool[0] < |l.at| == |l.caps| && l.caps[l.pool[0]] == size
    ensures var b, c, rest := l.pool[0], l.pc.value.c, l.pc.value.rest;
            var n, k := NextFragment(rest, size - 5), l.k;
            var l1 := Moved(l, t, Acquire, cnt);
            var l2 := Moved(l1, t, Enqueue, cnt);
            var l3 := Moved(l2, t, Fill, cnt);
            && l1.pc.Some? && l2.pc.Some? && l3.pc.Some?
            && Moved(l3, t, Flush(true), cnt)
            == Local(l.pool[1..], l.caps, l.at[b := InFlight(c)],
                     k.(sent := k.sent + [b], pushed := k.pushed + 1, flushed := k.flushed + 1),
                     Some(if n == rest then Unlocking(c) else Waiting(c, rest - n)))
  {
    var b, c := l.pool[0], l.pc.value.c;
    assert l.at[b := InHand(t)][b := InFlight(c)] == l.at[b := InFlight(c)];
  }

  /** A train that waits on an open connection gets the oldest buffer of a non-empty pool and flushes its
      next fragment: as much of what is left as the buffer holds behind the header. */
  lemma WaitingTrainFlushes(s: State, t: Thread)
    requires Orderly(s) && t in s.threads && s.threads[t].Waiting? && s.threads[t].c in s.conns
    requires s.pool != [] && !s.conns[s.threads[t].c].done && s.size >= 5
    ensures var r, c, rest := Run(s, FragmentTurns(t)), s.threads[t].c, s.threads[t].rest;
            var n, k := NextFragment(rest, s.size - 5), s.conns[c];
            && Orderly(r) && r.pool == s.pool[1..] && r.acks == s.acks && r.size == s.size
            && r.threads == s.threads[t := if n == rest then Unlocking(c) else Waiting(c, rest - n)]
            && r.conns == s.conns[c := k.(sent := k.sent + [s.pool[0]], pushed := k.pushed + 1,
                                          flushed := k.flushed + 1)]
  {
    hide Orderly, Run, Moved;
    RunsAreOrderly(s, FragmentTurns(t));
    BufferIsReady(s, s.threads[t].c);
    FragmentIsFlushed(LocalOf(s, t), t, s.cnt, s.size);
    FourMoves(s, t, Acquire, Enqueue, Fill, Flush(true));
  }

  /** The pool's oldest buffer is one the connection can send. */
  lemma BufferIsReady(s: State, c: ConnId)
    requires Orderly(s) && s.pool != [] && c in s.conns
    ensures s.pool[0] < |s.at| == |s.caps| && s.caps[s.pool[0]] == s.size && |s.conns[c].sent| < s.cnt
  {
    HeadIsAt(s.pool, s.at, InPool);
    RoomFor(s.conns[c].sent, s.at, InFlight(c), s.pool[0]);
  }

  /** How many fragments a PDU takes. */
  function FragmentCount(rest: nat, room: nat): (n: nat)
    requires room > 0
    ensures n * room >= rest && (n > 0 ==> (n - 1) * room < rest)
    decreases rest
  {
    if rest == 0 then 0
    else
      var more := FragmentCount(rest - NextFragment(rest, room), room);
      assert (1 + more) * room == room + more * room;
      assert more > 0 ==> more * room == room + (more - 1) * room;
      1 + more
  }

  /** A train that waits on an open connection, with a buffer in the pool and the loop idle. */
  ghost predicate Ready(s: State, t: Thread, c: ConnId) {
    && Orderly(s) && t in s.threads && s.threads[t].Waiting? && s.threads[t].c == c && c in s.conns
    && s.pool != [] && !s.conns[c].done && s.acks == None
  }

  lemma HolderIs(s: State, t: Thread, c: ConnId)
    requires Orderly(s) && t in s.threads && s.threads[t].c == c && Critical(s.threads[t])
    ensures c in s.conns && s.conns[c].mu == Some(t)
    ensures s.conns[c].acked <= s.conns[c].flushed
    ensures s.threads[t].Waiting? ==> s.conns[c].drained == 0
  {
    hide Conserved;
    assert Counted(s.conns[c], Holder(s, c), Left(s.acks, c));
  }

  /** Once its fragment is out, the packet's completion gives the train a buffer for the next one. */
  lemma NextBufferComes(s: State, t: Thread, c: ConnId)
    requires Orderly(s) && t in s.threads && s.threads[t].Waiting? && s.threads[t].c == c && c in s.conns
    requires !s.conns[c].done && s.acks == None && s.conns[c].acked < s.conns[c].flushed
    ensures var r := Run(s, [Completed(c, 1)] + PutTurns(1));
            && Ready(r, t, c) && r.threads == s.threads && r.size == s.size
            && r.conns[c].flushed == s.conns[c].flushed
  {
    hide Orderly, Run;
    var turns := [Completed(c, 1)] + PutTurns(1);
    HolderIs(s, t, c);
    CompletionRefillsPool(s, c, 1);
    SizeStays(s, turns);
  }

  lemma SizeStays(s: State, turns: seq<Action>)
    requires Orderly(s)
    ensures Run(s, turns).size == s.size
  {
    hide Conserved, Run;
    BuffersAreConserved(s, turns);
  }

  /** With one buffer in the pool a waiting train, however long, can flush all of its fragments. */
  lemma {:induction false} TrainCanFinish(s: State, t: Thread, c: ConnId) returns (turns: seq<Action>)
    requires Ready(s, t, c) && s.threads[t].rest > 0 && s.size > 5
    ensures var r := Run(s, turns);
            && Orderly(r) && r.threads == s.threads[t := Unlocking(c)] && c in r.conns && r.acks == None
            && r.conns[c].flushed == s.conns[c].flushed + FragmentCount(s.threads[t].rest, s.size - 5)
    decreases s.threads[t].rest
  {
    hide Orderly, Run;
    var rest := s.threads[t].rest;
    HolderIs(s, t, c);
    WaitingTrainFlushes(s, t);
    turns := FragmentTurns(t);
    var m := Run(s, turns);
    if rest > s.size - 5 {
      NextBufferComes(m, t, c);
      var ack := [Completed(c, 1)] + PutTurns(1);
      var more := TrainCanFinish(Run(m, ack), t, c);
      RunAppend(s, turns, ack + more);
      RunAppend(m, ack, more);
      turns := turns + (ack + more);
    } else {
      assert FragmentCount(0, s.size - 5) == 0;
    }
  }

  /** The turns that take a write to its first wait. */
  lemma WriteGetsToWait(s: State, t: Thread, c: ConnId, len: nat)
    requires Orderly(s) && t !in s.threads && c in s.conns && s.conns[c].mu == None && !s.conns[c].done && len > 0
    requires s.pool != [] && s.acks == None
    ensures var r := Run(s, [StartWrite(t, c, len), Advance(t, Lock), Advance(t, Check)]);
            && Ready(r, t, c) && r.threads == s.threads[t := Waiting(c, len)] && r.size == s.size
            && r.conns[c].flushed == s.conns[c].flushed
  {
    hide Orderly, Run;
    var turns := [StartWrite(t, c, len), Advance(t, Lock), Advance(t, Check)];
    RunsAreOrderly(s, turns);
    var s1 := Step(s, StartWrite(t, c, len));
    var s2 := Step(s1, Advance(t, Lock));
    assert turns == [StartWrite(t, c, len)] + ([Advance(t, Lock)] + [Advance(t, Check)]);
    RunFirst(s, StartWrite(t, c, len), [Advance(t, Lock)] + [Advance(t, Check)]);
    RunFirst(s1, Advance(t, Lock), [Advance(t, Check)]);
    RunFirst(s2, Advance(t, Check), []);
    assert s2.threads[t] == Checking(c, len);
  }

  /** From every reachable state with a buffer in the pool and the event loop idle, a write of any length on
      an open connection whose mutex is free has a continuation in which all of its fragments are flushed
      and the mutex is free again: completed packets refill the pool as the train needs it. */
  lemma WritesCanFinish(size: nat, cnt: nat, schedule: seq<Action>, t: Thread, c: ConnId, len: nat)
    returns (turns: seq<Action>)
    requires size > 5 && len > 0
    requires var s := Run(Initial(size, cnt), schedule);
             && s.pool != [] && s.acks == None && t !in s.threads
             && c in s.conns && s.conns[c].mu == None && !s.conns[c].done
    ensures var s := Run(Initial(size, cnt), schedule);
            var r := Run(s, turns);
            && r.threads == s.threads && c in r.conns && r.conns[c].mu == None && r.acks == None
            && r.conns[c].flushed == s.conns[c].flushed + FragmentCount(len, size - 5)
  {
    hide Orderly, Run;
    Reachable(size, cnt, schedule);
    var s := Run(Initial(size, cnt), schedule);
    var start := [StartWrite(t, c, len), Advance(t, Lock), Advance(t, Check)];
    WriteGetsToWait(s, t, c, len);
    var m := Run(s, start);
    var train := TrainCanFinish(m, t, c);
    var n := Run(m, train);
    RunFirst(n, Advance(t, Unlock), []);
    assert (s.threads[t := Waiting(c, len)][t := Unlocking(c)]) - {t} == s.threads;
    RunAppend(s, start, train + [Advance(t, Unlock)]);
    RunAppend(m, train, [Advance(t, Unlock)]);
    turns := start + (train + [Advance(t, Unlock)]);
  }

  // ---- Nobody is kept waiting ----

  /** A train that waits for a buffer can give up, which frees the mutex and changes nothing else. */
  lemma WaitingTrainGivesUp(s: State, t: Thread, c: ConnId)
    requires Orderly(s) && t in s.threads && s.threads[t].Waiting? && s.threads[t].c == c
    ensures c in s.conns
    ensures Run(s, [Advance(t, GiveUp), Advance(t, Unlock)])
         == s.(conns := s.conns[c := s.conns[c].(mu := None)], threads := s.threads - {t})
  {
    hide Orderly, Run, Moved;
    HolderIs(s, t, c);
    var l := LocalOf(s, t);
    var given := l.(pc := Some(Unlocking(c)));
    GivesUp(l, t, s.cnt);
    NothingMoved(s, t);
    MovesChain(s, t, l, GiveUp);
    MovesChain(s, t, given, Unlock);
    RunFirst(s, Advance(t, GiveUp), [Advance(t, Unlock)]);
    RunFirst(Step(s, Advance(t, GiveUp)), Advance(t, Unlock), []);
    assert [Advance(t, GiveUp)] + [Advance(t, Unlock)] == [Advance(t, GiveUp), Advance(t, Unlock)];
  }

  lemma GivesUp(l: Local, t: Thread, cnt: nat)
    requires l.pc.Some? && l.pc.value.Waiting?
    ensures Moved(l, t, GiveUp, cnt) == l.(pc := Some(Unlocking(l.pc.value.c)))
    ensures Moved(l.(pc := Some(Unlocking(l.pc.value.c))), t, Unlock, cnt) == l.(k := l.k.(mu := None), pc := None)
  {
  }

  /** A teardown's turns while n buffers are in flight. */
  function DrainTurns(t: Thread, n: nat): seq<Action> {
    if n == 0 then [Advance(t, Drain), Advance(t, Unlock)]
    else [Advance(t, Drain), Advance(t, Return)] + DrainTurns(t, n - 1)
  }

  /** One buffer reclaimed. */
  lemma OneReclaimed(s: State, t: Thread, c: ConnId)
    requires Orderly(s) && t in s.threads && s.threads[t] == Draining(c) && c in s.conns && s.conns[c].sent != []
    ensures var r, k := Step(Step(s, Advance(t, Drain)), Advance(t, Return)), s.conns[c];
            && Orderly(r) && r.threads == s.threads && r.pool == s.pool + [k.sent[0]] && r.acks == s.acks
            && r.conns == s.conns[c := k.(sent := k.sent[1..], drained := k.drained + 1)]
  {
    hide Orderly;
    OldestIsInFlight(s, c);
    var m := Step(s, Advance(t, Drain));
    StepIsOrderly(s, Advance(t, Drain));
    assert m.threads[t] == Returning(c, s.conns[c].sent[0]);
    ReturnHasRoom(m, t);
    StepIsOrderly(m, Advance(t, Return));
    assert s.threads[t := Returning(c, s.conns[c].sent[0])][t := Draining(c)] == s.threads;
  }

  lemma OldestIsInFlight(s: State, c: ConnId)
    requires Orderly(s) && c in s.conns && s.conns[c].sent != []
    ensures s.conns[c].sent[0] < |s.at|
  {
    HeadIsAt(s.conns[c].sent, s.at, InFlight(c));
  }

  lemma ReturnHasRoom(s: State, t: Thread)
    requires Orderly(s) && t in s.threads && s.threads[t].Returning?
    ensures |s.pool| < s.cnt && s.threads[t].b < |s.at|
  {
    hide Lists;
    RoomFor(s.pool, s.at, InPool, s.threads[t].b);
  }

  /** A teardown that has the mutex can finish: every buffer in flight goes back to the pool, in order, and
      the mutex is free. */
  lemma {:induction false} DrainCanFinish(s: State, t: Thread, c: ConnId)
    requires Orderly(s) && t in s.threads && s.threads[t] == Draining(c) && c in s.conns
    ensures var r, k := Run(s, DrainTurns(t, |s.conns[c].sent|)), s.conns[c];
            && r.pool == s.pool + k.sent && r.threads == s.threads - {t} && c in r.conns
            && r.conns[c].sent == [] && r.conns[c].reclaimed && r.conns[c].mu == None
            && r.conns[c].drained == k.drained + |k.sent|
    decreases |s.conns[c].sent|
  {
    hide Orderly, Run, Step;
    var k := s.conns[c];
    if k.sent == [] {
      DrainEnds(s, t, c);
    } else {
      OneReclaimed(s, t, c);
      var m, rest := Step(s, Advance(t, Drain)), DrainTurns(t, |k.sent| - 1);
      DrainCanFinish(Step(m, Advance(t, Return)), t, c);
      RunFirst(s, Advance(t, Drain), [Advance(t, Return)] + rest);
      RunFirst(m, Advance(t, Return), rest);
      assert [Advance(t, Drain)] + ([Advance(t, Return)] + rest) == DrainTurns(t, |k.sent|);
      assert s.pool + [k.sent[0]] + k.sent[1..] == s.pool + k.sent;
    }
  }

  lemma DrainEnds(s: State, t: Thread, c: ConnId)
    requires t in s.threads && s.threads[t] == Draining(c) && c in s.conns && s.conns[c].sent == []
    ensures Run(s, DrainTurns(t, 0))
         == s.(conns := s.conns[c := s.conns[c].(reclaimed := true, mu := None)], threads := s.threads - {t})
  {
    hide Run, Moved;
    var l := LocalOf(s, t);
    var done := l.(k := l.k.(reclaimed := true), pc := Some(Unlocking(c)));
    EndsAndUnlocks(l, t, s.cnt);
    NothingMoved(s, t);
    MovesChain(s, t, l, Drain);
    MovesChain(s, t, done, Unlock);
    RunFirst(s, Advance(t, Drain), [Advance(t, Unlock)]);
    RunFirst(Step(s, Advance(t, Drain)), Advance(t, Unlock), []);
    assert [Advance(t, Drain)] + [Advance(t, Unlock)] == DrainTurns(t, 0);
  }

  lemma EndsAndUnlocks(l: Local, t: Thread, cnt: nat)
    requires l.pc.Some? && l.pc.value.Draining? && l.k.sent == []
    ensures var done := l.(k := l.k.(reclaimed := true), pc := Some(Unlocking(l.pc.value.c)));
            && Moved(l, t, Drain, cnt) == done
            && Moved(done, t, Unlock, cnt) == done.(k := done.k.(mu := None), pc := None)
  {
  }

  /** From every reachable state, a teardown of a connection whose mutex is free can run to its end, with
      all of the connection's buffers back in the pool. */
  lemma TeardownCanFinish(size: nat, cnt: nat, schedule: seq<Action>, t: Thread, c: ConnId)
    requires var s := Run(Initial(size, cnt), schedule); t !in s.threads && c in s.conns && s.conns[c].mu == None
    ensures var s := Run(Initial(size, cnt), schedule);
            var start := [StartTeardown(t, c), Advance(t, Close), Advance(t, Lock)];
            var r := Run(s, start + DrainTurns(t, |s.conns[c].sent|));
            && r.pool == s.pool + s.conns[c].sent && r.threads == s.threads && c in r.conns
            && r.conns[c].sent == [] && r.conns[c].done && r.conns[c].reclaimed && r.conns[c].mu == None
  {
    hide Orderly, Run, Counted;
    Reachable(size, cnt, schedule);
    var s := Run(Initial(size, cnt), schedule);
    var start := [StartTeardown(t, c), Advance(t, Close), Advance(t, Lock)];
    TeardownStarts(s, t, c);
    var m := Run(s, start);
    RunsAreOrderly(s, start);
    DrainCanFinish(m, t, c);
    var more := DrainTurns(t, |s.conns[c].sent|);
    RunAppend(s, start, more);
    RunsAreOrderly(s, start + more);
    ReclaimedIsDone(Run(s, start + more), c);
    assert s.threads[t := Draining(c)] - {t} == s.threads;
  }

  lemma ReclaimedIsDone(s: State, c: ConnId)
    requires Orderly(s) && c in s.conns && s.conns[c].reclaimed
    ensures s.conns[c].done
  {
    assert Counted(s.conns[c], Holder(s, c), Left(s.acks, c));
  }

  lemma TeardownStarts(s: State, t: Thread, c: ConnId)
    requires t !in s.threads && c in s.conns && s.conns[c].mu == None
    ensures var r := Run(s, [StartTeardown(t, c), Advance(t, Close), Advance(t, Lock)]);
            && r.threads == s.threads[t := Draining(c)] && r.pool == s.pool
            && r.conns == s.conns[c := s.conns[c].(done := true, mu := Some(t))]
  {
    hide Run, Moved;
    var s1 := s.(threads := s.threads[t := Closing(c)]);
    assert s1 == Step(s, StartTeardown(t, c));
    var l := LocalOf(s1, t);
    var closed := l.(k := l.k.(done := true), pc := Some(ReclaimLocking(c)));
    ClosesAndLocks(l, t, s.cnt);
    NothingMoved(s1, t);
    MovesChain(s1, t, l, Close);
    MovesChain(s1, t, closed, Lock);
    RunFirst(s, StartTeardown(t, c), [Advance(t, Close)] + [Advance(t, Lock)]);
    RunFirst(s1, Advance(t, Close), [Advance(t, Lock)]);
    RunFirst(Step(s1, Advance(t, Close)), Advance(t, Lock), []);
    assert [StartTeardown(t, c)] + ([Advance(t, Close)] + [Advance(t, Lock)])
        == [StartTeardown(t, c), Advance(t, Close), Advance(t, Lock)];
  }

  lemma ClosesAndLocks(l: Local, t: Thread, cnt: nat)
    requires l.pc.Some? && l.pc.value.Closing? && l.k.mu == None
    ensures var closed := l.(k := l.k.(done := true), pc := Some(ReclaimLocking(l.pc.value.c)));
            && Moved(l, t, Close, cnt) == closed
            && Moved(closed, t, Lock, cnt)
            == closed.(k := closed.k.(mu := Some(t)), pc := Some(Draining(l.pc.value.c)))
  {
  }
}
