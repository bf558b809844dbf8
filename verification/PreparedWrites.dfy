/** The prepare-write queue and what Execute Write makes of it (linux/att/server.go). */
module PreparedWrites {
  import opened Bytes
  import opened AttDb
  import opened AttPdu

  const MAX_PREPARED_WRITES := 64
  const MAX_PREPARED_WRITE_BYTES := 512

  /** One queued Prepare Write Request. */
  datatype PreparedWrite = PreparedWrite(a: Attr, handle: U16, offset: U16, value: seq<Byte>)

  /** One call of an attribute's write handler. */
  datatype Delivery = Delivery(a: Attr, offset: nat, data: seq<Byte>)

  function QueuedBytes(q: seq<PreparedWrite>): nat {
    if q == [] then 0 else |q[0].value| + QueuedBytes(q[1..])
  }

  lemma {:induction false} QueuedBytesAppend(q: seq<PreparedWrite>, p: PreparedWrite)
    ensures QueuedBytes(q + [p]) == QueuedBytes(q) + |p.value|
  {
    if q != [] {
      assert (q + [p])[1..] == q[1..] + [p];
      QueuedBytesAppend(q[1..], p);
    } else {
      assert q + [p] == [p];
    }
  }

  /** How many parts at the head of q continue a write to `a` that has reached offset `next`. */
  function Contiguous(q: seq<PreparedWrite>, a: Attr, next: int): (k: nat)
    ensures k <= |q|
  {
    if q == [] || q[0].a != a || q[0].offset != next then 0
    else 1 + Contiguous(q[1..], a, next + |q[0].value|)
  }

  /** The number of parts in the first run of a non-empty queue. */
  function RunLength(q: seq<PreparedWrite>): (k: nat)
    requires q != []
    ensures 1 <= k <= |q|
  {
    1 + Contiguous(q[1..], q[0].a, q[0].offset + |q[0].value|)
  }

  function Data(q: seq<PreparedWrite>): seq<Byte> {
    if q == [] then [] else q[0].value + Data(q[1..])
  }

  lemma FirstData(q: seq<PreparedWrite>)
    requires |q| == 1
    ensures Data(q) == q[0].value
  {
    assert q[1..] == [];
  }

  lemma ContiguousStep(q: seq<PreparedWrite>, a: Attr, next: int)
    requires q != []
    ensures Contiguous(q, a, next)
         == if q[0].a != a || q[0].offset != next then 0 else 1 + Contiguous(q[1..], a, next + |q[0].value|)
  {
  }

  lemma NoneContiguous(q: seq<PreparedWrite>, a: Attr, next: int)
    requires q == []
    ensures Contiguous(q, a, next) == 0
  {
  }

  /** A queue as runs: contiguous parts to one attribute become one delivery. */
  function Runs(q: seq<PreparedWrite>): (r: seq<(Delivery, U16)>)
    decreases |q|
  {
    if q == [] then []
    else
      var k := RunLength(q);
      [(Delivery(q[0].a, q[0].offset, Data(q[..k])), q[0].handle)] + Runs(q[k..])
  }

  /** The deliveries Execute Write makes: in order, up to and including the first refused one. */
  function Delivered(runs: seq<(Delivery, U16)>, onWrite: nat -> Byte, i: nat): (r: seq<Delivery>) {
    if runs == [] then []
    else [runs[0].0] + if onWrite(i) != SUCCESS then [] else Delivered(runs[1..], onWrite, i + 1)
  }

  /** The Execute Write outcome: the response, after the deliveries above. */
  function ExecuteRsp(runs: seq<(Delivery, U16)>, onWrite: nat -> Byte, i: nat): (r: seq<Byte>)
    ensures 0 < |r| <= 5
  {
    if runs == [] then [EXECUTE_WRITE_RESPONSE]
    else if onWrite(i) != SUCCESS then ErrorRsp(EXECUTE_WRITE_REQUEST, runs[0].1, onWrite(i))
    else ExecuteRsp(runs[1..], onWrite, i + 1)
  }

  lemma RunsStep(q: seq<PreparedWrite>, i: nat, j: nat)
    requires i < |q| && j == i + RunLength(q[i..])
    ensures j <= |q|
    ensures Runs(q[i..]) == [(Delivery(q[i].a, q[i].offset, Data(q[i..j])), q[i].handle)] + Runs(q[j..])
  {
    assert q[i..][..j - i] == q[i..j] && q[i..][j - i..] == q[j..];
  }

  lemma DeliverStep(run: (Delivery, U16), rest: seq<(Delivery, U16)>, onWrite: nat -> Byte, i: nat, log: seq<Delivery>)
    ensures log + Delivered([run] + rest, onWrite, i)
         == (log + [run.0]) + if onWrite(i) != SUCCESS then [] else Delivered(rest, onWrite, i + 1)
    ensures ExecuteRsp([run] + rest, onWrite, i)
         == if onWrite(i) != SUCCESS then ErrorRsp(EXECUTE_WRITE_REQUEST, run.1, onWrite(i))
            else ExecuteRsp(rest, onWrite, i + 1)
  {
    assert ([run] + rest)[1..] == rest;
    if onWrite(i) == SUCCESS {
      assert log + ([run.0] + Delivered(rest, onWrite, i + 1)) == (log + [run.0]) + Delivered(rest, onWrite, i + 1);
    }
  }

  lemma {:induction false} DataAppend(q: seq<PreparedWrite>, p: PreparedWrite)
    ensures Data(q + [p]) == Data(q) + p.value
  {
    if q == [] {
      assert q + [p] == [p];
    } else {
      assert (q + [p])[1..] == q[1..] + [p];
      DataAppend(q[1..], p);
    }
  }

  // ---- Coalescing keeps the meaning ----

  /** Byte stores, one per attribute: which byte stands at which position. */
  type Store = map<(Attr, nat), Byte>

  /** A handler that stores what it is given at the offset it is given. */
  function Apply(st: Store, d: Delivery): Store
    decreases |d.data|
  {
    if d.data == [] then st
    else Apply(st[(d.a, d.offset) := d.data[0]], Delivery(d.a, d.offset + 1, d.data[1..]))
  }

  function ApplyAll(st: Store, ds: seq<Delivery>): Store
    decreases |ds|
  {
    if ds == [] then st else ApplyAll(Apply(st, ds[0]), ds[1..])
  }

  /** The parts taken one by one, in arrival order. */
  function Parts(q: seq<PreparedWrite>): (r: seq<Delivery>)
    ensures |r| == |q|
  {
    seq(|q|, i requires 0 <= i < |q| => Delivery(q[i].a, q[i].offset, q[i].value))
  }

  function Coalesced(q: seq<PreparedWrite>): (r: seq<Delivery>) {
    Firsts(Runs(q))
  }

  lemma {:induction false} ApplyConcat(st: Store, a: Attr, off: nat, x: seq<Byte>, y: seq<Byte>)
    ensures Apply(st, Delivery(a, off, x + y)) == Apply(Apply(st, Delivery(a, off, x)), Delivery(a, off + |x|, y))
    decreases |x|
  {
    if x == [] {
      assert x + y == y;
    } else {
      assert (x + y)[1..] == x[1..] + y;
      ApplyConcat(st[(a, off) := x[0]], a, off + 1, x[1..], y);
    }
  }

  lemma {:induction false} ApplyAllAppend(st: Store, xs: seq<Delivery>, ys: seq<Delivery>)
    ensures ApplyAll(st, xs + ys) == ApplyAll(ApplyAll(st, xs), ys)
    decreases |xs|
  {
    if xs == [] {
      assert xs + ys == ys;
    } else {
      assert (xs + ys)[1..] == xs[1..] + ys;
      ApplyAllAppend(Apply(st, xs[0]), xs[1..], ys);
    }
  }

  /** The continuation parts of a run, applied one by one, write what their joined data writes. */
  lemma {:induction false} ContiguousParts(st: Store, q: seq<PreparedWrite>, a: Attr, next: nat)
    ensures var k := Contiguous(q, a, next);
            ApplyAll(st, Parts(q[..k])) == Apply(st, Delivery(a, next, Data(q[..k])))
    decreases |q|
  {
    hide Apply, ApplyAll, Parts, Data;
    var k := Contiguous(q, a, next);
    if k == 0 {
      NoParts(st, a, next);
    } else {
      var v, rest := q[0].value, q[1..][..k - 1];
      var p := Delivery(a, next, v);
      ContiguousParts(Apply(st, p), q[1..], a, next + |v|);
      assert q[..k] == [q[0]] + rest;
      FirstPart(st, q[0], rest);
      ApplyConcat(st, a, next, v, Data(rest));
    }
  }

  lemma NoParts(st: Store, a: Attr, next: nat)
    ensures ApplyAll(st, Parts([])) == Apply(st, Delivery(a, next, Data([])))
  {
  }

  lemma FirstPart(st: Store, p: PreparedWrite, rest: seq<PreparedWrite>)
    ensures ApplyAll(st, Parts([p] + rest)) == ApplyAll(Apply(st, Delivery(p.a, p.offset, p.value)), Parts(rest))
    ensures Data([p] + rest) == p.value + Data(rest)
  {
    var d := Delivery(p.a, p.offset, p.value);
    assert ([p] + rest)[1..] == rest;
    assert Parts([p] + rest)[0] == d && Parts([p] + rest)[1..] == Parts(rest);
  }

  lemma FirstRunParts(st: Store, q: seq<PreparedWrite>)
    requires q != []
    ensures var k := RunLength(q);
            ApplyAll(st, Parts(q[..k])) == Apply(st, Delivery(q[0].a, q[0].offset, Data(q[..k])))
  {
    hide Apply, ApplyAll, Parts, Data, Contiguous;
    var k := RunLength(q);
    var a, off, v := q[0].a, q[0].offset, q[0].value;
    var rest := q[1..][..k - 1];
    assert q[..k] == [q[0]] + rest;
    FirstPart(st, q[0], rest);
    ContiguousParts(Apply(st, Delivery(a, off, v)), q[1..], a, off + |v|);
    ApplyConcat(st, a, off, v, Data(rest));
  }

  function Firsts(runs: seq<(Delivery, U16)>): (r: seq<Delivery>)
    ensures |r| == |runs|
  {
    seq(|runs|, i requires 0 <= i < |runs| => runs[i].0)
  }

  lemma FirstsStep(run: (Delivery, U16), rest: seq<(Delivery, U16)>)
    ensures Firsts([run] + rest) == [run.0] + Firsts(rest)
  {
  }

  lemma CoalescedStep(q: seq<PreparedWrite>)
    requires q != []
    ensures var k := RunLength(q);
            && k > 0 && Coalesced(q) == [Delivery(q[0].a, q[0].offset, Data(q[..k]))] + Coalesced(q[k..])
            && Parts(q) == Parts(q[..k]) + Parts(q[k..])
  {
    hide Data, Firsts, RunLength;
    var k := RunLength(q);
    FirstsStep((Delivery(q[0].a, q[0].offset, Data(q[..k])), q[0].handle), Runs(q[k..]));
    PartsSplit(q, k);
  }

  lemma PartsSplit(q: seq<PreparedWrite>, k: nat)
    requires k <= |q|
    ensures Parts(q) == Parts(q[..k]) + Parts(q[k..])
  {
  }

  /** One delivery per run leaves every byte store exactly as the parts applied alone, in arrival
      order, would: for every queue, including offset gaps, overlaps, and attribute changes. */
  lemma {:induction false} CoalescingPreservesMeaning(st: Store, q: seq<PreparedWrite>)
    ensures ApplyAll(st, Coalesced(q)) == ApplyAll(st, Parts(q))
    decreases |q|
  {
    hide Apply, Parts, Coalesced, Data, RunLength, Runs;
    if q == [] {
      NothingQueued();
    } else {
      var k := RunLength(q);
      var d := Delivery(q[0].a, q[0].offset, Data(q[..k]));
      CoalescedStep(q);
      FirstRunParts(st, q);
      ApplyAllAppend(st, Parts(q[..k]), Parts(q[k..]));
      CoalescingPreservesMeaning(Apply(st, d), q[k..]);
      assert ([d] + Coalesced(q[k..]))[1..] == Coalesced(q[k..]);
    }
  }

  lemma NothingQueued()
    ensures Coalesced([]) == [] && Parts([]) == []
  {
  }

  /** The parts of one long write: consecutive pieces aimed at one attribute. */
  ghost predicate IsLongWrite(q: seq<PreparedWrite>, a: Attr, off: int) {
    q != [] ==> q[0].a == a && q[0].offset == off && IsLongWrite(q[1..], a, off + |q[0].value|)
  }

  /** A long write reaches its handler as one delivery of the whole value. */
  lemma LongWriteIsOneDelivery(q: seq<PreparedWrite>, a: Attr, off: nat)
    requires q != [] && IsLongWrite(q, a, off)
    ensures Runs(q) == [(Delivery(a, off, Data(q)), q[0].handle)]
    ensures Coalesced(q) == [Delivery(a, off, Data(q))]
  {
    LongWriteIsContiguous(q[1..], a, off + |q[0].value|);
    assert q[..|q|] == q;
    assert Runs(q[|q|..]) == [];
    assert Runs(q) == [(Delivery(a, off, Data(q)), q[0].handle)];
  }

  /** A part that starts where a long write ends continues it. */
  lemma {:induction false} LongWriteGrows(q: seq<PreparedWrite>, a: Attr, off: int, p: PreparedWrite)
    requires IsLongWrite(q, a, off) && p.a == a && p.offset == off + |Data(q)|
    ensures IsLongWrite(q + [p], a, off)
  {
    if q == [] {
      assert q + [p] == [p];
    } else {
      assert (q + [p])[1..] == q[1..] + [p];
      LongWriteGrows(q[1..], a, off + |q[0].value|, p);
    }
  }

  lemma {:induction false} QueuedBytesIsLength(q: seq<PreparedWrite>)
    ensures |Data(q)| == QueuedBytes(q)
  {
    if q != [] {
      QueuedBytesIsLength(q[1..]);
    }
  }

  lemma {:induction false} LongWriteIsContiguous(q: seq<PreparedWrite>, a: Attr, off: int)
    requires IsLongWrite(q, a, off)
    ensures Contiguous(q, a, off) == |q|
  {
    if q != [] {
      LongWriteIsContiguous(q[1..], a, off + |q[0].value|);
    }
  }

  lemma {:induction false} DeliveredArePrefix(runs: seq<(Delivery, U16)>, onWrite: nat -> Byte, i: nat)
    ensures var ds := Delivered(runs, onWrite, i);
            && |ds| <= |runs|
            && (forall j :: 0 <= j < |ds| ==> ds[j] == runs[j].0)
    decreases |runs|
  {
    if runs != [] && onWrite(i) == SUCCESS {
      var rest := runs[1..];
      DeliveredArePrefix(rest, onWrite, i + 1);
      var tail := Delivered(rest, onWrite, i + 1);
      assert Delivered(runs, onWrite, i) == [runs[0].0] + tail;
      forall j | 1 <= j < |tail| + 1 ensures ([runs[0].0] + tail)[j] == runs[j].0 {
        assert tail[j - 1] == rest[j - 1].0;
      }
    }
  }

  /** The deliveries actually made are a prefix of the runs. When all handlers accept, it is all of
      them and the response is the Execute Write Response; otherwise the last delivery is the first
      refused one, and the Error Response names that run's handle and carries that status. */
  lemma {:induction false} DeliveriesArePrefix(runs: seq<(Delivery, U16)>, onWrite: nat -> Byte, i: nat)
    ensures var ds := Delivered(runs, onWrite, i);
            && |ds| <= |runs|
            && (forall j :: 0 <= j < |ds| ==> ds[j] == runs[j].0)
            && (forall j :: i <= j < i + |ds| - 1 ==> onWrite(j) == SUCCESS)
            && (if |ds| > 0 && onWrite(i + |ds| - 1) != SUCCESS
                then ExecuteRsp(runs, onWrite, i)
                     == ErrorRsp(EXECUTE_WRITE_REQUEST, runs[|ds| - 1].1, onWrite(i + |ds| - 1))
                else |ds| == |runs| && ExecuteRsp(runs, onWrite, i) == [EXECUTE_WRITE_RESPONSE])
    decreases |runs|
  {
    hide Delivered, ExecuteRsp;
    DeliveredArePrefix(runs, onWrite, i);
    FirstOutcome(runs, onWrite, i);
    if runs != [] && onWrite(i) == SUCCESS {
      DeliveriesArePrefix(runs[1..], onWrite, i + 1);
    }
  }

  lemma FirstOutcome(runs: seq<(Delivery, U16)>, onWrite: nat -> Byte, i: nat)
    ensures runs == [] ==> Delivered(runs, onWrite, i) == [] && ExecuteRsp(runs, onWrite, i) == [EXECUTE_WRITE_RESPONSE]
    ensures runs != [] && onWrite(i) != SUCCESS ==>
              && |Delivered(runs, onWrite, i)| == 1
              && ExecuteRsp(runs, onWrite, i) == ErrorRsp(EXECUTE_WRITE_REQUEST, runs[0].1, onWrite(i))
    ensures runs != [] && onWrite(i) == SUCCESS ==>
              && |Delivered(runs, onWrite, i)| == 1 + |Delivered(runs[1..], onWrite, i + 1)|
              && ExecuteRsp(runs, onWrite, i) == ExecuteRsp(runs[1..], onWrite, i + 1)
  {
  }
}
