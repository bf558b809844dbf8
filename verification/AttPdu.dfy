/** ATT opcodes, error codes and response layouts (linux/att/att_gen.go, error.go, linux/att/server.go). */
module AttPdu {
  import opened Bytes
  import opened Wrappers
  import opened AttDb

  const ERROR_RESPONSE: Byte := 0x01
  const EXCHANGE_MTU_REQUEST: Byte := 0x02
  const EXCHANGE_MTU_RESPONSE: Byte := 0x03
  const FIND_INFORMATION_REQUEST: Byte := 0x04
  const FIND_INFORMATION_RESPONSE: Byte := 0x05
  const FIND_BY_TYPE_VALUE_REQUEST: Byte := 0x06
  const FIND_BY_TYPE_VALUE_RESPONSE: Byte := 0x07
  const READ_BY_TYPE_REQUEST: Byte := 0x08
  const READ_BY_TYPE_RESPONSE: Byte := 0x09
  const READ_REQUEST: Byte := 0x0A
  const READ_RESPONSE: Byte := 0x0B
  const READ_BLOB_REQUEST: Byte := 0x0C
  const READ_BLOB_RESPONSE: Byte := 0x0D
  const READ_BY_GROUP_TYPE_REQUEST: Byte := 0x10
  const READ_BY_GROUP_TYPE_RESPONSE: Byte := 0x11
  const WRITE_REQUEST: Byte := 0x12
  const WRITE_RESPONSE: Byte := 0x13
  const PREPARE_WRITE_REQUEST: Byte := 0x16
  const PREPARE_WRITE_RESPONSE: Byte := 0x17
  const EXECUTE_WRITE_REQUEST: Byte := 0x18
  const EXECUTE_WRITE_RESPONSE: Byte := 0x19
  const WRITE_COMMAND: Byte := 0x52

  const SUCCESS: Byte := 0x00
  const INVALID_HANDLE: Byte := 0x01
  const READ_NOT_PERM: Byte := 0x02
  const WRITE_NOT_PERM: Byte := 0x03
  const INVALID_PDU: Byte := 0x04
  const REQ_NOT_SUPP: Byte := 0x06
  const INVALID_OFFSET: Byte := 0x07
  const PREP_QUEUE_FULL: Byte := 0x09
  const ATTR_NOT_FOUND: Byte := 0x0A

  function ErrorRsp(op: Byte, h: U16, code: Byte): (r: seq<Byte>)
    ensures |r| == 5
  {
    [ERROR_RESPONSE, op] + PutU16(h) + [code]
  }

  // ---- User handlers ----

  /** What a read handler does with its ResponseWriter: the status it leaves and the writes it attempts. */
  datatype ReadOutcome = ReadOutcome(status: Byte, writes: seq<seq<Byte>>)

  /** The handlers' behaviour during one request: the outcome of the read handler of each handle,
      and the status the write handler leaves for the i-th delivery. A request calls no read
      handler twice, so this covers handlers with state. */
  datatype Env = Env(onRead: U16 -> ReadOutcome, onWrite: nat -> Byte)

  /** ResponseWriter.Write keeps a write only when all of it fits the capacity. */
  function Written(buf: seq<Byte>, writes: seq<seq<Byte>>, cap: nat): (r: seq<Byte>)
    requires |buf| <= cap
    ensures |r| <= cap
    decreases |writes|
  {
    if writes == [] then buf
    else Written(if |writes[0]| > cap - |buf| then buf else buf + writes[0], writes[1..], cap)
  }

  /** So the output grows by each write that fits what is left of the capacity, and by no other. */
  lemma {:induction false} WrittenNext(buf: seq<Byte>, writes: seq<seq<Byte>>, w: seq<Byte>, cap: nat)
    requires |buf| <= cap
    ensures var r := Written(buf, writes, cap);
            Written(buf, writes + [w], cap) == if |r| + |w| <= cap then r + w else r
    decreases |writes|
  {
    if writes == [] {
      assert [w][1..] == [];
    } else {
      assert (writes + [w])[1..] == writes[1..] + [w];
      WrittenNext(if |writes[0]| > cap - |buf| then buf else buf + writes[0], writes[1..], w, cap);
    }
  }

  /** A handler whose writes fit together has all of them sent. */
  lemma {:induction false} AllWritten(buf: seq<Byte>, writes: seq<seq<Byte>>, cap: nat)
    requires |buf + Flat(writes)| <= cap
    ensures Written(buf, writes, cap) == buf + Flat(writes)
    decreases |writes|
  {
    if writes != [] {
      assert buf + Flat(writes) == (buf + writes[0]) + Flat(writes[1..]);
      AllWritten(buf + writes[0], writes[1..], cap);
    }
  }

  /** An attribute's value: static, or what its read handler produces within `cap` bytes. */
  function ReadValue(a: Attr, cap: nat, env: Env): (r: Result<seq<Byte>, Byte>)
    ensures a.v.None? && r.Ok? ==> |r.value| <= cap
  {
    match a.v
    case Some(v) => Ok(v)
    case None =>
      if !a.rh then Err(READ_NOT_PERM)
      else
        var o := env.onRead(a.h);
        if o.status != SUCCESS then Err(o.status) else Ok(Written([], o.writes, cap))
  }

  // ---- Packing equal-sized entries ----

  /** Entries of size d, taken while they keep that size and fit the room. */
  function PackRest(es: seq<Result<seq<Byte>, Byte>>, d: nat, room: int): seq<Byte> {
    if es == [] || es[0].Err? || |es[0].value| != d || d > room then []
    else es[0].value + PackRest(es[1..], d, room - d)
  }

  lemma PackDone(es: seq<Result<seq<Byte>, Byte>>, d: nat, room: int, list: seq<Byte>)
    ensures es == [] ==> list + PackRest(es, d, room) == list
  {
  }

  lemma PackStepAt(es: seq<Result<seq<Byte>, Byte>>, i: nat, d: nat, room: int, list: seq<Byte>)
    requires i < |es|
    ensures var out := list + PackRest(es[i..], d, room);
            if es[i].Err? || |es[i].value| != d || d > room then out == list
            else out == (list + es[i].value) + PackRest(es[i + 1..], d, room - d)
  {
    assert es[i..][1..] == es[i + 1..];
  }

  /** The size the first entry imposes on a response: capped by the length octet and by the list. */
  function EntrySize(e: seq<Byte>, listLen: nat): nat {
    Min(Min(|e|, 255), listLen)
  }

  /** What a packing loop leaves: the entry size (0 when nothing matched) and the list, or the error
      the first value's read handler gave. */
  datatype Filled = Filled(size: nat, list: seq<Byte>) | Refused(code: Byte) {
    function After(l: seq<Byte>): Filled {
      if Refused? then this else Filled(size, l + list)
    }
  }

  /** Packing matching entries into `room` bytes once entries of size d (0 before the first) are there. */
  function Fill(es: seq<Result<seq<Byte>, Byte>>, d: nat, room: int): Filled
    decreases |es|
  {
    if es == [] then Filled(d, [])
    else if es[0].Err? then if d == 0 then Refused(es[0].error) else Filled(d, [])
    else
      var e := es[0].value;
      var size := if d == 0 then EntrySize(e, if room < 0 then 0 else room) else d;
      if (d != 0 && |e| != d) || size > room then Filled(size, [])
      else Fill(es[1..], size, room - size).After(e[..size])
  }

  /** One turn of a packing loop that has already emitted `list`. */
  lemma FillStep(e: Result<seq<Byte>, Byte>, rest: seq<Result<seq<Byte>, Byte>>, d: nat, room: nat, list: seq<Byte>)
    ensures Fill([e] + rest, d, room).After(list)
         == if e.Err? then if d == 0 then Refused(e.error) else Filled(d, list)
            else
              var size := if d == 0 then EntrySize(e.value, room) else d;
              if (d != 0 && |e.value| != d) || size > room then Filled(size, list)
              else Fill(rest, size, room - size).After(list + e.value[..size])
  {
    assert ([e] + rest)[1..] == rest;
  }

  function FilledRsp(reqOp: Byte, rspOp: Byte, start: U16, f: Filled): seq<Byte> {
    match f
    case Refused(code) => ErrorRsp(reqOp, start, code)
    case Filled(size, list) =>
      if size == 0 then ErrorRsp(reqOp, start, ATTR_NOT_FOUND) else [rspOp, LowByte(size)] + list
  }

  /** How many entries PackRest takes. */
  function Taken(es: seq<Result<seq<Byte>, Byte>>, d: nat, room: int): (k: nat)
    ensures k <= |es|
  {
    if es == [] || es[0].Err? || |es[0].value| != d || d > room then 0
    else 1 + Taken(es[1..], d, room - d)
  }

  function Values(es: seq<Result<seq<Byte>, Byte>>): (r: seq<seq<Byte>>)
    requires forall i :: 0 <= i < |es| ==> es[i].Ok?
    ensures |r| == |es|
  {
    seq(|es|, i requires 0 <= i < |es| => es[i].value)
  }

  lemma {:induction false} PackRestIsPrefix(es: seq<Result<seq<Byte>, Byte>>, d: nat, room: int)
    ensures var k := Taken(es, d, room);
            && (forall i :: 0 <= i < k ==> es[i].Ok? && |es[i].value| == d)
            && PackRest(es, d, room) == Flat(Values(es[..k]))
  {
    var k := Taken(es, d, room);
    if k > 0 {
      PackRestIsPrefix(es[1..], d, room - d);
      assert forall i :: 1 <= i < k ==> es[i] == es[1..][i - 1];
      assert Values(es[..k])[1..] == Values(es[1..][..k - 1]);
    }
  }

  lemma {:induction false} TakenIsMaximal(es: seq<Result<seq<Byte>, Byte>>, d: nat, room: int)
    ensures var k, n := Taken(es, d, room), |PackRest(es, d, room)|;
            && (room >= 0 ==> n <= room)
            && (k == |es| || es[k].Err? || |es[k].value| != d || n + d > room)
  {
    if Taken(es, d, room) > 0 {
      TakenIsMaximal(es[1..], d, room - d);
    }
  }

  /** PackRest carries exactly the maximal prefix whose entries have size d and fit together. */
  lemma PackRestIsMaximalPrefix(es: seq<Result<seq<Byte>, Byte>>, d: nat, room: int)
    ensures var k, list := Taken(es, d, room), PackRest(es, d, room);
            && (forall i :: 0 <= i < k ==> es[i].Ok? && |es[i].value| == d)
            && list == Flat(Values(es[..k]))
            && (room >= 0 ==> |list| <= room)
            && (k == |es| || es[k].Err? || |es[k].value| != d || |list| + d > room)
  {
    PackRestIsPrefix(es, d, room);
    TakenIsMaximal(es, d, room);
  }
}
