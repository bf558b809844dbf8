/** The writing side of linux/att/client.go against the server's handlers. */
module AttWrites {
  import opened Bytes
  import opened Wrappers
  import opened Profile
  import opened AttDb
  import opened AttPdu
  import opened AttServer
  import opened AttCalls
  import opened PreparedWrites

  function WriteRequest(h: U16, value: seq<Byte>): (r: seq<Byte>)
    ensures |r| == 3 + |value| && r[0] == WRITE_REQUEST && U16At(r, 1) == h && r[3..] == value
  {
    [WRITE_REQUEST] + PutU16(h) + value
  }

  function PrepareRequest(h: U16, off: U16, part: seq<Byte>): (r: seq<Byte>)
    ensures |r| == 5 + |part| && r[0] == PREPARE_WRITE_REQUEST
    ensures U16At(r, 1) == h && U16At(r, 3) == off && r[5..] == part
  {
    [PREPARE_WRITE_REQUEST] + PutU16(h) + PutU16(off) + part
  }

  /** Whether a part can be queued behind q, or the error a client gets. */
  function PartError(db: DB, q: seq<PreparedWrite>, h: U16, part: seq<Byte>): Option<ClientError> {
    match db.At(h)
    case None => Some(Att(INVALID_HANDLE))
    case Some(a) =>
      if !a.wh then Some(Att(WRITE_NOT_PERM))
      else if |q| < MAX_PREPARED_WRITES && QueuedBytes(q) + |part| <= MAX_PREPARED_WRITE_BYTES then None
      else Some(Att(PREP_QUEUE_FULL))
  }

  /** Write: one call of the attribute's write handler, with the whole value at offset 0. */
  method Write(server: Server, txMTU: int, h: U16, value: seq<Byte>, env: Env) returns (failed: Option<ClientError>)
    requires server.Valid()
    modifies server, server.txBuf
    ensures server.Valid() && unchanged(server`txBuf, server`prepared)
    ensures var a := server.db.At(h);
            if |value| > txMTU - 3
            then failed == Some(InvalidArgument) && server.delivered == old(server.delivered)
            else if a == None || !a.value.wh
            then && failed == Some(Att(if a == None then INVALID_HANDLE else WRITE_NOT_PERM))
                 && server.delivered == old(server.delivered)
            else && server.delivered == old(server.delivered) + [Delivery(a.value, 0, value)]
                 && failed == if env.onWrite(0) == SUCCESS then None else Some(Att(env.onWrite(0)))
  {
    hide DB.At;
    if |value| > txMTU - 3 {
      return Some(InvalidArgument);
    }
    var b := RoundTrip(server, WriteRequest(h, value), WRITE_RESPONSE, 0, env);
    failed := if b.Err? then Some(b.error) else None;
  }

  /** WriteCommand: the same without an answer; the server ignores an empty one. */
  method WriteCommand(server: Server, txMTU: int, h: U16, value: seq<Byte>, env: Env)
    returns (failed: Option<ClientError>)
    requires server.Valid()
    modifies server, server.txBuf
    ensures server.Valid() && unchanged(server`txBuf, server`prepared)
    ensures failed == if |value| > txMTU - 3 then Some(InvalidArgument) else None
    ensures var a := server.db.At(h);
            server.delivered == old(server.delivered)
              + if failed == None && value != [] && a.Some? && a.value.wh then [Delivery(a.value, 0, value)] else []
  {
    hide DB.At;
    if |value| > txMTU - 3 {
      return Some(InvalidArgument);
    }
    var req := [WRITE_COMMAND] + PutU16(h) + value;
    assert U16At(req, 1) == h && req[3..] == value;
    var _ := server.HandleRequest(req, env);
    failed := None;
  }

  /** PrepareWrite: the part joins the queue with its handle and offset, and comes back echoed. */
  method PrepareWrite(server: Server, txMTU: int, h: U16, off: U16, part: seq<Byte>, env: Env)
    returns (r: Result<(U16, U16, seq<Byte>), ClientError>)
    requires server.Valid()
    modifies server, server.txBuf
    ensures server.Valid() && unchanged(server`txBuf) && server.delivered == old(server.delivered)
    ensures var q := old(server.prepared);
            var error := if |part| > txMTU - 5 then Some(InvalidArgument) else PartError(server.db, q, h, part);
            if error.Some?
            then r == Err(error.value) && server.prepared == q
            else && r == Ok((h, off, part))
                 && server.prepared == q + [PreparedWrite(server.db.At(h).value, h, off, part)]
  {
    hide DB.At, QueuedBytes;
    if |part| > txMTU - 5 {
      return Err(InvalidArgument);
    }
    var req := PrepareRequest(h, off, part);
    var b := RoundTrip(server, req, PREPARE_WRITE_RESPONSE, 5, env);
    if b.Err? {
      return Err(b.error);
    }
    EchoKeepsFields(req, PREPARE_WRITE_RESPONSE);
    r := Ok((U16At(b.value, 1), U16At(b.value, 3), b.value[5..]));
  }

  lemma EchoKeepsFields(req: seq<Byte>, op: Byte)
    requires |req| >= 5
    ensures var rsp := [op] + req[1..];
            U16At(rsp, 1) == U16At(req, 1) && U16At(rsp, 3) == U16At(req, 3) && rsp[5..] == req[5..]
  {
  }

  /** ExecuteWrite: flag 1 has every run of the queue delivered, up to the first one refused, flag 0
      none; both leave the queue empty, and any other flag is an invalid PDU. */
  method ExecuteWrite(server: Server, flags: Byte, env: Env) returns (failed: Option<ClientError>)
    requires server.Valid()
    modifies server, server.txBuf
    ensures server.Valid() && unchanged(server`txBuf)
    ensures server.prepared == if flags <= 1 then [] else old(server.prepared)
    ensures var runs := Runs(old(server.prepared));
            && server.delivered
            == old(server.delivered) + (if flags == 1 then Delivered(runs, env.onWrite, 0) else [])
            && failed == (if flags > 1 then Some(Att(INVALID_PDU))
                          else if flags == 0 then None
                          else ExecuteError(runs, env.onWrite, 0))
  {
    hide Runs, Delivered, ExecuteRsp, ExecuteError;
    ExecuteRspIs(Runs(server.prepared), env.onWrite, 0);
    var b := RoundTrip(server, [EXECUTE_WRITE_REQUEST, flags], EXECUTE_WRITE_RESPONSE, 0, env);
    failed := if b.Err? then Some(b.error) else None;
  }

  /** The status of the first run that is refused. */
  function ExecuteError(runs: seq<(Delivery, U16)>, onWrite: nat -> Byte, i: nat): Option<ClientError> {
    if runs == [] then None
    else if onWrite(i) != SUCCESS then Some(Att(onWrite(i)))
    else ExecuteError(runs[1..], onWrite, i + 1)
  }

  lemma {:induction false} ExecuteRspIs(runs: seq<(Delivery, U16)>, onWrite: nat -> Byte, i: nat)
    ensures var checked := Checked(ExecuteRsp(runs, onWrite, i), EXECUTE_WRITE_RESPONSE, 0);
            ExecuteError(runs, onWrite, i) == if checked.Err? then Some(checked.error) else None
    decreases |runs|
  {
    if runs != [] && onWrite(i) == SUCCESS {
      ExecuteRspIs(runs[1..], onWrite, i + 1);
    }
  }

  // ---- Long writes ----

  /** The queue holds the first n bytes of a value written to the attribute at h. */
  ghost predicate Holds(q: seq<PreparedWrite>, a: Attr, h: U16, data: seq<Byte>) {
    && IsLongWrite(q, a, 0) && Data(q) == data
    && (q != [] ==> q[0].handle == h)
  }

  lemma NothingHeld(a: Option<Attr>, h: U16, onWrite: nat -> Byte)
    ensures a.Some? ==> Holds([], a.value, h, [])
    ensures Delivered(Runs([]), onWrite, 0) == [] && ExecuteError(Runs([]), onWrite, 0) == None
  {
  }

  lemma PartJoins(q: seq<PreparedWrite>, a: Attr, h: U16, value: seq<Byte>, off: nat, n: nat)
    requires off + n <= |value| && off <= 0xFFFF && Holds(q, a, h, value[..off])
    ensures Holds(q + [PreparedWrite(a, h, off, value[off..off + n])], a, h, value[..off + n])
    ensures QueuedBytes(q) == off
  {
    hide Data, IsLongWrite, QueuedBytes;
    var p := PreparedWrite(a, h, off, value[off..off + n]);
    QueuedBytesIsLength(q);
    LongWriteGrows(q, a, 0, p);
    DataAppend(q, p);
    SliceSplit(value, off, off + n);
  }

  lemma WholeValueIsOneRun(q: seq<PreparedWrite>, a: Attr, h: U16, value: seq<Byte>, onWrite: nat -> Byte)
    requires Holds(q, a, h, value) && q != []
    ensures Delivered(Runs(q), onWrite, 0) == [Delivery(a, 0, value)]
    ensures ExecuteError(Runs(q), onWrite, 0) == if onWrite(0) == SUCCESS then None else Some(Att(onWrite(0)))
  {
    hide Data, IsLongWrite, Runs;
    LongWriteIsOneDelivery(q, a, 0);
  }

  /** A long write [Vol 3, Part G, 4.9.4]: the value in parts that fit the MTU, then Execute Write; a
      part that is refused cancels it. For every value and MTU, a value of at most 512 bytes reaches a
      writable attribute's handler as one delivery of all of it at offset 0; any other is refused, and
      nothing is delivered. */
  method LongWrite(server: Server, txMTU: int, h: U16, value: seq<Byte>, env: Env)
    returns (failed: Option<ClientError>)
    requires server.Valid() && server.prepared == [] && txMTU >= DEFAULT_MTU
    modifies server, server.txBuf
    ensures server.Valid() && server.prepared == [] && unchanged(server`txBuf)
    ensures var a := server.db.At(h);
            if value == [] then failed == None && server.delivered == old(server.delivered)
            else if a.Some? && a.value.wh && |value| <= 512
            then && server.delivered == old(server.delivered) + [Delivery(a.value, 0, value)]
                 && failed == if env.onWrite(0) == SUCCESS then None else Some(Att(env.onWrite(0)))
            else && server.delivered == old(server.delivered)
                 && failed == Some(Att(if a == None then INVALID_HANDLE
                                       else if !a.value.wh then WRITE_NOT_PERM else PREP_QUEUE_FULL))
  {
    hide DB.At, QueuedBytes, Holds, Runs, Delivered, ExecuteError;
    var off := 0;
    ghost var a := server.db.At(h);
    NothingHeld(a, h, env.onWrite);
    assert value[..0] == [];
    while off < |value|
      invariant 0 <= off <= |value| && off <= 512
      invariant server.Valid() && server.txBuf == old(server.txBuf) && server.delivered == old(server.delivered)
      invariant off > 0 ==> a.Some? && a.value.wh && server.prepared != []
      invariant off == 0 ==> server.prepared == []
      invariant off < |value| ==> 18 * |server.prepared| <= off
      invariant a.Some? ==> Holds(server.prepared, a.value, h, value[..off])
    {
      var n := Min(|value| - off, txMTU - 5);
      if a.Some? {
        PartJoins(server.prepared, a.value, h, value, off, n);
      }
      var part := PrepareWrite(server, txMTU, h, off, value[off..off + n], env);
      if part.Err? {
        var _ := ExecuteWrite(server, 0, env);
        return Some(part.error);
      }
      off := off + n;
    }
    assert value[..off] == value;
    if value != [] {
      WholeValueIsOneRun(server.prepared, a.value, h, value, env.onWrite);
    }
    failed := ExecuteWrite(server, 1, env);
  }
}
