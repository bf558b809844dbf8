/** The request side of linux/att/client.go against the server's handlers: each call builds its PDU,
    has the server answer it, and checks the answer before handing it on. */
module AttCalls {
  import opened Bytes
  import opened Wrappers
  import opened Profile
  import opened AttDb
  import opened AttPdu
  import opened AttServer
  import opened AttGrouped

  /** The errors the calls return: the peer's ATT error, or the client's own. */
  datatype ClientError = Att(code: Byte) | InvalidResponse | InvalidArgument | InvalidMTU | BadEntryLength

  /** roundTrip's validation of a response. */
  function Checked(rsp: seq<Byte>, want: Byte, minLen: nat): Result<seq<Byte>, ClientError>
    requires rsp != []
  {
    if rsp[0] == ERROR_RESPONSE && |rsp| == 5 then Err(Att(rsp[4]))
    else if rsp[0] == ERROR_RESPONSE || rsp[0] != want || |rsp| < minLen then Err(InvalidResponse)
    else Ok(rsp)
  }

  /** The entry length and the entries of a Read By Type or Read By Group Type Response. */
  function DataList(rsp: seq<Byte>, want: Byte): Result<(nat, seq<Byte>), ClientError>
    requires rsp != []
  {
    match Checked(rsp, want, 4)
    case Err(e) => Err(e)
    case Ok(b) => if b[1] < 1 || |b[2..]| % b[1] != 0 then Err(InvalidResponse) else Ok((b[1], b[2..]))
  }

  /** The format and the entries of a Find Information Response. */
  function InformationList(rsp: seq<Byte>): Result<(Byte, seq<Byte>), ClientError>
    requires rsp != []
  {
    match Checked(rsp, FIND_INFORMATION_RESPONSE, 6)
    case Err(e) => Err(e)
    case Ok(b) =>
      if b[1] == 1 then if (|b| - 2) % 4 != 0 then Err(InvalidResponse) else Ok((b[1], b[2..]))
      else if b[1] == 2 then if (|b| - 2) % 18 != 0 then Err(InvalidResponse) else Ok((b[1], b[2..]))
      else Err(InvalidResponse)
  }

  function RangeRequest(op: Byte, start: U16, end: U16, uuid: seq<Byte>): (r: seq<Byte>)
    ensures |r| == 5 + |uuid| && r[0] == op && U16At(r, 1) == start && U16At(r, 3) == end && r[5..] == uuid
  {
    [op] + PutU16(start) + PutU16(end) + uuid
  }

  // ---- What the calls return ----

  function GroupReply(db: DB, mtu: nat, start: U16, end: U16, uuid: UUID, env: Env)
    : Result<(nat, seq<Byte>), ClientError>
    requires mtu >= 23
  {
    if start > end || (|uuid| != 2 && |uuid| != 16) then Err(InvalidArgument)
    else DataList(ReadByGroupRsp(db, mtu, RangeRequest(READ_BY_GROUP_TYPE_REQUEST, start, end, uuid), env),
                  READ_BY_GROUP_TYPE_RESPONSE)
  }

  function TypeReply(db: DB, mtu: nat, start: U16, end: U16, uuid: UUID, env: Env)
    : Result<(nat, seq<Byte>), ClientError>
    requires mtu >= 23
  {
    if start > end || (|uuid| != 2 && |uuid| != 16) then Err(InvalidArgument)
    else DataList(ReadByTypeRsp(db, mtu, RangeRequest(READ_BY_TYPE_REQUEST, start, end, uuid), env),
                  READ_BY_TYPE_RESPONSE)
  }

  function InformationReply(db: DB, mtu: nat, start: U16, end: U16): Result<(Byte, seq<Byte>), ClientError>
    requires mtu >= 23
  {
    if start == 0 || start > end then Err(InvalidArgument)
    else InformationList(FindInformationRsp(db, mtu, RangeRequest(FIND_INFORMATION_REQUEST, start, end, [])))
  }

  function ReadReply(db: DB, mtu: nat, h: U16, env: Env): Result<seq<Byte>, ClientError>
    requires mtu >= 23
  {
    match Checked(ReadRsp(db, mtu, [READ_REQUEST] + PutU16(h), env), READ_RESPONSE, 1)
    case Err(e) => Err(e)
    case Ok(b) => Ok(b[1..])
  }

  function ReadBlobReply(db: DB, mtu: nat, h: U16, offset: U16, env: Env): Result<seq<Byte>, ClientError>
    requires mtu >= 23
  {
    match Checked(ReadBlobRsp(db, mtu, [READ_BLOB_REQUEST] + PutU16(h) + PutU16(offset), env), READ_BLOB_RESPONSE, 1)
    case Err(e) => Err(e)
    case Ok(b) => Ok(b[1..])
  }

  // ---- The calls ----

  /** One transaction with a server: it handles the request, and its response is validated. */
  method RoundTrip(server: Server, req: seq<Byte>, want: Byte, minLen: nat, env: Env)
    returns (r: Result<seq<Byte>, ClientError>)
    requires server.Valid() && req != [] && req[0] !in {EXCHANGE_MTU_REQUEST, WRITE_COMMAND}
    modifies server, server.txBuf
    ensures server.Valid()
    ensures unchanged(server`txMTU, server`txBuf, server`notBuf, server`indBuf)
    ensures IsReadOnly(req[0]) ==> unchanged(server)
    ensures var db, q := server.db, old(server.prepared);
            && server.prepared == QueueAfter(db, q, req)
            && server.delivered == old(server.delivered) + DeliveriesOf(db, q, req, env)
            && r == Checked(ResponseTo(db, server.rxMTU, server.txBuf.Length, q, req, env), want, minLen)
  {
    hide ReadOnlyRsp, WriteRsp, Prepare, ExecuteWriteRsp;
    var rsp := server.HandleRequest(req, env);
    assert IsReadOnly(req[0]) ==> server.prepared == old(server.prepared) && server.delivered == old(server.delivered);
    if rsp[0] == ERROR_RESPONSE && |rsp| == 5 {
      return Err(Att(rsp[4]));
    }
    if rsp[0] == ERROR_RESPONSE || rsp[0] != want || |rsp| < minLen {
      return Err(InvalidResponse);
    }
    r := Ok(rsp);
  }

  method ReadByGroupType(server: Server, start: U16, end: U16, uuid: UUID, env: Env)
    returns (r: Result<(nat, seq<Byte>), ClientError>)
    requires server.Valid()
    modifies server, server.txBuf
    ensures server.Valid() && unchanged(server)
    ensures r == GroupReply(server.db, server.txBuf.Length, start, end, uuid, env)
  {
    hide ReadByGroupRsp;
    if start > end || (|uuid| != 2 && |uuid| != 16) {
      return Err(InvalidArgument);
    }
    var b :=
      RoundTrip(server, RangeRequest(READ_BY_GROUP_TYPE_REQUEST, start, end, uuid),
                READ_BY_GROUP_TYPE_RESPONSE, 4, env);
    if b.Err? {
      return Err(b.error);
    }
    var rsp := b.value;
    if rsp[1] < 1 || |rsp[2..]| % rsp[1] != 0 {
      return Err(InvalidResponse);
    }
    r := Ok((rsp[1], rsp[2..]));
  }

  method ReadByType(server: Server, start: U16, end: U16, uuid: UUID, env: Env)
    returns (r: Result<(nat, seq<Byte>), ClientError>)
    requires server.Valid()
    modifies server, server.txBuf
    ensures server.Valid() && unchanged(server)
    ensures r == TypeReply(server.db, server.txBuf.Length, start, end, uuid, env)
  {
    hide ReadByTypeRsp;
    if start > end || (|uuid| != 2 && |uuid| != 16) {
      return Err(InvalidArgument);
    }
    var b := RoundTrip(server, RangeRequest(READ_BY_TYPE_REQUEST, start, end, uuid), READ_BY_TYPE_RESPONSE, 4, env);
    if b.Err? {
      return Err(b.error);
    }
    var rsp := b.value;
    if rsp[1] < 1 || |rsp[2..]| % rsp[1] != 0 {
      return Err(InvalidResponse);
    }
    r := Ok((rsp[1], rsp[2..]));
  }

  method FindInformation(server: Server, start: U16, end: U16, env: Env)
    returns (r: Result<(Byte, seq<Byte>), ClientError>)
    requires server.Valid()
    modifies server, server.txBuf
    ensures server.Valid() && unchanged(server)
    ensures r == InformationReply(server.db, server.txBuf.Length, start, end)
  {
    hide FindInformationRsp;
    if start == 0 || start > end {
      return Err(InvalidArgument);
    }
    var b :=
      RoundTrip(server, RangeRequest(FIND_INFORMATION_REQUEST, start, end, []), FIND_INFORMATION_RESPONSE, 6, env);
    if b.Err? {
      return Err(b.error);
    }
    var rsp := b.value;
    if rsp[1] == 1 {
      if (|rsp| - 2) % 4 != 0 {
        return Err(InvalidResponse);
      }
    } else if rsp[1] == 2 {
      if (|rsp| - 2) % 18 != 0 {
        return Err(InvalidResponse);
      }
    } else {
      return Err(InvalidResponse);
    }
    r := Ok((rsp[1], rsp[2..]));
  }

  method Read(server: Server, h: U16, env: Env) returns (r: Result<seq<Byte>, ClientError>)
    requires server.Valid()
    modifies server, server.txBuf
    ensures server.Valid() && unchanged(server)
    ensures r == ReadReply(server.db, server.txBuf.Length, h, env)
  {
    hide ReadRsp;
    var b := RoundTrip(server, [READ_REQUEST] + PutU16(h), READ_RESPONSE, 1, env);
    match b {
      case Err(e) => return Err(e);
      case Ok(rsp) => return Ok(rsp[1..]);
    }
  }

  method ReadBlob(server: Server, h: U16, offset: U16, env: Env) returns (r: Result<seq<Byte>, ClientError>)
    requires server.Valid()
    modifies server, server.txBuf
    ensures server.Valid() && unchanged(server)
    ensures r == ReadBlobReply(server.db, server.txBuf.Length, h, offset, env)
  {
    hide ReadBlobRsp;
    var b := RoundTrip(server, [READ_BLOB_REQUEST] + PutU16(h) + PutU16(offset), READ_BLOB_RESPONSE, 1, env);
    match b {
      case Err(e) => return Err(e);
      case Ok(rsp) => return Ok(rsp[1..]);
    }
  }

  // ---- What the replies hold, over static attributes ----

  /** The sizes of a service, characteristic or attribute entry. */
  predicate IsEntrySize(d: nat) {
    d == 6 || d == 20 || d == 7 || d == 21 || d == 4 || d == 18
  }

  /** A whole number of entries, each of the first one's size, starting with the first entry. */
  ghost predicate Holds(data: seq<Byte>, ws: seq<seq<Byte>>, k: nat) {
    && 1 <= k <= |ws|
    && (forall i :: 0 <= i < k ==> |ws[i]| == |ws[0]|)
    && data == Flat(ws[..k])
  }

  lemma EntriesLength(k: nat, d: nat)
    requires IsEntrySize(d) && k > 0
    ensures k * d >= d && k * d % d == 0
  {
    if d == 6 {
      assert k * d == k * 6;
    } else if d == 20 {
      assert k * d == k * 20;
    } else if d == 7 {
      assert k * d == k * 7;
    } else if d == 21 {
      assert k * d == k * 21;
    } else if d == 4 {
      assert k * d == k * 4;
    } else {
      assert k * d == k * 18;
    }
  }

  lemma HoldsLength(data: seq<Byte>, ws: seq<seq<Byte>>, k: nat)
    requires Holds(data, ws, k) && IsEntrySize(|ws[0]|)
    ensures |data| >= |ws[0]| && |data| % |ws[0]| == 0
  {
    hide Flat, IsEntrySize;
    FlatLength(ws[..k], |ws[0]|);
    EntriesLength(k, |ws[0]|);
  }

  lemma ListReply(reqOp: Byte, rspOp: Byte, start: U16, ws: seq<seq<Byte>>, listLen: nat) returns (k: nat)
    requires rspOp != ERROR_RESPONSE && listLen >= 21 && (ws != [] ==> IsEntrySize(|ws[0]|))
    ensures var r := DataList(FilledRsp(reqOp, rspOp, start, Fill(Oks(ws), 0, listLen)), rspOp);
            if ws == [] then r == Err(Att(ATTR_NOT_FOUND))
            else r.Ok? && r.value.0 == |ws[0]| && Holds(r.value.1, ws, k)
  {
    hide Fill, Flat;
    k := 0;
    if ws == [] {
      FillNothing(listLen);
    } else {
      k := FillWhole(ws, listLen);
      HoldsLength(Flat(ws[..k]), ws, k);
    }
  }

  lemma GroupReplyHolds(db: DB, mtu: nat, start: U16, end: U16, uuid: UUID, env: Env, found: seq<Attr>) returns (k: nat)
    requires mtu >= 23 && 0 < start <= end && (|uuid| == 2 || |uuid| == 16)
    requires found == Matching(db.Subrange(start, end), uuid) && Static(found)
    requires found != [] ==> IsEntrySize(4 + |found[0].v.value|)
    ensures var r := GroupReply(db, mtu, start, end, uuid, env);
            if found == [] then r == Err(Att(ATTR_NOT_FOUND))
            else r.Ok? && r.value.0 == 4 + |found[0].v.value| && Holds(r.value.1, GroupWires(found), k)
  {
    hide Fill, GroupWalk, Matching;
    GroupWalkIsFill(db.Subrange(start, end), uuid, 0, 0, mtu - 2, env);
    k := ListReply(READ_BY_GROUP_TYPE_REQUEST, READ_BY_GROUP_TYPE_RESPONSE, start, GroupWires(found), mtu - 2);
  }

  lemma TypeReplyHolds(db: DB, mtu: nat, start: U16, end: U16, uuid: UUID, env: Env, found: seq<Attr>) returns (k: nat)
    requires mtu >= 23 && 0 < start <= end && (|uuid| == 2 || |uuid| == 16)
    requires found == Matching(db.Subrange(start, end), uuid) && Static(found)
    requires found != [] ==> IsEntrySize(2 + |found[0].v.value|)
    ensures var r := TypeReply(db, mtu, start, end, uuid, env);
            if found == [] then r == Err(Att(ATTR_NOT_FOUND))
            else r.Ok? && r.value.0 == 2 + |found[0].v.value| && Holds(r.value.1, TypeWires(found), k)
  {
    hide Fill, TypeEntries, Matching;
    TypeEntriesOfStatic(db.Subrange(start, end), uuid, mtu - 2, env);
    k := ListReply(READ_BY_TYPE_REQUEST, READ_BY_TYPE_RESPONSE, start, TypeWires(found), mtu - 2);
  }

  lemma InformationReplyHolds(db: DB, mtu: nat, start: U16, end: U16, sub: seq<Attr>) returns (k: nat)
    requires mtu >= 23 && 0 < start <= end && sub == db.Subrange(start, end)
    requires sub != [] ==> |sub[0].typ| == 2 || |sub[0].typ| == 16
    ensures var r := InformationReply(db, mtu, start, end);
            if sub == [] then r == Err(Att(ATTR_NOT_FOUND))
            else r.Ok? && r.value.0 == InfoFormat(sub[0]) && Holds(r.value.1, InfoWires(sub), k)
  {
    hide PackRest, InfoEntries, Flat;
    k := 0;
    if sub != [] {
      k := InformationPrefix(sub, mtu - 2);
      HoldsLength(Flat(InfoWires(sub)[..k]), InfoWires(sub), k);
    }
  }

  /** A static value is read one response at a time. */
  lemma ReadReplyIs(db: DB, mtu: nat, h: U16, env: Env)
    requires mtu >= 23 && (db.At(h).Some? ==> db.At(h).value.v.Some?)
    ensures ReadReply(db, mtu, h, env)
         == match db.At(h)
            case None => Err(Att(INVALID_HANDLE))
            case Some(a) => Ok(a.v.value[..Min(|a.v.value|, mtu - 1)])
  {
    U16RoundTrip(h);
    assert U16At([READ_REQUEST] + PutU16(h), 1) == h;
  }

  lemma ReadBlobReplyIs(db: DB, mtu: nat, h: U16, offset: U16, env: Env)
    requires mtu >= 23 && db.At(h).Some? && db.At(h).value.v.Some? && offset <= |db.At(h).value.v.value|
    ensures var v := db.At(h).value.v.value;
            ReadBlobReply(db, mtu, h, offset, env) == Ok(v[offset..offset + Min(|v| - offset, mtu - 1)])
  {
    U16RoundTrip(h);
    U16RoundTrip(offset);
    var r := [READ_BLOB_REQUEST] + PutU16(h) + PutU16(offset);
    assert U16At(r, 1) == h && U16At(r, 3) == offset;
  }
}
