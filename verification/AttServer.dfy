/** The ATT server's request handlers (linux/att/server.go). */
module AttServer {
  import opened Bytes
  import opened Wrappers
  import opened Profile
  import opened AttDb
  import opened AttPdu
  import opened PreparedWrites

  // ---- Entries of the grouped responses ----

  function InfoEntries(sub: seq<Attr>): (r: seq<Result<seq<Byte>, Byte>>)
    ensures |r| == |sub| && forall i :: 0 <= i < |r| ==> r[i].Ok?
  {
    if sub == [] then [] else [Ok(PutU16(sub[0].h) + sub[0].typ)] + InfoEntries(sub[1..])
  }

  lemma {:induction false} InfoEntryAt(sub: seq<Attr>, i: nat)
    requires i < |sub|
    ensures InfoEntries(sub)[i] == Ok(PutU16(sub[i].h) + sub[i].typ)
  {
    if i > 0 {
      InfoEntryAt(sub[1..], i - 1);
    }
  }

  function TypeEntry(a: Attr, cap: nat, env: Env): Result<seq<Byte>, Byte> {
    match ReadValue(a, cap, env)
    case Ok(v) => Ok(PutU16(a.h) + v)
    case Err(e) => Err(e)
  }

  /** The entries of the attributes of type `typ`, in table order. */
  function TypeEntries(sub: seq<Attr>, typ: seq<Byte>, cap: nat, env: Env): seq<Result<seq<Byte>, Byte>> {
    if sub == [] then []
    else (if sub[0].typ == typ then [TypeEntry(sub[0], cap, env)] else []) + TypeEntries(sub[1..], typ, cap, env)
  }

  lemma TypeEntriesStep(sub: seq<Attr>, i: nat, typ: seq<Byte>, cap: nat, env: Env)
    requires i < |sub|
    ensures var rest := TypeEntries(sub[i + 1..], typ, cap, env);
            TypeEntries(sub[i..], typ, cap, env) ==
            if sub[i].typ == typ then [TypeEntry(sub[i], cap, env)] + rest else rest
  {
    assert sub[i..][1..] == sub[i + 1..];
  }

  /** The body of a Read By Group Type Response after n bytes of entries of size d (0 before the
      first): a handler's value may use the room that is left, and its error fails the request. */
  function GroupWalk(sub: seq<Attr>, typ: seq<Byte>, d: nat, n: nat, listLen: nat, env: Env): Filled
    decreases |sub|
  {
    if sub == [] then Filled(d, [])
    else if sub[0].typ != typ then GroupWalk(sub[1..], typ, d, n, listLen, env)
    else if sub[0].v.None? && listLen - n - 4 < 0 then Filled(d, [])
    else
      match ReadValue(sub[0], if listLen - n - 4 < 0 then 0 else listLen - n - 4, env)
      case Err(e) => Refused(e)
      case Ok(v) =>
        var e := GroupEntry(sub[0], v);
        var size := if d == 0 then EntrySize(e, listLen) else d;
        if (d != 0 && |e| != d) || n + size > listLen then Filled(size, [])
        else GroupWalk(sub[1..], typ, size, n + size, listLen, env).After(e[..size])
  }

  function GroupEntry(a: Attr, v: seq<Byte>): seq<Byte> {
    PutU16(a.h) + PutU16(a.endh) + v
  }

  lemma GroupStep(a: Attr, rest: seq<Attr>, typ: seq<Byte>, d: nat, n: nat, listLen: nat, env: Env, list: seq<Byte>)
    ensures GroupWalk([a] + rest, typ, d, n, listLen, env).After(list)
         == if a.typ != typ then GroupWalk(rest, typ, d, n, listLen, env).After(list)
            else if a.v.None? && listLen - n - 4 < 0 then Filled(d, list)
            else
              match ReadValue(a, if listLen - n - 4 < 0 then 0 else listLen - n - 4, env)
              case Err(e) => Refused(e)
              case Ok(v) =>
                var e := GroupEntry(a, v);
                var size := if d == 0 then EntrySize(e, listLen) else d;
                if (d != 0 && |e| != d) || n + size > listLen then Filled(size, list)
                else GroupWalk(rest, typ, size, n + size, listLen, env).After(list + e[..size])
  {
    assert ([a] + rest)[1..] == rest;
  }

  lemma GroupDone(typ: seq<Byte>, d: nat, n: nat, listLen: nat, env: Env, list: seq<Byte>)
    ensures GroupWalk([], typ, d, n, listLen, env).After(list) == Filled(d, list)
  {
  }

  /** The handle list of a Find By Type Value Response after n bytes; None is the error exit. */
  function MatchWalk(sub: seq<Attr>, typ: seq<Byte>, val: seq<Byte>, n: nat, mtu: nat, env: Env): Option<seq<Byte>>
    requires mtu >= 7
    decreases |sub|
  {
    if sub == [] then Some([])
    else if sub[0].typ != typ then MatchWalk(sub[1..], typ, val, n, mtu, env)
    else
      match ReadValue(sub[0], mtu - 6, env)
      case Err(_) => None
      case Ok(v) =>
        if sub[0].v.None? && |v| > mtu - 7 then None
        else if v != val then MatchWalk(sub[1..], typ, val, n, mtu, env)
        else if n + 4 > mtu - 1 then Some([])
        else Before(HandlePair(sub[0]), MatchWalk(sub[1..], typ, val, n + 4, mtu, env))
  }

  /** The found handle and its group end; a dynamic attribute is its own group. */
  function HandlePair(a: Attr): (r: seq<Byte>)
    ensures |r| == 4
  {
    PutU16(a.h) + PutU16(if a.v.None? then a.h else a.endh)
  }

  /** Prepends to a list, unless the walk failed. */
  function Before(l: seq<Byte>, r: Option<seq<Byte>>): (b: Option<seq<Byte>>)
    ensures l == [] ==> b == r
    ensures r == Some([]) ==> b == Some(l)
  {
    match r
    case None => None
    case Some(v) =>
      assert l == [] ==> l + v == v;
      assert v == [] ==> l + v == l;
      Some(l + v)
  }

  lemma BeforeAssociates(l: seq<Byte>, m: seq<Byte>, r: Option<seq<Byte>>)
    ensures Before(l, Before(m, r)) == Before(l + m, r)
  {
    if r.Some? {
      assert l + (m + r.value) == (l + m) + r.value;
    }
  }

  lemma MatchStep(a: Attr, rest: seq<Attr>, typ: seq<Byte>, val: seq<Byte>, n: nat, mtu: nat, env: Env, list: seq<Byte>)
    requires mtu >= 7
    ensures Before(list, MatchWalk([a] + rest, typ, val, n, mtu, env))
         == if a.typ != typ then Before(list, MatchWalk(rest, typ, val, n, mtu, env))
            else
              match ReadValue(a, mtu - 6, env)
              case Err(_) => None
              case Ok(v) =>
                if a.v.None? && |v| > mtu - 7 then None
                else if v != val then Before(list, MatchWalk(rest, typ, val, n, mtu, env))
                else if n + 4 > mtu - 1 then Some(list)
                else Before(list + HandlePair(a), MatchWalk(rest, typ, val, n + 4, mtu, env))
  {
    assert ([a] + rest)[1..] == rest;
    BeforeAssociates(list, HandlePair(a), MatchWalk(rest, typ, val, n + 4, mtu, env));
  }

  lemma MatchDone(typ: seq<Byte>, val: seq<Byte>, n: nat, mtu: nat, env: Env, list: seq<Byte>)
    requires mtu >= 7
    ensures Before(list, MatchWalk([], typ, val, n, mtu, env)) == Some(list)
  {
  }

  // ---- What each request is answered with ----

  function InfoFormat(a: Attr): Byte {
    if |a.typ| == 16 then 2 else 1
  }

  function InfoSize(a: Attr): nat {
    if |a.typ| == 16 then 18 else 4
  }

  function FindInformationRsp(db: DB, mtu: nat, r: seq<Byte>): seq<Byte>
    requires |r| > 0 && mtu >= 23
  {
    if |r| != 5 then ErrorRsp(r[0], 0, INVALID_PDU)
    else
      var start, end := U16At(r, 1), U16At(r, 3);
      if start == 0 || start > end then ErrorRsp(r[0], start, INVALID_HANDLE)
      else
        var sub := db.Subrange(start, end);
        if sub == [] then ErrorRsp(r[0], start, ATTR_NOT_FOUND)
        else [FIND_INFORMATION_RESPONSE, InfoFormat(sub[0])] + PackRest(InfoEntries(sub), InfoSize(sub[0]), mtu - 2)
  }

  function FindByTypeValueRsp(db: DB, mtu: nat, r: seq<Byte>, env: Env): seq<Byte>
    requires |r| > 0 && mtu >= 23
  {
    if |r| < 7 then ErrorRsp(r[0], 0, INVALID_PDU)
    else
      var start, end := U16At(r, 1), U16At(r, 3);
      if start == 0 || start > end then ErrorRsp(r[0], start, INVALID_HANDLE)
      else
        match MatchWalk(db.Subrange(start, end), PutU16(U16At(r, 5)), r[7..], 0, mtu, env)
        case None => ErrorRsp(r[0], start, INVALID_HANDLE)
        case Some(list) =>
          if list == [] then ErrorRsp(r[0], start, ATTR_NOT_FOUND) else [FIND_BY_TYPE_VALUE_RESPONSE] + list
  }

  function ReadByTypeRsp(db: DB, mtu: nat, r: seq<Byte>, env: Env): seq<Byte>
    requires |r| > 0 && mtu >= 23
  {
    if |r| != 7 && |r| != 21 then ErrorRsp(r[0], 0, INVALID_PDU)
    else
      var start, end := U16At(r, 1), U16At(r, 3);
      if start == 0 || start > end then ErrorRsp(r[0], start, INVALID_HANDLE)
      else
        FilledRsp(r[0], READ_BY_TYPE_RESPONSE, start,
                  Fill(TypeEntries(db.Subrange(start, end), r[5..], mtu - 2, env), 0, mtu - 2))
  }

  function ReadByGroupRsp(db: DB, mtu: nat, r: seq<Byte>, env: Env): seq<Byte>
    requires |r| > 0 && mtu >= 23
  {
    if |r| != 7 && |r| != 21 then ErrorRsp(r[0], 0, INVALID_PDU)
    else
      var start, end := U16At(r, 1), U16At(r, 3);
      if start == 0 || start > end then ErrorRsp(r[0], start, INVALID_HANDLE)
      else
        FilledRsp(r[0], READ_BY_GROUP_TYPE_RESPONSE, start,
                  GroupWalk(db.Subrange(start, end), r[5..], 0, 0, mtu - 2, env))
  }

  function ReadRsp(db: DB, mtu: nat, r: seq<Byte>, env: Env): seq<Byte>
    requires |r| > 0 && mtu >= 23
  {
    if |r| != 3 then ErrorRsp(r[0], 0, INVALID_PDU)
    else
      var h := U16At(r, 1);
      match db.At(h)
      case None => ErrorRsp(r[0], h, INVALID_HANDLE)
      case Some(a) =>
        match ReadValue(a, mtu - 1, env)
        case Err(e) => ErrorRsp(r[0], h, e)
        case Ok(v) => [READ_RESPONSE] + v[..Min(|v|, mtu - 1)]
  }

  function ReadBlobRsp(db: DB, mtu: nat, r: seq<Byte>, env: Env): seq<Byte>
    requires |r| > 0 && mtu >= 23
  {
    if |r| != 5 then ErrorRsp(r[0], 0, INVALID_PDU)
    else
      var h, off := U16At(r, 1), U16At(r, 3);
      match db.At(h)
      case None => ErrorRsp(r[0], h, INVALID_HANDLE)
      case Some(a) =>
        if a.v.Some? then
          var v := a.v.value;
          if off > |v| then ErrorRsp(r[0], h, INVALID_OFFSET)
          else [READ_BLOB_RESPONSE] + v[off..off + Min(|v| - off, mtu - 1)]
        else
          match ReadValue(a, mtu - 1, env)
          case Err(e) => ErrorRsp(r[0], h, e)
          case Ok(v) => [READ_BLOB_RESPONSE] + v
  }

  function IsReadOnly(op: Byte): bool {
    op in {FIND_INFORMATION_REQUEST, FIND_BY_TYPE_VALUE_REQUEST, READ_BY_TYPE_REQUEST, READ_REQUEST,
           READ_BLOB_REQUEST, READ_BY_GROUP_TYPE_REQUEST}
  }

  /** The response to a request that changes nothing. */
  function ReadOnlyRsp(db: DB, mtu: nat, b: seq<Byte>, env: Env): seq<Byte>
    requires |b| > 0 && mtu >= 23 && IsReadOnly(b[0])
  {
    if b[0] == FIND_INFORMATION_REQUEST then FindInformationRsp(db, mtu, b)
    else if b[0] == FIND_BY_TYPE_VALUE_REQUEST then FindByTypeValueRsp(db, mtu, b, env)
    else if b[0] == READ_BY_TYPE_REQUEST then ReadByTypeRsp(db, mtu, b, env)
    else if b[0] == READ_REQUEST then ReadRsp(db, mtu, b, env)
    else if b[0] == READ_BLOB_REQUEST then ReadBlobRsp(db, mtu, b, env)
    else ReadByGroupRsp(db, mtu, b, env)
  }

  /** The transmit MTU an Exchange MTU Request asks for: the client's, never past our own limit. */
  function RequestedMTU(r: seq<Byte>): Option<int> {
    if |r| != 3 || U16At(r, 1) < DEFAULT_MTU then None else Some(Min(U16At(r, 1), MAX_MTU))
  }

  /** The queue entry a Prepare Write Request makes, or the error it is refused with. */
  function Prepare(db: DB, q: seq<PreparedWrite>, r: seq<Byte>): (p: Result<PreparedWrite, seq<Byte>>)
    requires |r| > 0
    ensures p.Err? ==> |p.error| == 5
  {
    if |r| < 5 then Err(ErrorRsp(r[0], 0, INVALID_PDU))
    else
      var h := U16At(r, 1);
      match db.At(h)
      case None => Err(ErrorRsp(r[0], h, INVALID_HANDLE))
      case Some(a) =>
        if !a.wh then Err(ErrorRsp(r[0], h, WRITE_NOT_PERM))
        else if |q| >= MAX_PREPARED_WRITES || QueuedBytes(q) + |r[5..]| > MAX_PREPARED_WRITE_BYTES then
          Err(ErrorRsp(r[0], h, PREP_QUEUE_FULL))
        else Ok(PreparedWrite(a, h, U16At(r, 3), r[5..]))
  }

  /** What a write hands to a write handler: its data at offset 0, if it names a writable attribute. */
  function WriteDeliveries(db: DB, r: seq<Byte>): seq<Delivery> {
    var a := if |r| < 3 then None else db.At(U16At(r, 1));
    if a.Some? && a.value.wh then [Delivery(a.value, 0, r[3..])] else []
  }

  function WriteRsp(db: DB, r: seq<Byte>, env: Env): seq<Byte>
    requires |r| > 0
  {
    if |r| < 3 then ErrorRsp(r[0], 0, INVALID_PDU)
    else
      var h := U16At(r, 1);
      match db.At(h)
      case None => ErrorRsp(r[0], h, INVALID_HANDLE)
      case Some(a) =>
        if !a.wh then ErrorRsp(r[0], h, WRITE_NOT_PERM)
        else if env.onWrite(0) != SUCCESS then ErrorRsp(r[0], h, env.onWrite(0))
        else [WRITE_RESPONSE]
  }

  function ExecuteDeliveries(q: seq<PreparedWrite>, r: seq<Byte>, env: Env): seq<Delivery> {
    if |r| >= 2 && r[1] == 1 then Delivered(Runs(q), env.onWrite, 0) else []
  }

  function ExecuteWriteRsp(q: seq<PreparedWrite>, r: seq<Byte>, env: Env): seq<Byte>
    requires |r| > 0
  {
    if |r| < 2 || r[1] > 1 then ErrorRsp(r[0], 0, INVALID_PDU)
    else if r[1] == 0 then [EXECUTE_WRITE_RESPONSE]
    else ExecuteRsp(Runs(q), env.onWrite, 0)
  }

  // ---- What handling a PDU does, opcode by opcode ----

  /** The response; empty when the server stays silent. */
  function ResponseTo(db: DB, rxMTU: U16, mtu: nat, q: seq<PreparedWrite>, b: seq<Byte>, env: Env): (r: seq<Byte>)
    requires |b| > 0 && mtu >= 23
    ensures b[0] != WRITE_COMMAND ==> r != []
  {
    if IsReadOnly(b[0]) then ReadOnlyRsp(db, mtu, b, env)
    else if b[0] == EXCHANGE_MTU_REQUEST then
      if RequestedMTU(b) == None then ErrorRsp(b[0], 0, INVALID_PDU) else [EXCHANGE_MTU_RESPONSE] + PutU16(rxMTU)
    else if b[0] == WRITE_REQUEST then WriteRsp(db, b, env)
    else if b[0] == WRITE_COMMAND then []
    else if b[0] == PREPARE_WRITE_REQUEST then
      match Prepare(db, q, b)
      case Ok(_) => [PREPARE_WRITE_RESPONSE] + b[1..]
      case Err(e) => e
    else if b[0] == EXECUTE_WRITE_REQUEST then ExecuteWriteRsp(q, b, env)
    else ErrorRsp(b[0], 0, REQ_NOT_SUPP)
  }

  /** The calls it makes of write handlers. */
  function DeliveriesOf(db: DB, q: seq<PreparedWrite>, b: seq<Byte>, env: Env): seq<Delivery>
    requires |b| > 0
  {
    if b[0] == WRITE_REQUEST || (b[0] == WRITE_COMMAND && |b| > 3) then WriteDeliveries(db, b)
    else if b[0] == EXECUTE_WRITE_REQUEST then ExecuteDeliveries(q, b, env)
    else []
  }

  /** The prepare queue behind it. */
  function QueueAfter(db: DB, q: seq<PreparedWrite>, b: seq<Byte>): seq<PreparedWrite>
    requires |b| > 0
  {
    if b[0] == PREPARE_WRITE_REQUEST then
      match Prepare(db, q, b)
      case Ok(p) => q + [p]
      case Err(_) => q
    else if b[0] == EXECUTE_WRITE_REQUEST && |b| >= 2 && b[1] <= 1 then []
    else q
  }

  /** The length of the transmit buffers behind it. */
  function MTUAfter(mtu: nat, b: seq<Byte>): int
    requires |b| > 0
  {
    if b[0] == EXCHANGE_MTU_REQUEST && RequestedMTU(b).Some? then RequestedMTU(b).value else mtu
  }

  // ---- The handlers ----

  /** Appends an entry at offset `at` of a buffer whose list starts at `lo`. */
  method Append(buf: array<Byte>, ghost lo: nat, at: nat, e: seq<Byte>)
    requires lo <= at && at + |e| <= buf.Length
    modifies buf
    ensures buf[..lo] == old(buf[..lo])
    ensures buf[lo..at + |e|] == old(buf[lo..at]) + e
  {
    CopyInto(buf, at, e);
    SliceSplit(buf[lo..], at - lo, at - lo + |e|);
  }

  method SetFormat(buf: array<Byte>, a: Attr)
    requires buf.Length >= 2
    modifies buf
    ensures buf[..2] == [old(buf[0]), InfoFormat(a)]
  {
    buf[1] := 1;
    if |a.typ| == 16 {
      buf[1] := 2;
    }
  }

  /** The entry loop of handleFindInformationRequest; buf[1] is the format, 0 until the first attribute. */
  method FillInformation(buf: array<Byte>, sub: seq<Attr>) returns (n: nat)
    requires buf.Length >= 23 && buf[..2] == [FIND_INFORMATION_RESPONSE, 0]
    modifies buf
    ensures n + 2 <= buf.Length
    ensures buf[..2] == [FIND_INFORMATION_RESPONSE, if sub == [] then 0 else InfoFormat(sub[0])]
    ensures sub != [] ==> buf[2..2 + n] == PackRest(InfoEntries(sub), InfoSize(sub[0]), buf.Length - 2)
  {
    hide PackRest, InfoEntries;
    ghost var es := InfoEntries(sub);
    n := 0;
    if sub == [] {
      return;
    }
    ghost var size := InfoSize(sub[0]);
    ghost var packed := PackRest(es, size, buf.Length - 2);
    var i := 0;
    ghost var list: seq<Byte> := [];
    assert es[0..] == es && buf[2..2] == [];
    while i < |sub|
      invariant 0 <= i <= |sub| && n == |list| <= buf.Length - 2 && (i == 0 ==> n == 0)
      invariant buf[..2] == [FIND_INFORMATION_RESPONSE, if i == 0 then 0 else InfoFormat(sub[0])]
      invariant buf[2..2 + n] == list
      invariant list + PackRest(es[i..], size, buf.Length - 2 - n) == packed
    {
      var a := sub[i];
      if buf[1] == 0 {
        SetFormat(buf, a);
      }
      assert buf[1] == buf[..2][1];
      InfoEntryAt(sub, i);
      PackStepAt(es, i, size, buf.Length - 2 - n, list);
      var formatChanges := (buf[1] == 1 && |a.typ| != 2) || (buf[1] == 2 && |a.typ| != 16);
      assert formatChanges <==> |es[i].value| != size;
      if formatChanges || n + 2 + |a.typ| > buf.Length - 2 {
        return;
      }
      Append(buf, 2, 2 + n, PutU16(a.h) + a.typ);
      list := list + es[i].value;
      n := n + 2 + |a.typ|;
      i := i + 1;
    }
    PackDone(es[i..], size, buf.Length - 2 - n, list);
  }

  /** What the Read By Type and Read By Group Type loops do with one entry after n bytes of entries of
      size d (0 before the first): the first entry sets the size in buf[1]; an entry of another size,
      or one that does not fit, is not taken. */
  method PutEntry(buf: array<Byte>, e: seq<Byte>, d: nat, n: nat) returns (took: bool, size: nat)
    requires 23 <= buf.Length && 2 <= |e| && n <= buf.Length - 2 && (d == 0 ==> n == 0)
    modifies buf
    ensures size == if d == 0 then EntrySize(e, buf.Length - 2) else d
    ensures took == ((d == 0 || |e| == d) && n + size <= buf.Length - 2)
    ensures buf[0] == old(buf[0]) && buf[1] == if d == 0 then size else old(buf[1])
    ensures buf[2..2 + n] == old(buf[2..2 + n])
    ensures took ==> size <= |e| && buf[2..2 + n + size] == old(buf[2..2 + n]) + e[..size]
  {
    size := d;
    took := false;
    if d == 0 {
      size := Min(Min(|e|, 255), buf.Length - 2);
      buf[1] := size;
    } else if |e| != d {
      return;
    }
    if n + size > buf.Length - 2 {
      return;
    }
    CopyInto(buf, 2 + n, e[..size]);
    SliceSplit(buf[2..], n, n + size);
    took := true;
  }

  lemma FillDone(typ: seq<Byte>, cap: nat, env: Env, d: nat, room: nat, list: seq<Byte>)
    ensures Fill(TypeEntries([], typ, cap, env), d, room).After(list) == Filled(d, list)
  {
  }

  /** The entry loop of handleReadByTypeRequest: dlen is 0 until the first matching value, whose read
      error ends the request; a later error ends the list. */
  method FillByType(buf: array<Byte>, sub: seq<Attr>, typ: seq<Byte>, env: Env)
    returns (n: nat, dlen: nat, failed: Option<Byte>)
    requires 23 <= buf.Length
    modifies buf
    ensures buf[0] == old(buf[0]) && n + 2 <= buf.Length && (dlen != 0 ==> buf[1] == dlen)
    ensures Fill(TypeEntries(sub, typ, buf.Length - 2, env), 0, buf.Length - 2)
         == if failed.Some? then Refused(failed.value) else Filled(dlen, buf[2..2 + n])
  {
    hide Fill, TypeEntries, ReadValue, EntrySize;
    var listLen := buf.Length - 2;
    ghost var goal := Fill(TypeEntries(sub, typ, listLen, env), 0, listLen);
    ghost var list: seq<Byte> := [];
    n, dlen, failed := 0, 0, None;
    var i := 0;
    assert sub[0..] == sub && buf[2..2] == [];
    while i < |sub|
      invariant 0 <= i <= |sub| && n == |list| <= listLen && (dlen == 0 ==> n == 0)
      invariant buf[0] == old(buf[0]) && buf[2..2 + n] == list && (dlen != 0 ==> buf[1] == dlen)
      invariant Fill(TypeEntries(sub[i..], typ, listLen, env), dlen, listLen - n).After(list) == goal
    {
      var a := sub[i];
      TypeEntriesStep(sub, i, typ, listLen, env);
      i := i + 1;
      if a.typ != typ {
        continue;
      }
      ghost var entry, rest := TypeEntry(a, listLen, env), TypeEntries(sub[i..], typ, listLen, env);
      FillStep(entry, rest, dlen, listLen - n, list);
      assert Fill([entry] + rest, dlen, listLen - n).After(list) == goal;
      var value := ReadValue(a, listLen, env);
      if value.Err? {
        if dlen == 0 {
          failed := Some(value.error);
        }
        return;
      }
      var e := PutU16(a.h) + value.value;
      assert entry == Ok(e);
      var took, size := PutEntry(buf, e, dlen, n);
      dlen := size;
      if !took {
        return;
      }
      list := list + e[..size];
      assert Fill(rest, size, listLen - n - size).After(list) == goal;
      n := n + size;
    }
    assert sub[i..] == [];
    FillDone(typ, listLen, env, dlen, listLen - n, list);
  }

  /** The entry loop of handleReadByGroupRequest. */
  method FillByGroup(buf: array<Byte>, sub: seq<Attr>, typ: seq<Byte>, env: Env)
    returns (n: nat, dlen: nat, failed: Option<Byte>)
    requires 23 <= buf.Length
    modifies buf
    ensures buf[0] == old(buf[0]) && n + 2 <= buf.Length && (dlen != 0 ==> buf[1] == dlen)
    ensures GroupWalk(sub, typ, 0, 0, buf.Length - 2, env)
         == if failed.Some? then Refused(failed.value) else Filled(dlen, buf[2..2 + n])
  {
    hide GroupWalk, ReadValue, EntrySize;
    var listLen := buf.Length - 2;
    ghost var goal := GroupWalk(sub, typ, 0, 0, listLen, env);
    ghost var list: seq<Byte> := [];
    n, dlen, failed := 0, 0, None;
    var i := 0;
    assert sub[0..] == sub && buf[2..2] == [];
    while i < |sub|
      invariant 0 <= i <= |sub| && n == |list| <= listLen && (dlen == 0 ==> n == 0)
      invariant buf[0] == old(buf[0]) && buf[2..2 + n] == list && (dlen != 0 ==> buf[1] == dlen)
      invariant GroupWalk(sub[i..], typ, dlen, n, listLen, env).After(list) == goal
    {
      var a := sub[i];
      assert sub[i..] == [a] + sub[i + 1..];
      i := i + 1;
      GroupStep(a, sub[i..], typ, dlen, n, listLen, env, list);
      if a.typ != typ {
        continue;
      }
      var free := listLen - n - 4;
      if a.v.None? && free < 0 {
        return;
      }
      var value := ReadValue(a, if free < 0 then 0 else free, env);
      if value.Err? {
        failed := Some(value.error);
        return;
      }
      var e := GroupEntry(a, value.value);
      var took, size := PutEntry(buf, e, dlen, n);
      dlen := size;
      if !took {
        return;
      }
      list := list + e[..size];
      n := n + size;
    }
    assert sub[i..] == [];
    GroupDone(typ, dlen, n, listLen, env, list);
  }

  /** The entry loop of handleFindByTypeValueRequest; buf[1..] is the list. */
  method FillMatches(buf: array<Byte>, sub: seq<Attr>, typ: seq<Byte>, val: seq<Byte>, env: Env)
    returns (n: nat, failed: bool)
    requires 23 <= buf.Length
    modifies buf
    ensures buf[..1] == old(buf[..1]) && n + 1 <= buf.Length
    ensures MatchWalk(sub, typ, val, 0, buf.Length, env) == if failed then None else Some(buf[1..1 + n])
  {
    hide MatchWalk, ReadValue;
    var mtu := buf.Length;
    ghost var goal := MatchWalk(sub, typ, val, 0, mtu, env);
    ghost var list: seq<Byte> := [];
    n, failed := 0, false;
    var i := 0;
    assert sub[0..] == sub && buf[1..1] == [];
    while i < |sub|
      invariant 0 <= i <= |sub| && n == |list| <= mtu - 1
      invariant buf[..1] == old(buf[..1]) && buf[1..1 + n] == list
      invariant Before(list, MatchWalk(sub[i..], typ, val, n, mtu, env)) == goal
    {
      var a := sub[i];
      assert sub[i..] == [a] + sub[i + 1..];
      i := i + 1;
      MatchStep(a, sub[i..], typ, val, n, mtu, env, list);
      if a.typ != typ {
        continue;
      }
      var value := ReadValue(a, mtu - 6, env);
      if value.Err? || (a.v.None? && |value.value| > mtu - 7) {
        failed := true;
        return;
      }
      if value.value != val {
        continue;
      }
      if n + 4 > mtu - 1 {
        return;
      }
      Append(buf, 1, 1 + n, HandlePair(a));
      list := list + HandlePair(a);
      n := n + 4;
    }
    assert sub[i..] == [];
    MatchDone(typ, val, n, mtu, env, list);
  }

  class Server {
    const db: DB
    const rxMTU: int
    /** The transmit MTU the connection has been told. */
    var txMTU: int
    var txBuf: array<Byte>
    var notBuf: array<Byte>
    var indBuf: array<Byte>
    var prepared: seq<PreparedWrite>
    var preparedBytes: int
    /** Every call made of a write handler, in order. */
    ghost var delivered: seq<Delivery>

    ghost predicate Valid()
      reads this
    {
      && DEFAULT_MTU <= rxMTU <= MAX_MTU
      && DEFAULT_MTU <= txBuf.Length <= MAX_MTU
      && notBuf.Length == indBuf.Length == txBuf.Length
      && txBuf != notBuf && txBuf != indBuf && notBuf != indBuf
      && preparedBytes == QueuedBytes(prepared) <= MAX_PREPARED_WRITE_BYTES
      && |prepared| <= MAX_PREPARED_WRITES
    }

    /** NewServer, past its check of the connection's receive MTU. */
    constructor (db: DB, rxMTU: int)
      requires DEFAULT_MTU <= rxMTU <= MAX_MTU
      ensures Valid() && fresh(txBuf) && fresh(notBuf) && fresh(indBuf)
      ensures this.db == db && this.rxMTU == rxMTU && txBuf.Length == DEFAULT_MTU
      ensures prepared == [] && delivered == []
    {
      this.db, this.rxMTU, txMTU := db, rxMTU, DEFAULT_MTU;
      txBuf := new Byte[DEFAULT_MTU](_ => 0);
      notBuf := new Byte[DEFAULT_MTU](_ => 0);
      indBuf := new Byte[DEFAULT_MTU](_ => 0);
      prepared, preparedBytes, delivered := [], 0, [];
    }

    method HandleExchangeMTU(r: seq<Byte>) returns (rsp: seq<Byte>)
      requires Valid() && |r| > 0
      modifies this`txMTU, this`txBuf, this`notBuf, this`indBuf, txBuf
      ensures Valid() && |rsp| <= old(txBuf.Length)
      ensures RequestedMTU(r) == None ==>
                rsp == ErrorRsp(r[0], 0, INVALID_PDU) && txMTU == old(txMTU) && txBuf == old(txBuf)
      ensures RequestedMTU(r).Some? ==>
                rsp == [EXCHANGE_MTU_RESPONSE] + PutU16(rxMTU) && txMTU == txBuf.Length == RequestedMTU(r).value
      ensures (txBuf == old(txBuf) && notBuf == old(notBuf) && indBuf == old(indBuf))
           || (fresh(txBuf) && fresh(notBuf) && fresh(indBuf))
    {
      if |r| != 3 || U16At(r, 1) < DEFAULT_MTU {
        return ErrorRsp(r[0], 0, INVALID_PDU);
      }
      txMTU := U16At(r, 1);
      if txMTU > MAX_MTU {
        txMTU := MAX_MTU;
      }
      var buf := txBuf;
      if txMTU != txBuf.Length {
        txBuf := new Byte[txMTU](_ => 0);
        notBuf := new Byte[txMTU](_ => 0);
        indBuf := new Byte[txMTU](_ => 0);
      }
      buf[0] := EXCHANGE_MTU_RESPONSE;
      CopyInto(buf, 1, PutU16(rxMTU));
      SliceSplit(buf[..], 1, 3);
      rsp := buf[..3];
    }

    method HandleFindInformation(r: seq<Byte>) returns (rsp: seq<Byte>)
      requires Valid() && |r| > 0
      modifies txBuf
      ensures rsp == FindInformationRsp(db, txBuf.Length, r) && |rsp| <= txBuf.Length
    {
      hide PackRest, InfoEntries;
      if |r| != 5 {
        return ErrorRsp(r[0], 0, INVALID_PDU);
      }
      var start, end := U16At(r, 1), U16At(r, 3);
      if start == 0 || start > end {
        return ErrorRsp(r[0], start, INVALID_HANDLE);
      }
      txBuf[0] := FIND_INFORMATION_RESPONSE;
      txBuf[1] := 0;
      var n := FillInformation(txBuf, db.Subrange(start, end));
      if txBuf[1] == 0 {
        return ErrorRsp(r[0], start, ATTR_NOT_FOUND);
      }
      SliceSplit(txBuf[..], 2, 2 + n);
      rsp := txBuf[..2 + n];
    }

    method HandleFindByTypeValue(r: seq<Byte>, env: Env) returns (rsp: seq<Byte>)
      requires Valid() && |r| > 0
      modifies txBuf
      ensures rsp == FindByTypeValueRsp(db, txBuf.Length, r, env) && |rsp| <= txBuf.Length
    {
      hide MatchWalk, DB.Subrange;
      if |r| < 7 {
        return ErrorRsp(r[0], 0, INVALID_PDU);
      }
      var start, end := U16At(r, 1), U16At(r, 3);
      if start == 0 || start > end {
        return ErrorRsp(r[0], start, INVALID_HANDLE);
      }
      txBuf[0] := FIND_BY_TYPE_VALUE_RESPONSE;
      var n, failed := FillMatches(txBuf, db.Subrange(start, end), PutU16(U16At(r, 5)), r[7..], env);
      if failed {
        return ErrorRsp(r[0], start, INVALID_HANDLE);
      }
      if n == 0 {
        return ErrorRsp(r[0], start, ATTR_NOT_FOUND);
      }
      SliceSplit(txBuf[..], 1, 1 + n);
      rsp := txBuf[..1 + n];
    }

    method HandleReadByType(r: seq<Byte>, env: Env) returns (rsp: seq<Byte>)
      requires Valid() && |r| > 0
      modifies txBuf
      ensures rsp == ReadByTypeRsp(db, txBuf.Length, r, env) && |rsp| <= txBuf.Length
    {
      hide Fill, TypeEntries, DB.Subrange;
      if |r| != 7 && |r| != 21 {
        return ErrorRsp(r[0], 0, INVALID_PDU);
      }
      var start, end := U16At(r, 1), U16At(r, 3);
      if start == 0 || start > end {
        return ErrorRsp(r[0], start, INVALID_HANDLE);
      }
      txBuf[0] := READ_BY_TYPE_RESPONSE;
      var n, dlen, failed := FillByType(txBuf, db.Subrange(start, end), r[5..], env);
      if failed.Some? {
        return ErrorRsp(r[0], start, failed.value);
      }
      if dlen == 0 {
        return ErrorRsp(r[0], start, ATTR_NOT_FOUND);
      }
      SliceSplit(txBuf[..], 2, 2 + n);
      rsp := txBuf[..2 + n];
    }

    method HandleReadByGroup(r: seq<Byte>, env: Env) returns (rsp: seq<Byte>)
      requires Valid() && |r| > 0
      modifies txBuf
      ensures rsp == ReadByGroupRsp(db, txBuf.Length, r, env) && |rsp| <= txBuf.Length
    {
      hide GroupWalk, DB.Subrange;
      if |r| != 7 && |r| != 21 {
        return ErrorRsp(r[0], 0, INVALID_PDU);
      }
      var start, end := U16At(r, 1), U16At(r, 3);
      if start == 0 || start > end {
        return ErrorRsp(r[0], start, INVALID_HANDLE);
      }
      txBuf[0] := READ_BY_GROUP_TYPE_RESPONSE;
      var n, dlen, failed := FillByGroup(txBuf, db.Subrange(start, end), r[5..], env);
      if failed.Some? {
        return ErrorRsp(r[0], start, failed.value);
      }
      if dlen == 0 {
        return ErrorRsp(r[0], start, ATTR_NOT_FOUND);
      }
      SliceSplit(txBuf[..], 2, 2 + n);
      rsp := txBuf[..2 + n];
    }

    method HandleRead(r: seq<Byte>, env: Env) returns (rsp: seq<Byte>)
      requires Valid() && |r| > 0
      modifies txBuf
      ensures rsp == ReadRsp(db, txBuf.Length, r, env) && |rsp| <= txBuf.Length
    {
      if |r| != 3 {
        return ErrorRsp(r[0], 0, INVALID_PDU);
      }
      txBuf[0] := READ_RESPONSE;
      var h := U16At(r, 1);
      var a := db.At(h);
      if a == None {
        return ErrorRsp(r[0], h, INVALID_HANDLE);
      }
      var value := ReadValue(a.value, txBuf.Length - 1, env);
      if value.Err? {
        return ErrorRsp(r[0], h, value.error);
      }
      var n := Min(|value.value|, txBuf.Length - 1);
      CopyInto(txBuf, 1, value.value[..n]);
      SliceSplit(txBuf[..], 1, 1 + n);
      rsp := txBuf[..1 + n];
    }

    method HandleReadBlob(r: seq<Byte>, env: Env) returns (rsp: seq<Byte>)
      requires Valid() && |r| > 0
      modifies txBuf
      ensures rsp == ReadBlobRsp(db, txBuf.Length, r, env) && |rsp| <= txBuf.Length
    {
      if |r| != 5 {
        return ErrorRsp(r[0], 0, INVALID_PDU);
      }
      var h, off := U16At(r, 1), U16At(r, 3);
      var a := db.At(h);
      if a == None {
        return ErrorRsp(r[0], h, INVALID_HANDLE);
      }
      txBuf[0] := READ_BLOB_RESPONSE;
      var part;
      if a.value.v.Some? {
        var v := a.value.v.value;
        if off > |v| {
          return ErrorRsp(r[0], h, INVALID_OFFSET);
        }
        part := v[off..off + Min(|v| - off, txBuf.Length - 1)];
      } else {
        var value := ReadValue(a.value, txBuf.Length - 1, env);
        if value.Err? {
          return ErrorRsp(r[0], h, value.error);
        }
        part := value.value;
      }
      CopyInto(txBuf, 1, part);
      SliceSplit(txBuf[..], 1, 1 + |part|);
      rsp := txBuf[..1 + |part|];
    }

    /** Write Request, and Write Command once its length is checked: one delivery at offset 0. */
    method HandleWrite(r: seq<Byte>, env: Env) returns (rsp: seq<Byte>)
      requires Valid() && |r| > 0
      modifies this`delivered
      ensures delivered == old(delivered) + WriteDeliveries(db, r)
      ensures rsp == WriteRsp(db, r, env) && |rsp| <= 5
    {
      if |r| < 3 {
        return ErrorRsp(r[0], 0, INVALID_PDU);
      }
      var h := U16At(r, 1);
      var a := db.At(h);
      if a == None {
        return ErrorRsp(r[0], h, INVALID_HANDLE);
      }
      if !a.value.wh {
        return ErrorRsp(r[0], h, WRITE_NOT_PERM);
      }
      delivered := delivered + [Delivery(a.value, 0, r[3..])];
      var status := env.onWrite(0);
      if status != SUCCESS {
        return ErrorRsp(r[0], h, status);
      }
      rsp := [WRITE_RESPONSE];
    }

    method HandlePrepareWrite(r: seq<Byte>) returns (rsp: seq<Byte>)
      requires Valid() && |r| > 0
      modifies this`prepared, this`preparedBytes
      ensures Valid()
      ensures match Prepare(db, old(prepared), r)
              case Ok(p) => prepared == old(prepared) + [p] && rsp == [PREPARE_WRITE_RESPONSE] + r[1..]
              case Err(e) => prepared == old(prepared) && rsp == e
    {
      if |r| < 5 {
        return ErrorRsp(r[0], 0, INVALID_PDU);
      }
      var h := U16At(r, 1);
      var a := db.At(h);
      if a == None {
        return ErrorRsp(r[0], h, INVALID_HANDLE);
      }
      if !a.value.wh {
        return ErrorRsp(r[0], h, WRITE_NOT_PERM);
      }
      var value := r[5..];
      if |prepared| >= MAX_PREPARED_WRITES || preparedBytes + |value| > MAX_PREPARED_WRITE_BYTES {
        return ErrorRsp(r[0], h, PREP_QUEUE_FULL);
      }
      var p := PreparedWrite(a.value, h, U16At(r, 3), value);
      QueuedBytesAppend(prepared, p);
      prepared := prepared + [p];
      preparedBytes := preparedBytes + |value|;
      rsp := r[0 := PREPARE_WRITE_RESPONSE];
    }

    method ClearPrepared()
      modifies this`prepared, this`preparedBytes
      ensures prepared == [] && preparedBytes == 0
    {
      prepared, preparedBytes := [], 0;
    }

    /** The delivery loop of handleExecuteWriteRequest. */
    method DeliverRuns(r: seq<Byte>, env: Env) returns (rsp: seq<Byte>)
      requires |r| > 0 && r[0] == EXECUTE_WRITE_REQUEST
      modifies this`delivered
      ensures delivered == old(delivered) + Delivered(Runs(prepared), env.onWrite, 0)
      ensures rsp == ExecuteRsp(Runs(prepared), env.onWrite, 0)
    {
      var i, calls := 0, 0;
      assert prepared[0..] == prepared;
      while i < |prepared|
        invariant 0 <= i <= |prepared| && 0 <= calls
        invariant delivered + Delivered(Runs(prepared[i..]), env.onWrite, calls)
               == old(delivered) + Delivered(Runs(prepared), env.onWrite, 0)
        invariant ExecuteRsp(Runs(prepared[i..]), env.onWrite, calls) == ExecuteRsp(Runs(prepared), env.onWrite, 0)
      {
        var p := prepared[i];
        var data, j := NextRun(i);
        RunsStep(prepared, i, j);
        DeliverStep((Delivery(p.a, p.offset, data), p.handle), Runs(prepared[j..]), env.onWrite, calls, delivered);
        delivered := delivered + [Delivery(p.a, p.offset, data)];
        var status := env.onWrite(calls);
        if status != SUCCESS {
          return ErrorRsp(r[0], p.handle, status);
        }
        calls := calls + 1;
        i := j;
      }
      rsp := [EXECUTE_WRITE_RESPONSE];
    }

    /** The inner loop of handleExecuteWriteRequest: the data of the run that starts at part i. */
    method NextRun(i: nat) returns (data: seq<Byte>, j: nat)
      requires i < |prepared|
      ensures j == i + RunLength(prepared[i..]) <= |prepared|
      ensures data == Data(prepared[i..j])
    {
      hide QueuedBytes, Runs, Contiguous, Data;
      var p := prepared[i];
      data := p.value;
      var next := p.offset + |p.value|;
      j := i + 1;
      assert prepared[i..][1..] == prepared[j..];
      FirstData(prepared[i..j]);
      while j < |prepared|
        invariant i < j <= |prepared|
        invariant j - i + Contiguous(prepared[j..], p.a, next) == RunLength(prepared[i..])
        invariant data == Data(prepared[i..j])
      {
        var q := prepared[j];
        assert prepared[j..][1..] == prepared[j + 1..];
        ContiguousStep(prepared[j..], p.a, next);
        if q.a != p.a || q.offset != next {
          break;
        }
        DataAppend(prepared[i..j], q);
        assert prepared[i..j + 1] == prepared[i..j] + [q];
        data := data + q.value;
        next := next + |q.value|;
        j := j + 1;
      }
      if j == |prepared| {
        NoneContiguous(prepared[j..], p.a, next);
      }
    }

    method HandleExecuteWrite(r: seq<Byte>, env: Env) returns (rsp: seq<Byte>)
      requires Valid() && |r| > 0 && r[0] == EXECUTE_WRITE_REQUEST
      modifies this`prepared, this`preparedBytes, this`delivered
      ensures Valid()
      ensures prepared == if |r| >= 2 && r[1] <= 1 then [] else old(prepared)
      ensures delivered == old(delivered) + ExecuteDeliveries(old(prepared), r, env)
      ensures rsp == ExecuteWriteRsp(old(prepared), r, env) && |rsp| <= 5
    {
      if |r| < 2 {
        return ErrorRsp(r[0], 0, INVALID_PDU);
      }
      if r[1] == 0 {
        ClearPrepared();
      } else if r[1] == 1 {
        rsp := DeliverRuns(r, env);
        ClearPrepared();
        return;
      } else {
        return ErrorRsp(r[0], 0, INVALID_PDU);
      }
      rsp := [EXECUTE_WRITE_RESPONSE];
    }

    /** handleRequest: dispatch on the opcode. */
    method HandleRequest(b: seq<Byte>, env: Env) returns (rsp: seq<Byte>)
      requires Valid() && |b| > 0
      modifies this`txMTU, this`txBuf, this`notBuf, this`indBuf, txBuf
      modifies this`prepared, this`preparedBytes, this`delivered
      ensures Valid()
      ensures rsp == ResponseTo(db, rxMTU, old(txBuf.Length), old(prepared), b, env)
      ensures delivered == old(delivered) + DeliveriesOf(db, old(prepared), b, env)
      ensures prepared == QueueAfter(db, old(prepared), b)
      ensures txBuf.Length == MTUAfter(old(txBuf.Length), b)
      ensures txMTU == if b[0] == EXCHANGE_MTU_REQUEST && RequestedMTU(b).Some? then txBuf.Length else old(txMTU)
      ensures b[0] != EXCHANGE_MTU_REQUEST ==> unchanged(`txBuf, `notBuf, `indBuf)
      ensures unchanged(`txBuf, `notBuf, `indBuf) || (fresh(txBuf) && fresh(notBuf) && fresh(indBuf))
      ensures |rsp| <= old(txBuf.Length) || (b[0] == PREPARE_WRITE_REQUEST && rsp == [PREPARE_WRITE_RESPONSE] + b[1..])
    {
      hide FindInformationRsp, FindByTypeValueRsp, ReadByTypeRsp, ReadRsp, ReadBlobRsp, ReadByGroupRsp;
      hide WriteRsp, WriteDeliveries, ExecuteWriteRsp, ExecuteDeliveries, Prepare, RequestedMTU;
      if b[0] == EXCHANGE_MTU_REQUEST {
        rsp := HandleExchangeMTU(b);
      } else if b[0] == FIND_INFORMATION_REQUEST {
        rsp := HandleFindInformation(b);
      } else if b[0] == FIND_BY_TYPE_VALUE_REQUEST {
        rsp := HandleFindByTypeValue(b, env);
      } else if b[0] == READ_BY_TYPE_REQUEST {
        rsp := HandleReadByType(b, env);
      } else if b[0] == READ_REQUEST {
        rsp := HandleRead(b, env);
      } else if b[0] == READ_BLOB_REQUEST {
        rsp := HandleReadBlob(b, env);
      } else if b[0] == READ_BY_GROUP_TYPE_REQUEST {
        rsp := HandleReadByGroup(b, env);
      } else if b[0] == WRITE_REQUEST {
        rsp := HandleWrite(b, env);
      } else if b[0] == WRITE_COMMAND {
        if |b| > 3 {
          var _ := HandleWrite(b, env);
        }
        rsp := [];
      } else if b[0] == PREPARE_WRITE_REQUEST {
        rsp := HandlePrepareWrite(b);
      } else if b[0] == EXECUTE_WRITE_REQUEST {
        rsp := HandleExecuteWrite(b, env);
      } else {
        rsp := ErrorRsp(b[0], 0, REQ_NOT_SUPP);
      }
    }
  }
}
