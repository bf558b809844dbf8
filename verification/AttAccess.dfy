/** What a peer gets when it addresses one attribute: the server's answers byte by byte
    (linux/att/server.go), for any table and then for the table NewDB makes of a declared profile. */
module AttAccess {
  import opened Bytes
  import opened Wrappers
  import opened Profile
  import opened AttDb
  import opened AttPdu
  import opened AttServer
  import opened AttLayout
  import opened PreparedWrites

  // ---- The PDUs, byte by byte ----

  /** A 16-bit field travels low byte first. */
  lemma WireOrder(lo: Byte, hi: Byte)
    ensures PutU16(lo + 0x100 * hi) == [lo, hi] && U16At([lo, hi], 0) == lo + 0x100 * hi
  {
  }

  lemma HandleField(b: seq<Byte>, i: nat, h: U16)
    requires i + 2 <= |b| && b[i] == h % 0x100 && b[i + 1] == h / 0x100
    ensures U16At(b, i) == h
  {
  }

  /** The answer to a Read Request for handle h, when a value v or a read handler stands there. */
  function ReadAnswer(h: U16, v: Option<seq<Byte>>, rh: bool, mtu: nat, o: ReadOutcome): seq<Byte>
    requires mtu >= 23
  {
    match v
    case Some(value) => [0x0B] + if |value| < mtu then value else value[..mtu - 1]
    case None =>
      if !rh then [0x01, 0x0A, h % 0x100, h / 0x100, 0x02]
      else if o.status != 0x00 then [0x01, 0x0A, h % 0x100, h / 0x100, o.status]
      else [0x0B] + Written([], o.writes, mtu - 1)
  }

  /** The answer to a Write Request for handle h, given the status a write handler leaves. */
  function WriteAnswer(h: U16, wh: bool, status: Byte): seq<Byte> {
    if !wh then [0x01, 0x12, h % 0x100, h / 0x100, 0x03]
    else if status != 0x00 then [0x01, 0x12, h % 0x100, h / 0x100, status]
    else [0x13]
  }

  /** One call of the write handler that stands at handle h. */
  ghost predicate CallsHandler(ds: seq<Delivery>, h: U16, data: seq<Byte>) {
    |ds| == 1 && ds[0].a.h == h && ds[0].offset == 0 && ds[0].data == data
  }

  lemma ReadOfAttribute(db: DB, rx: U16, mtu: nat, q: seq<PreparedWrite>, h: U16, a: Attr, env: Env)
    requires mtu >= 23 && db.At(h) == Some(a) && a.h == h
    ensures var r := [0x0A, h % 0x100, h / 0x100];
            && ResponseTo(db, rx, mtu, q, r, env) == ReadAnswer(h, a.v, a.rh, mtu, env.onRead(h))
            && DeliveriesOf(db, q, r, env) == [] && QueueAfter(db, q, r) == q
  {
    hide Written, DB.At;
    HandleField([0x0A, h % 0x100, h / 0x100], 1, h);
  }

  /** A Read Blob Request: the static value from the offset on, which may be its end but not behind it; a
      handler's output is not sliced. */
  lemma BlobOfAttribute(db: DB, rx: U16, mtu: nat, q: seq<PreparedWrite>, h: U16, a: Attr, off: U16, env: Env)
    requires mtu >= 23 && db.At(h) == Some(a) && a.h == h
    ensures var r := [0x0C, h % 0x100, h / 0x100, off % 0x100, off / 0x100];
            var o := env.onRead(h);
            && ResponseTo(db, rx, mtu, q, r, env)
            == (if a.v.Some? then
                  var v := a.v.value;
                  if off > |v| then [0x01, 0x0C, h % 0x100, h / 0x100, 0x07]
                  else [0x0D] + if |v| - off < mtu then v[off..] else v[off..off + mtu - 1]
                else if !a.rh then [0x01, 0x0C, h % 0x100, h / 0x100, 0x02]
                else if o.status != 0x00 then [0x01, 0x0C, h % 0x100, h / 0x100, o.status]
                else [0x0D] + Written([], o.writes, mtu - 1))
            && DeliveriesOf(db, q, r, env) == [] && QueueAfter(db, q, r) == q
  {
    hide Written, DB.At;
    var r := [0x0C, h % 0x100, h / 0x100, off % 0x100, off / 0x100];
    HandleField(r, 1, h);
    HandleField(r, 3, off);
  }

  lemma WriteOfAttribute(db: DB, rx: U16, mtu: nat, q: seq<PreparedWrite>, h: U16, a: Attr, data: seq<Byte>, env: Env)
    requires mtu >= 23 && db.At(h) == Some(a) && a.h == h
    ensures var r := [0x12, h % 0x100, h / 0x100] + data;
            && ResponseTo(db, rx, mtu, q, r, env) == WriteAnswer(h, a.wh, env.onWrite(0))
            && (if a.wh then CallsHandler(DeliveriesOf(db, q, r, env), h, data) else DeliveriesOf(db, q, r, env) == [])
            && QueueAfter(db, q, r) == q
  {
    hide DB.At;
    var r := [0x12, h % 0x100, h / 0x100] + data;
    HandleField(r, 1, h);
    assert r[3..] == data;
  }

  /** A Write Command is not answered, and an empty one is ignored. */
  lemma CommandOfAttribute(db: DB, rx: U16, mtu: nat, q: seq<PreparedWrite>, h: U16, a: Attr, data: seq<Byte>, env: Env)
    requires mtu >= 23 && db.At(h) == Some(a) && a.h == h
    ensures var r := [0x52, h % 0x100, h / 0x100] + data;
            && ResponseTo(db, rx, mtu, q, r, env) == []
            && (if a.wh && data != [] then CallsHandler(DeliveriesOf(db, q, r, env), h, data)
                else DeliveriesOf(db, q, r, env) == [])
            && QueueAfter(db, q, r) == q
  {
    hide DB.At;
    var r := [0x52, h % 0x100, h / 0x100] + data;
    HandleField(r, 1, h);
    assert r[3..] == data;
  }

  /** A Prepare Write Request queues its part, at the offset it names, for an attribute that can be
      written and while 64 parts and 512 bytes are not exceeded; the response echoes it. */
  lemma PrepareOfAttribute(db: DB, rx: U16, mtu: nat, q: seq<PreparedWrite>, h: U16, a: Attr, off: U16,
                           part: seq<Byte>, env: Env)
    requires mtu >= 23 && db.At(h) == Some(a)
    ensures var fields := [h % 0x100, h / 0x100, off % 0x100, off / 0x100] + part;
            var r, queued := [0x16] + fields, a.wh && |q| < 64 && QueuedBytes(q) + |part| <= 512;
            && QueueAfter(db, q, r) == (if queued then q + [PreparedWrite(a, h, off, part)] else q)
            && ResponseTo(db, rx, mtu, q, r, env)
            == (if queued then [0x17] + fields else [0x01, 0x16, h % 0x100, h / 0x100, if a.wh then 0x09 else 0x03])
            && DeliveriesOf(db, q, r, env) == []
  {
    hide DB.At, QueuedBytes, Prepare, ResponseTo, DeliveriesOf, QueueAfter;
    var fields := [h % 0x100, h / 0x100, off % 0x100, off / 0x100] + part;
    PartIsQueued(db, q, h, a, off, part);
    PrepareIsDispatched(db, rx, mtu, q, fields, env);
  }

  lemma PrepareIsDispatched(db: DB, rx: U16, mtu: nat, q: seq<PreparedWrite>, fields: seq<Byte>, env: Env)
    requires mtu >= 23
    ensures var r := [0x16] + fields;
            var p := Prepare(db, q, r);
            && QueueAfter(db, q, r) == (if p.Ok? then q + [p.value] else q)
            && ResponseTo(db, rx, mtu, q, r, env) == (if p.Ok? then [0x17] + fields else p.error)
            && DeliveriesOf(db, q, r, env) == []
  {
    hide Prepare;
    assert ([0x16] + fields)[1..] == fields;
  }

  lemma ErrorBytes(op: Byte, h: U16, code: Byte)
    ensures ErrorRsp(op, h, code) == [0x01, op, h % 0x100, h / 0x100, code]
  {
  }

  lemma PartIsQueued(db: DB, q: seq<PreparedWrite>, h: U16, a: Attr, off: U16, part: seq<Byte>)
    requires db.At(h) == Some(a)
    ensures Prepare(db, q, [0x16] + ([h % 0x100, h / 0x100, off % 0x100, off / 0x100] + part))
         == if !a.wh then Err([0x01, 0x16, h % 0x100, h / 0x100, 0x03])
            else if |q| < 64 && QueuedBytes(q) + |part| <= 512 then Ok(PreparedWrite(a, h, off, part))
            else Err([0x01, 0x16, h % 0x100, h / 0x100, 0x09])
  {
    hide DB.At, QueuedBytes;
    var r := [0x16] + ([h % 0x100, h / 0x100, off % 0x100, off / 0x100] + part);
    HandleField(r, 1, h);
    HandleField(r, 3, off);
    ErrorBytes(0x16, h, if a.wh then 0x09 else 0x03);
    assert r[5..] == part;
  }

  /** A handle outside the table is refused by every request that names one attribute, whatever else
      the request carries, and nothing happens. */
  lemma UnknownHandleIsRefused(db: DB, rx: U16, mtu: nat, q: seq<PreparedWrite>, op: Byte, h: U16,
                               rest: seq<Byte>, env: Env)
    requires mtu >= 23 && db.At(h) == None
    requires (op == 0x0A && rest == []) || (op == 0x0C && |rest| == 2) || op == 0x12 || (op == 0x16 && |rest| >= 2)
    ensures var r := [op, h % 0x100, h / 0x100] + rest;
            && ResponseTo(db, rx, mtu, q, r, env) == [0x01, op, h % 0x100, h / 0x100, 0x01]
            && DeliveriesOf(db, q, r, env) == [] && QueueAfter(db, q, r) == q
  {
    hide DB.At, QueuedBytes;
    HandleField([op, h % 0x100, h / 0x100] + rest, 1, h);
  }

  /** The lengths a PDU of each opcode may have. */
  predicate WellFormed(r: seq<Byte>)
    requires r != []
  {
    var n := |r|;
    if r[0] in {0x04, 0x0C} then n == 5
    else if r[0] in {0x02, 0x0A} then n == 3
    else if r[0] in {0x08, 0x10} then n == 7 || n == 21
    else if r[0] == 0x06 then n >= 7
    else if r[0] == 0x12 then n >= 3
    else if r[0] == 0x16 then n >= 5
    else if r[0] == 0x18 then n >= 2 && r[1] <= 1
    else true
  }

  predicate IsServed(op: Byte) {
    op in {0x02, 0x04, 0x06, 0x08, 0x0A, 0x0C, 0x10, 0x12, 0x16, 0x18, 0x52}
  }

  /** A malformed request is an invalid PDU, an opcode that is not served is not supported; either way
      nothing is delivered, queued or resized. */
  lemma UnusablePduIsRefused(db: DB, rx: U16, mtu: nat, q: seq<PreparedWrite>, r: seq<Byte>, env: Env)
    requires mtu >= 23 && r != [] && (!WellFormed(r) || !IsServed(r[0]))
    ensures ResponseTo(db, rx, mtu, q, r, env) == [0x01, r[0], 0x00, 0x00, if IsServed(r[0]) then 0x04 else 0x06]
    ensures DeliveriesOf(db, q, r, env) == [] && QueueAfter(db, q, r) == q && MTUAfter(mtu, r) == mtu
  {
  }

  /** A request for a range that is empty or starts at handle 0 is refused, naming its start. */
  lemma EmptyRangeIsRefused(db: DB, rx: U16, mtu: nat, q: seq<PreparedWrite>, r: seq<Byte>, env: Env)
    requires mtu >= 23 && r != [] && r[0] in {0x04, 0x06, 0x08, 0x10} && WellFormed(r)
    requires var start, end := r[1] as int + 0x100 * r[2] as int, r[3] as int + 0x100 * r[4] as int;
             start == 0 || start > end
    ensures ResponseTo(db, rx, mtu, q, r, env) == [0x01, r[0], r[1], r[2], 0x01]
  {
    WireOrder(r[1], r[2]);
  }

  /** An Exchange MTU Request is answered with our receive MTU; from then on we send at most what the
      client asked for, and never more than 515 bytes. */
  lemma MtuRequestIsAnswered(db: DB, rx: U16, mtu: nat, q: seq<PreparedWrite>, lo: Byte, hi: Byte, env: Env)
    requires mtu >= 23
    ensures var r, asked := [0x02, lo, hi], lo + 0x100 * hi;
            && ResponseTo(db, rx, mtu, q, r, env)
            == (if asked < 23 then [0x01, 0x02, 0x00, 0x00, 0x04] else [0x03, rx % 0x100, rx / 0x100])
            && MTUAfter(mtu, r) == (if asked < 23 then mtu else if asked > 515 then 515 else asked)
  {
  }

  /** The fields of the entries a list is made of [Vol 3, Part F, 3.4.3.2, 3.4.3.4, 3.4.4.2, 3.4.4.10]. */
  lemma EntriesOnTheWire(a: Attr, v: seq<Byte>, cap: nat, env: Env)
    ensures InfoEntries([a]) == [Ok([a.h % 0x100, a.h / 0x100] + a.typ)]
    ensures HandlePair(a) == if a.v.Some? then [a.h % 0x100, a.h / 0x100, a.endh % 0x100, a.endh / 0x100]
                             else [a.h % 0x100, a.h / 0x100, a.h % 0x100, a.h / 0x100]
    ensures a.v == Some(v) ==> TypeEntry(a, cap, env) == Ok([a.h % 0x100, a.h / 0x100] + v)
    ensures GroupEntry(a, v) == [a.h % 0x100, a.h / 0x100, a.endh % 0x100, a.endh / 0x100] + v
  {
    assert [a][1..] == [];
  }

  /** The requests over a range of handles look at the attributes in it, by type; the list they find
      follows its entry size, or the UUID format, and an empty one is reported as such. */
  lemma RangeIsAnswered(db: DB, rx: U16, mtu: nat, q: seq<PreparedWrite>, op: Byte, start: U16, end: U16,
                        typ: seq<Byte>, env: Env)
    requires mtu >= 23 && 0 < start <= end && op in {0x04, 0x08, 0x10}
    requires if op == 0x04 then typ == [] else |typ| == 2 || |typ| == 16
    ensures var r := [op, start % 0x100, start / 0x100, end % 0x100, end / 0x100] + typ;
            var sub := db.Subrange(start, end);
            var f := if op == 0x04 && sub == [] then Filled(0, [])
                     else if op == 0x04 then Filled(if |sub[0].typ| == 16 then 2 else 1,
                                                    PackRest(InfoEntries(sub), InfoSize(sub[0]), mtu - 2))
                     else if op == 0x08 then Fill(TypeEntries(sub, typ, mtu - 2, env), 0, mtu - 2)
                     else GroupWalk(sub, typ, 0, 0, mtu - 2, env);
            && ResponseTo(db, rx, mtu, q, r, env)
            == (if f.Refused? then [0x01, op, start % 0x100, start / 0x100, f.code]
                else if f.size == 0 then [0x01, op, start % 0x100, start / 0x100, 0x0A]
                else [op + 1, f.size % 0x100] + f.list)
            && DeliveriesOf(db, q, r, env) == [] && QueueAfter(db, q, r) == q
  {
    hide DB.Subrange, PackRest, InfoEntries, Fill, TypeEntries, GroupWalk;
    var r := [op, start % 0x100, start / 0x100, end % 0x100, end / 0x100] + typ;
    HandleField(r, 1, start);
    HandleField(r, 3, end);
    assert r[5..] == typ;
  }

  /** Find By Type Value: the type is a 16-bit UUID, the value everything behind it. */
  lemma ValueSearchIsAnswered(db: DB, rx: U16, mtu: nat, q: seq<PreparedWrite>, start: U16, end: U16,
                              lo: Byte, hi: Byte, val: seq<Byte>, env: Env)
    requires mtu >= 23 && 0 < start <= end
    ensures var r := [0x06, start % 0x100, start / 0x100, end % 0x100, end / 0x100, lo, hi] + val;
            var found := MatchWalk(db.Subrange(start, end), [lo, hi], val, 0, mtu, env);
            && ResponseTo(db, rx, mtu, q, r, env)
            == (if found == None then [0x01, 0x06, start % 0x100, start / 0x100, 0x01]
                else if found.value == [] then [0x01, 0x06, start % 0x100, start / 0x100, 0x0A]
                else [0x07] + found.value)
            && DeliveriesOf(db, q, r, env) == [] && QueueAfter(db, q, r) == q
  {
    hide DB.Subrange, MatchWalk;
    var r := [0x06, start % 0x100, start / 0x100, end % 0x100, end / 0x100, lo, hi] + val;
    HandleField(r, 1, start);
    HandleField(r, 3, end);
    WireOrder(lo, hi);
    assert U16At(r, 5) == lo + 0x100 * hi;
    assert r[7..] == val;
  }

  /** What a read handler produces is listed as well: with up to as many bytes as the list holds, or as
      are left in it behind the two handles of a group; for a value search, with a value that can still be
      answered, or else the search fails. */
  lemma DynamicEntries(a: Attr, typ: UUID, val: seq<Byte>, d: nat, n: nat, mtu: nat, env: Env)
    requires a.v == None && a.rh && a.typ == typ && 23 <= mtu && n + 6 <= mtu
    ensures var o := env.onRead(a.h);
            && TypeEntry(a, mtu - 2, env)
            == (if o.status != 0x00 then Err(o.status)
                else Ok([a.h % 0x100, a.h / 0x100] + Written([], o.writes, mtu - 2)))
            && GroupWalk([a], typ, d, n, mtu - 2, env)
            == (if o.status != 0x00 then Refused(o.status)
                else
                  var e := GroupEntry(a, Written([], o.writes, mtu - 6 - n));
                  var size := if d == 0 then Min(|e|, Min(255, mtu - 2)) else d;
                  if (d == 0 || |e| == d) && n + size <= mtu - 2 then Filled(size, e[..size]) else Filled(size, []))
            && MatchWalk([a], typ, val, 0, mtu, env)
            == (if o.status != 0x00 || |Written([], o.writes, mtu - 6)| > mtu - 7 then None
                else if Written([], o.writes, mtu - 6) == val then Some(HandlePair(a)) else Some([]))
  {
    hide Written, GroupEntry, HandlePair;
    assert [a][1..] == [];
    if env.onRead(a.h).status == 0x00 {
      var e := GroupEntry(a, Written([], env.onRead(a.h).writes, mtu - 6 - n));
      GroupDone(typ, d, n, mtu - 2, env, []);
      assert |e| >= 4 by { EntryHasHandles(a, Written([], env.onRead(a.h).writes, mtu - 6 - n)); }
    }
  }

  lemma EntryHasHandles(a: Attr, v: seq<Byte>)
    ensures |GroupEntry(a, v)| == 4 + |v|
  {
  }

  // ---- A declared profile, served ----

  /** A characteristic's value handle does what was declared for it: a read returns the declared value
      (cut to the MTU), or what the declared read handler produces, or is refused; a write reaches the
      declared write handler or is refused. */
  lemma ValueIsServed(db: DB, ss: seq<SvcDecl>, base: U16, k: nat, j: nat, rx: U16, mtu: nat, q: seq<PreparedWrite>,
                      data: seq<Byte>, env: Env)
    requires db == DB(Table(ss, base), base)
    requires k < |ss| && j < |ss[k].chars| && Fits(ss, base) && mtu >= 23
    ensures var c, h := ss[k].chars[j], CharHandle(ss, base, k, j) + 1;
            && h <= 0xFFFF
            && ResponseTo(db, rx, mtu, q, [0x0A, h % 0x100, h / 0x100], env)
            == ReadAnswer(h, c.value, c.rh, mtu, env.onRead(h))
            && var w := [0x12, h % 0x100, h / 0x100] + data;
               && ResponseTo(db, rx, mtu, q, w, env) == WriteAnswer(h, c.wh, env.onWrite(0))
               && (if c.wh then CallsHandler(DeliveriesOf(db, q, w, env), h, data)
                   else DeliveriesOf(db, q, w, env) == [])
  {
    hide Table, ReadAnswer, WriteAnswer, ResponseTo, DeliveriesOf, CharHandle, DB.At, CallsHandler;
    ValueAttribute(ss, base, k, j);
    var h := CharHandle(ss, base, k, j) + 1;
    ReadOfAttribute(db, rx, mtu, q, h, db.At(h).value, env);
    WriteOfAttribute(db, rx, mtu, q, h, db.At(h).value, data, env);
  }

  /** So does each declared descriptor's; the CCCD behind them is read and written through its handlers. */
  lemma DescriptorIsServed(db: DB, ss: seq<SvcDecl>, base: U16, k: nat, j: nat, i: nat, rx: U16, mtu: nat,
                           q: seq<PreparedWrite>, data: seq<Byte>, env: Env)
    requires db == DB(Table(ss, base), base)
    requires k < |ss| && j < |ss[k].chars| && Fits(ss, base) && mtu >= 23
    requires var c := ss[k].chars[j]; i < |c.descs| || (i == |c.descs| && c.notifies)
    ensures var c, h := ss[k].chars[j], CharHandle(ss, base, k, j) + 2 + i;
            var d := if i < |c.descs| then c.descs[i] else DescDecl([0x02, 0x29], None, true, true);
            && h <= 0xFFFF
            && ResponseTo(db, rx, mtu, q, [0x0A, h % 0x100, h / 0x100], env)
            == ReadAnswer(h, d.value, d.rh, mtu, env.onRead(h))
            && var w := [0x12, h % 0x100, h / 0x100] + data;
               && ResponseTo(db, rx, mtu, q, w, env) == WriteAnswer(h, d.wh, env.onWrite(0))
               && (if d.wh then CallsHandler(DeliveriesOf(db, q, w, env), h, data)
                   else DeliveriesOf(db, q, w, env) == [])
  {
    hide Table, ReadAnswer, WriteAnswer, ResponseTo, DeliveriesOf, CharHandle, DB.At, CallsHandler;
    DescriptorAttribute(ss, base, k, j, i);
    var h := CharHandle(ss, base, k, j) + 2 + i;
    ReadOfAttribute(db, rx, mtu, q, h, db.At(h).value, env);
    WriteOfAttribute(db, rx, mtu, q, h, db.At(h).value, data, env);
  }

  /** A declaration can be read but not written. */
  lemma DeclarationIsServed(db: DB, ss: seq<SvcDecl>, base: U16, k: nat, j: nat, rx: U16, mtu: nat,
                            q: seq<PreparedWrite>, data: seq<Byte>, env: Env)
    requires db == DB(Table(ss, base), base)
    requires k < |ss| && j < |ss[k].chars| && Fits(ss, base) && mtu >= 23 && |ss[k].chars[j].uuid| <= 16
    ensures var c, h := ss[k].chars[j], CharHandle(ss, base, k, j);
            && h + 1 <= 0xFFFF
            && ResponseTo(db, rx, mtu, q, [0x0A, h % 0x100, h / 0x100], env)
            == [0x0B, c.property % 0x100, (h + 1) % 0x100, (h + 1) / 0x100] + c.uuid
            && var w := [0x12, h % 0x100, h / 0x100] + data;
               && ResponseTo(db, rx, mtu, q, w, env) == [0x01, 0x12, h % 0x100, h / 0x100, 0x03]
               && DeliveriesOf(db, q, w, env) == []
  {
    hide Table, ResponseTo, DeliveriesOf, CharHandle, DB.At;
    DeclarationAttribute(ss, base, k, j);
    var h := CharHandle(ss, base, k, j);
    ReadOfAttribute(db, rx, mtu, q, h, db.At(h).value, env);
    WriteOfAttribute(db, rx, mtu, q, h, db.At(h).value, data, env);
  }

  /** The table has an attribute of that type at h, with that static value and those handlers. */
  ghost predicate Stands(db: DB, h: int, typ: UUID, v: Option<seq<Byte>>, rh: bool, wh: bool) {
    && 0 <= h <= 0xFFFF && db.At(h).Some?
    && var a := db.At(h).value; a.typ == typ && a.v == v && (a.rh <==> rh) && (a.wh <==> wh)
  }

  /** The objects NewDB was given and the table it made agree: each characteristic's handles are where
      its attributes stand, and those have the object's own UUID, static value and handlers; its
      descriptors, with the CCCD it was given, follow. */
  lemma PlacedObjectIsInTable(db: DB, ss: seq<Service>, ds: seq<SvcDecl>, base: U16, k: nat, j: nat)
    requires db == DB(Table(ds, base), base)
    requires |ss| == |ds| && Fits(ds, base) && k < |ds| && j < |ds[k].chars|
    requires ServicePlaced(ss[k], ds[k], Skip(base, SvcOffset(ds, k)))
    ensures var c := ss[k].characteristics[j];
            && c.valueHandle == c.handle + 1
            && Stands(db, c.handle, [0x03, 0x28],
                      Some([c.property % 0x100, c.valueHandle % 0x100, c.valueHandle / 0x100] + c.uuid), false, false)
            && Stands(db, c.valueHandle, c.uuid, c.value, c.hasReadHandler, c.hasWriteHandler)
  {
    hide Table, CharHandle, DB.At, Fits, SvcOffset, CharOffset;
    PlacedAt(ds, base, k, j);
    DeclarationAttribute(ds, base, k, j);
    ValueAttribute(ds, base, k, j);
  }

  lemma PlacedAt(ds: seq<SvcDecl>, base: U16, k: nat, j: nat)
    requires Fits(ds, base) && k < |ds| && j < |ds[k].chars|
    ensures CharHandle(ds, base, k, j) < 0xFFFF
    ensures Skip(Inc(Skip(base, SvcOffset(ds, k))), CharOffset(ds[k].chars, j)) == CharHandle(ds, base, k, j)
  {
    hide Table, TableSize, SvcOffset, CharOffset, DB.At;
    CharAttributeAt(ds, base, k, j, 1);
    SkipIsPlus(base, SvcOffset(ds, k));
    SkipIsPlus(base + SvcOffset(ds, k) + 1, CharOffset(ds[k].chars, j));
  }

  lemma PlacedDescriptorIsInTable(db: DB, ss: seq<Service>, ds: seq<SvcDecl>, base: U16, k: nat, j: nat, i: nat)
    requires db == DB(Table(ds, base), base)
    requires |ss| == |ds| && Fits(ds, base) && k < |ds| && j < |ds[k].chars|
    requires ServicePlaced(ss[k], ds[k], Skip(base, SvcOffset(ds, k)))
    requires i < |ss[k].characteristics[j].descriptors|
    ensures var c, d := ss[k].characteristics[j], ss[k].characteristics[j].descriptors[i];
            Stands(db, c.valueHandle + 1 + i, d.uuid, d.value, d.hasReadHandler, d.hasWriteHandler)
  {
    hide Table, CharHandle, DB.At, Fits, SvcOffset, CharOffset;
    PlacedAt(ds, base, k, j);
    DescriptorAttribute(ds, base, k, j, i);
    assert DescDeclsOf(ss[k].characteristics[j].descriptors)[i] == Descs(ds[k].chars[j])[i];
  }
}
