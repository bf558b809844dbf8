/** What the discovery walks find in NewDB's table, one reply at a time. */
module Discovery {
  import opened Bytes
  import opened Profile
  import opened AttDb
  import opened AttLayout
  import opened AttGrouped

  // ---- The databases discovery is specified for ----

  /** UUIDs have a wire form of 2 or 16 bytes. */
  ghost predicate IsUUID(u: UUID) {
    |u| == 2 || |u| == 16
  }

  /** A value or descriptor is not typed like a declaration. */
  ghost predicate IsUserUUID(u: UUID) {
    IsUUID(u) && u != PRIMARY_SERVICE && u != CHARACTERISTIC
  }

  ghost predicate DiscoverableDescs(ds: seq<DescDecl>) {
    forall i :: 0 <= i < |ds| ==> IsUserUUID(ds[i].uuid)
  }

  ghost predicate DiscoverableChars(cs: seq<CharDecl>) {
    forall j :: 0 <= j < |cs| ==> IsUserUUID(cs[j].uuid) && DiscoverableDescs(Descs(cs[j]))
  }

  ghost predicate DiscoverableSvcs(ss: seq<SvcDecl>) {
    forall k :: 0 <= k < |ss| ==> IsUUID(ss[k].uuid) && DiscoverableChars(ss[k].chars)
  }

  /** Handles start at 1 or above and stay below 0xFFFF, which a group end uses as "the rest". */
  ghost predicate Discoverable(ss: seq<SvcDecl>, base: int) {
    DiscoverableSvcs(ss) && 1 <= base && base + TableSize(ss) <= 0xFFFF
  }

  // ---- What a complete discovery yields ----

  datatype FoundDesc = FoundDesc(uuid: UUID, handle: U16)

  datatype FoundChar = FoundChar(uuid: UUID, property: int, handle: U16, valueHandle: U16, endHandle: U16)

  datatype FoundSvc = FoundSvc(uuid: UUID, handle: U16, endHandle: U16)

  function ExpectedDescs(ds: seq<DescDecl>, h: U16): (r: seq<FoundDesc>)
    ensures |r| == |ds|
  {
    if ds == [] then [] else [FoundDesc(ds[0].uuid, h)] + ExpectedDescs(ds[1..], Inc(h))
  }

  /** The last characteristic ends where its service ends; any other, right before the next declaration. */
  function CharEnd(cs: seq<CharDecl>, h: U16, svcEnd: U16): U16
    requires cs != []
  {
    if |cs| == 1 then svcEnd else Dec(Skip(h, CharSize(cs[0])))
  }

  function ExpectedChars(cs: seq<CharDecl>, h: U16, svcEnd: U16): (r: seq<FoundChar>)
    ensures |r| == |cs|
  {
    if cs == [] then []
    else [FoundChar(cs[0].uuid, LowByte(cs[0].property), h, Inc(h), CharEnd(cs, h, svcEnd))]
         + ExpectedChars(cs[1..], Skip(h, CharSize(cs[0])), svcEnd)
  }

  function ExpectedSvcs(ss: seq<SvcDecl>, h: U16): (r: seq<FoundSvc>)
    ensures |r| == |ss|
  {
    if ss == [] then []
    else [FoundSvc(ss[0].uuid, h, SvcEnd(ss[0], h, |ss| == 1))] + ExpectedSvcs(ss[1..], Skip(h, SvcSize(ss[0])))
  }

  /** What a walk makes of declarations: each characteristic ends right before the next, the last at `end`. */
  ghost function FoundChars(heads: seq<Attr>, end: U16): (r: seq<FoundChar>)
    requires Declarations(heads)
    ensures |r| == |heads|
  {
    if heads == [] then []
    else [CharOf(heads[0], EndBefore(heads[1..], end))] + FoundChars(heads[1..], end)
  }

  ghost predicate Declarations(heads: seq<Attr>) {
    forall i :: 0 <= i < |heads| ==> Declares(heads[i])
  }

  /** A characteristic declaration [Vol 3, Part G, 3.3.1]: properties, the handle behind its own, UUID. */
  ghost predicate Declares(a: Attr) {
    a.v.Some? && (|a.v.value| == 5 || |a.v.value| == 19) && a.h < 0xFFFE && U16At(a.v.value, 1) == a.h + 1
  }

  ghost function CharOf(a: Attr, end: U16): FoundChar
    requires Declares(a)
  {
    FoundChar(a.v.value[3..], a.v.value[0], a.h, a.h + 1, end)
  }

  /** Where a characteristic ends that is followed by those declared in `rest`. */
  function EndBefore(rest: seq<Attr>, end: U16): U16 {
    if rest == [] then end else Dec(rest[0].h)
  }

  function FoundDescs(attrs: seq<Attr>): (r: seq<FoundDesc>)
    ensures |r| == |attrs|
  {
    seq(|attrs|, i requires 0 <= i < |attrs| => FoundDesc(attrs[i].typ, attrs[i].h))
  }

  // ---- Databases that can be walked over any range ----

  /** Every type is a UUID, and what is typed like a characteristic declaration is one, with something
      else, its value, right behind it. */
  ghost predicate Regular(attrs: seq<Attr>) {
    forall i :: 0 <= i < |attrs| ==> RegularAt(attrs, i)
  }

  ghost predicate RegularAt(attrs: seq<Attr>, i: nat)
    requires i < |attrs|
  {
    && IsUUID(attrs[i].typ)
    && (attrs[i].typ == CHARACTERISTIC ==>
          Declares(attrs[i]) && i + 1 < |attrs| && attrs[i + 1].typ != CHARACTERISTIC)
  }

  ghost predicate Walkable(db: DB) {
    db.Consecutive() && 1 <= db.base && db.base + |db.attrs| <= 0xFFFF && Regular(db.attrs)
  }

  lemma RegularAppend(xs: seq<Attr>, ys: seq<Attr>)
    requires Regular(xs) && Regular(ys)
    ensures Regular(xs + ys)
  {
    forall i | 0 <= i < |xs + ys| ensures RegularAt(xs + ys, i) {
      assert if i < |xs| then RegularAt(xs, i) else RegularAt(ys, i - |xs|);
    }
  }

  lemma DescsAreRegular(ds: seq<DescDecl>, h: U16)
    requires DiscoverableDescs(ds)
    ensures Regular(DescAttrs(ds, h))
  {
    forall i | 0 <= i < |ds| ensures DescAttrs(ds, h)[i].typ == ds[i].uuid {
      DescTypes(ds, h, i);
    }
  }

  lemma DeclarationDeclares(c: CharDecl, h: U16)
    requires IsUUID(c.uuid) && h < 0xFFFE
    ensures var a := CharDeclaration(c, h);
            Declares(a) && forall end :: CharOf(a, end) == FoundChar(c.uuid, LowByte(c.property), h, h + 1, end)
  {
    U16RoundTrip(h + 1);
  }

  lemma CharIsRegular(c: CharDecl, h: U16)
    requires IsUserUUID(c.uuid) && DiscoverableDescs(Descs(c)) && h < 0xFFFE
    ensures Regular(CharAttrs(c, h))
  {
    hide DescAttrs, Declares;
    DeclarationDeclares(c, h);
    DescsAreRegular(Descs(c), Inc(Inc(h)));
    RegularAppend([CharDeclaration(c, h), CharValue(c, h)], DescAttrs(Descs(c), Inc(Inc(h))));
  }

  lemma {:induction false} CharsAreRegular(cs: seq<CharDecl>, h: U16)
    requires DiscoverableChars(cs) && h + CharsSize(cs) <= 0xFFFF
    ensures Regular(CharsAttrs(cs, h))
  {
    hide CharAttrs, CharSize, Skip, Regular;
    if cs == [] {
      NoAttrsAreRegular();
    } else {
      CharSizeIsPlus(cs[0], h);
      CharIsRegular(cs[0], h);
      CharsAreRegular(cs[1..], h + CharSize(cs[0]));
      RegularAppend(CharAttrs(cs[0], h), CharsAttrs(cs[1..], h + CharSize(cs[0])));
    }
  }

  lemma NoAttrsAreRegular()
    ensures Regular([])
  {
  }

  lemma SvcIsRegular(s: SvcDecl, h: U16, last: bool)
    requires DiscoverableChars(s.chars) && h + SvcSize(s) <= 0xFFFF
    ensures Regular(SvcAttrs(s, h, last))
  {
    hide CharsAttrs;
    CharsAreRegular(s.chars, h + 1);
    RegularAppend([SvcDeclaration(s, h, last)], CharsAttrs(s.chars, h + 1));
  }

  lemma {:induction false} TableIsRegular(ss: seq<SvcDecl>, h: U16)
    requires DiscoverableSvcs(ss) && h + TableSize(ss) <= 0xFFFF
    ensures Regular(Table(ss, h))
  {
    hide SvcAttrs, SvcSize, Skip, Regular;
    if ss == [] {
      NoAttrsAreRegular();
    } else {
      SkipIsPlus(h, SvcSize(ss[0]));
      SvcIsRegular(ss[0], h, |ss| == 1);
      TableIsRegular(ss[1..], h + SvcSize(ss[0]));
      RegularAppend(SvcAttrs(ss[0], h, |ss| == 1), Table(ss[1..], h + SvcSize(ss[0])));
    }
  }

  lemma TableIsWalkable(ss: seq<SvcDecl>, base: U16)
    requires Discoverable(ss, base)
    ensures Walkable(DB(Table(ss, base), base))
  {
    hide Regular;
    TableIsConsecutive(ss, base);
    TableIsRegular(ss, base);
  }

  /** The declarations in any range declare characteristics. */
  lemma DeclsDeclare(db: DB, start: U16, end: U16)
    requires Walkable(db)
    ensures Declarations(DeclsFrom(db, start, end)) && Static(DeclsFrom(db, start, end))
  {
    hide DB.Subrange, DB.Consecutive, Matching;
    if start <= end {
      var sub := db.Subrange(start, end);
      var lo := RangeIsPart(db, start, end);
      MatchesAreOf(sub, CHARACTERISTIC);
      forall a | a in DeclsFrom(db, start, end) ensures Declares(a) {
        var i :| 0 <= i < |sub| && sub[i] == a;
        assert RegularAt(db.attrs, lo + i);
      }
    }
  }

  lemma {:induction false} MatchesAreOf(xs: seq<Attr>, typ: UUID)
    ensures forall a :: a in Matching(xs, typ) ==> a in xs && a.typ == typ
  {
    if xs != [] {
      MatchesAreOf(xs[1..], typ);
    }
  }

  /** In the range of a service lie the declarations of its characteristics ... */
  lemma DeclsOfService(db: DB, s: SvcDecl, h: U16, end: U16, last: bool)
    requires h <= end && DiscoverableChars(s.chars) && db.Subrange(h, end) == SvcAttrs(s, h, last)
    ensures DeclsFrom(db, h, end) == CharHeads(s.chars, Inc(h))
  {
    hide CharsAttrs;
    CharsMatch(s.chars, Inc(h), CHARACTERISTIC);
    OneMore(SvcDeclaration(s, h, last), CharsAttrs(s.chars, Inc(h)));
  }

  /** ... of which a walk makes the characteristics expected. */
  lemma {:induction false} HeadsAreExpected(cs: seq<CharDecl>, h: U16, end: U16)
    requires DiscoverableChars(cs) && h + CharsSize(cs) <= 0xFFFF
    ensures Declarations(CharHeads(cs, h)) && FoundChars(CharHeads(cs, h), end) == ExpectedChars(cs, h, end)
  {
    hide CharSize, Skip, Declares, CharOf, CharDeclaration;
    if cs != [] {
      var next := h + CharSize(cs[0]);
      CharSizeIsPlus(cs[0], h);
      DeclarationDeclares(cs[0], h);
      HeadsAreExpected(cs[1..], next, end);
      var heads, rest := CharHeads(cs, h), CharHeads(cs[1..], next);
      assert heads[1..] == rest && heads[0] == CharDeclaration(cs[0], h);
      assert EndBefore(rest, end) == CharEnd(cs, h, end) by {
        FirstHead(cs[1..], next);
      }
    }
  }

  lemma FirstHead(cs: seq<CharDecl>, h: U16)
    ensures cs != [] ==> CharHeads(cs, h) != [] && CharHeads(cs, h)[0].h == h
  {
  }

  lemma FoundDescsCons(a: Attr, rest: seq<Attr>)
    ensures FoundDescs([a] + rest) == [FoundDesc(a.typ, a.h)] + FoundDescs(rest)
  {
  }

  lemma FirstDesc(ds: seq<DescDecl>, h: U16)
    ensures ds == [] ==> ExpectedDescs(ds, h) == [] && FoundDescs(DescAttrs(ds, h)) == []
    ensures ds != [] ==>
              && DescAttrs(ds, h) == [DescAttrs(ds, h)[0]] + DescAttrs(ds[1..], Inc(h))
              && DescAttrs(ds, h)[0].typ == ds[0].uuid && DescAttrs(ds, h)[0].h == h
              && ExpectedDescs(ds, h) == [FoundDesc(ds[0].uuid, h)] + ExpectedDescs(ds[1..], Inc(h))
  {
  }

  lemma {:induction false} DescsAreExpected(ds: seq<DescDecl>, h: U16)
    ensures FoundDescs(DescAttrs(ds, h)) == ExpectedDescs(ds, h)
  {
    hide FoundDescs, DescAttrs, ExpectedDescs;
    FirstDesc(ds, h);
    if ds != [] {
      DescsAreExpected(ds[1..], Inc(h));
      FoundDescsCons(DescAttrs(ds, h)[0], DescAttrs(ds[1..], Inc(h)));
    }
  }

  // ---- The declarations a request matches ----

  function SvcHeads(ss: seq<SvcDecl>, h: U16): (r: seq<Attr>)
    ensures |r| == |ss| && Static(r)
  {
    if ss == [] then [] else [SvcDeclaration(ss[0], h, |ss| == 1)] + SvcHeads(ss[1..], Skip(h, SvcSize(ss[0])))
  }

  function CharHeads(cs: seq<CharDecl>, h: U16): (r: seq<Attr>)
    ensures |r| == |cs| && Static(r)
  {
    if cs == [] then [] else [CharDeclaration(cs[0], h)] + CharHeads(cs[1..], Skip(h, CharSize(cs[0])))
  }

  lemma {:induction false} DescTypes(ds: seq<DescDecl>, h: U16, i: nat)
    requires i < |ds|
    ensures DescAttrs(ds, h)[i].typ == ds[i].uuid
  {
    if i > 0 {
      DescTypes(ds[1..], Inc(h), i - 1);
    }
  }

  lemma DescsMatchNothing(ds: seq<DescDecl>, h: U16, typ: UUID)
    requires DiscoverableDescs(ds) && (typ == PRIMARY_SERVICE || typ == CHARACTERISTIC)
    ensures Matching(DescAttrs(ds, h), typ) == []
  {
    forall i | 0 <= i < |ds| ensures DescAttrs(ds, h)[i].typ != typ {
      DescTypes(ds, h, i);
    }
    MatchingNone(DescAttrs(ds, h), typ);
  }

  lemma MatchingPair(a: Attr, b: Attr, rest: seq<Attr>, typ: UUID)
    requires b.typ != typ
    ensures Matching([a, b] + rest, typ) == (if a.typ == typ then [a] else []) + Matching(rest, typ)
  {
    assert ([a, b] + rest)[1..] == [b] + rest;
    assert ([b] + rest)[1..] == rest;
  }

  lemma CharMatches(c: CharDecl, h: U16, typ: UUID)
    requires IsUserUUID(c.uuid) && DiscoverableDescs(Descs(c))
    requires typ == PRIMARY_SERVICE || typ == CHARACTERISTIC
    ensures Matching(CharAttrs(c, h), typ) == if typ == CHARACTERISTIC then [CharDeclaration(c, h)] else []
  {
    hide Matching, DescAttrs, Skip;
    DescsMatchNothing(Descs(c), Inc(Inc(h)), typ);
    MatchingPair(CharDeclaration(c, h), CharValue(c, h), DescAttrs(Descs(c), Inc(Inc(h))), typ);
  }

  lemma {:induction false} CharsMatch(cs: seq<CharDecl>, h: U16, typ: UUID)
    requires DiscoverableChars(cs) && (typ == PRIMARY_SERVICE || typ == CHARACTERISTIC)
    ensures Matching(CharsAttrs(cs, h), typ) == if typ == CHARACTERISTIC then CharHeads(cs, h) else []
  {
    hide CharAttrs, CharDeclaration, Skip, CharSize;
    if cs != [] {
      var next := Skip(h, CharSize(cs[0]));
      CharMatches(cs[0], h, typ);
      CharsMatch(cs[1..], next, typ);
      MatchingAppend(CharAttrs(cs[0], h), CharsAttrs(cs[1..], next), typ);
    }
  }

  lemma {:induction false} ServicesMatch(ss: seq<SvcDecl>, h: U16)
    requires DiscoverableSvcs(ss)
    ensures Matching(Table(ss, h), PRIMARY_SERVICE) == SvcHeads(ss, h)
  {
    hide CharsAttrs, Skip, SvcSize;
    if ss != [] {
      var a, rest := SvcDeclaration(ss[0], h, |ss| == 1), CharsAttrs(ss[0].chars, Inc(h));
      var next := Skip(h, SvcSize(ss[0]));
      CharsMatch(ss[0].chars, Inc(h), PRIMARY_SERVICE);
      ServicesMatch(ss[1..], next);
      assert ([a] + rest)[1..] == rest;
      MatchingAppend([a] + rest, Table(ss[1..], next), PRIMARY_SERVICE);
    }
  }

  // ---- Walking a reply ----

  /** m entries of size d, the first of `ws`, are still to be read from b. */
  ghost predicate Pending(b: seq<Byte>, ws: seq<seq<Byte>>, m: nat, d: nat) {
    && m <= |ws|
    && (forall i :: 0 <= i < m ==> |ws[i]| == d)
    && b == Flat(ws[..m])
  }

  lemma PendingStep(b: seq<Byte>, ws: seq<seq<Byte>>, m: nat, d: nat)
    requires Pending(b, ws, m, d) && m > 0
    ensures |b| >= d && b[..d] == ws[0] && Pending(b[d..], ws[1..], m - 1, d)
  {
    assert ws[..m][1..] == ws[1..][..m - 1];
    assert b == ws[0] + Flat(ws[1..][..m - 1]);
  }

  lemma PendingDone(b: seq<Byte>, ws: seq<seq<Byte>>, m: nat, d: nat)
    requires Pending(b, ws, m, d) && d > 0
    ensures m <= |ws| && (b == [] <==> m == 0)
  {
    if m > 0 {
      PendingStep(b, ws, m, d);
    }
  }

  lemma GroupWireFields(a: Attr)
    requires a.v.Some?
    ensures U16At(GroupWire(a), 0) == a.h && U16At(GroupWire(a), 2) == a.endh && GroupWire(a)[4..] == a.v.value
  {
    U16RoundTrip(a.h);
    U16RoundTrip(a.endh);
  }

  lemma U16AtPrefix(b: seq<Byte>, d: nat, i: nat)
    requires i + 2 <= d <= |b|
    ensures U16At(b, i) == U16At(b[..d], i)
  {
  }

  /** The next group entry of a reply. */
  lemma TakeGroup(heads: seq<Attr>, b: seq<Byte>, m: nat, d: nat)
    requires Static(heads) && heads != [] && m > 0 && Pending(b, GroupWires(heads), m, d)
    ensures d == 4 + |heads[0].v.value| <= |b|
    ensures U16At(b, 0) == heads[0].h && U16At(b, 2) == heads[0].endh && b[4..d] == heads[0].v.value
    ensures Pending(b[d..], GroupWires(heads[1..]), m - 1, d)
  {
    hide Pending, Flat, U16At;
    var ws := GroupWires(heads);
    PendingStep(b, ws, m, d);
    GroupWireFields(heads[0]);
    U16AtPrefix(b, d, 0);
    U16AtPrefix(b, d, 2);
    assert ws[1..] == GroupWires(heads[1..]);
    assert b[4..d] == b[..d][4..];
  }

  /** The next service entry of a reply. */
  lemma TakeService(ss: seq<SvcDecl>, h: U16, b: seq<Byte>, m: nat, d: nat)
    requires ss != [] && m > 0 && Pending(b, GroupWires(SvcHeads(ss, h)), m, d)
    ensures d == 4 + |ss[0].uuid| <= |b|
    ensures U16At(b, 0) == h && U16At(b, 2) == SvcEnd(ss[0], h, |ss| == 1) && b[4..d] == ss[0].uuid
    ensures Pending(b[d..], GroupWires(SvcHeads(ss[1..], Skip(h, SvcSize(ss[0])))), m - 1, d)
  {
    hide Pending, GroupWires, Skip, SvcSize, SvcEnd, U16At;
    var heads := SvcHeads(ss, h);
    TakeGroup(heads, b, m, d);
    assert heads[1..] == SvcHeads(ss[1..], Skip(h, SvcSize(ss[0])));
  }

  lemma TypeWireFields(a: Attr)
    requires Declares(a)
    ensures |TypeWire(a)| == 2 + |a.v.value| && U16At(TypeWire(a), 0) == a.h && TypeWire(a)[2] == a.v.value[0]
    ensures U16At(TypeWire(a), 3) == a.h + 1 && TypeWire(a)[5..] == a.v.value[3..]
  {
    U16RoundTrip(a.h);
  }

  /** The next characteristic entry of a reply. */
  lemma TakeCharacteristic(heads: seq<Attr>, b: seq<Byte>, m: nat, d: nat)
    requires Static(heads) && heads != [] && Declares(heads[0]) && m > 0 && Pending(b, TypeWires(heads), m, d)
    ensures d == 2 + |heads[0].v.value| <= |b|
    ensures U16At(b, 0) == heads[0].h && b[2] == heads[0].v.value[0] && U16At(b, 3) == heads[0].h + 1
    ensures b[5..d] == heads[0].v.value[3..]
    ensures Pending(b[d..], TypeWires(heads[1..]), m - 1, d)
  {
    hide Pending, Flat;
    var ws := TypeWires(heads);
    PendingStep(b, ws, m, d);
    TypeWireFields(heads[0]);
    U16AtPrefix(b, d, 0);
    U16AtPrefix(b, d, 3);
    assert ws[1..] == TypeWires(heads[1..]);
    assert b[5..d] == b[..d][5..] && b[2] == b[..d][2];
  }

  /** The next attribute entry of a Find Information reply. */
  lemma TakeAttribute(attrs: seq<Attr>, b: seq<Byte>, m: nat, d: nat)
    requires attrs != [] && m > 0 && Pending(b, InfoWires(attrs), m, d)
    ensures d == 2 + |attrs[0].typ| <= |b|
    ensures U16At(b, 0) == attrs[0].h && b[2..d] == attrs[0].typ
    ensures Pending(b[d..], InfoWires(attrs[1..]), m - 1, d)
  {
    hide Pending, Flat;
    var ws := InfoWires(attrs);
    PendingStep(b, ws, m, d);
    U16RoundTrip(attrs[0].h);
    U16AtPrefix(b, d, 0);
    assert ws[0] == PutU16(attrs[0].h) + attrs[0].typ;
    assert ws[1..] == InfoWires(attrs[1..]);
    assert b[2..d] == b[..d][2..];
  }

  // ---- Moving the start of the range ----

  /** Starting n attributes later, within the range, drops the first n. */
  lemma SubrangeDrop(db: DB, start: U16, end: U16, n: nat)
    requires db.Consecutive() && start <= end
    requires var sub := db.Subrange(start, end); 0 < n <= |sub| && sub[0].h + n <= end
    ensures var sub := db.Subrange(start, end);
            db.Subrange(sub[0].h + n, end) == sub[n..]
  {
  }

  /** The services still to be found are those from `ss` on, the first at h. */
  ghost predicate SvcsAhead(db: DB, start: U16, ss: seq<SvcDecl>, h: U16) {
    && 0 < start && DiscoverableSvcs(ss) && h + TableSize(ss) <= 0xFFFF
    && db.Subrange(start, 0xFFFF) == Table(ss, h)
  }

  lemma FirstService(db: DB, ss: seq<SvcDecl>, base: U16)
    requires db == DB(Table(ss, base), base) && Discoverable(ss, base)
    ensures db.Consecutive() && SvcsAhead(db, 1, ss, base)
  {
    TableIsConsecutive(ss, base);
  }

  /** A service that is not the last ends below 0xFFFF, right before the next one. */
  lemma NextService(db: DB, start: U16, ss: seq<SvcDecl>, h: U16)
    requires db.Consecutive() && |ss| > 1 && SvcsAhead(db, start, ss, h)
    ensures SvcEnd(ss[0], h, false) < 0xFFFF
    ensures SvcsAhead(db, Inc(SvcEnd(ss[0], h, false)), ss[1..], Skip(h, SvcSize(ss[0])))
  {
    hide Skip, SvcSize, SvcEnd, Table, DB.Subrange, DB.Consecutive;
    var n := SvcSize(ss[0]);
    FirstSvcAttrs(ss, h);
    SvcEndIsBeforeNext(ss[0], h);
    SkipIsPlus(h, n);
    SubrangeDrop(db, start, 0xFFFF, n);
  }

  lemma FirstSvcAttrs(ss: seq<SvcDecl>, h: U16)
    requires ss != [] && h + SvcSize(ss[0]) <= 0xFFFF
    ensures 0 < SvcSize(ss[0]) && TableSize(ss) == SvcSize(ss[0]) + TableSize(ss[1..])
    ensures |Table(ss, h)| == TableSize(ss) && Table(ss, h)[0].h == h
    ensures Table(ss, h)[SvcSize(ss[0])..] == Table(ss[1..], h + SvcSize(ss[0]))
  {
    hide CharsAttrs, CharsSize, Skip;
    SkipIsPlus(h, SvcSize(ss[0]));
  }

  /** The characteristic declarations and the attributes a walk still has ahead. */
  function DeclsFrom(db: DB, start: U16, end: U16): seq<Attr> {
    if start > end then [] else Matching(db.Subrange(start, end), CHARACTERISTIC)
  }

  function AttrsFrom(db: DB, start: U16, end: U16): seq<Attr> {
    if start > end then [] else db.Subrange(start, end)
  }

  lemma {:induction false} FirstMatch(xs: seq<Attr>, typ: UUID) returns (m: nat)
    requires Matching(xs, typ) != []
    ensures m < |xs| && xs[m].typ == typ && Matching(xs, typ)[0] == xs[m]
    ensures Matching(xs, typ)[1..] == Matching(xs[m + 1..], typ)
  {
    if xs[0].typ == typ {
      m := 0;
    } else {
      m := FirstMatch(xs[1..], typ);
      assert xs[1..][m + 1..] == xs[(m + 1) + 1..];
      m := m + 1;
    }
  }

  /** A range is a stretch of the table. */
  lemma RangeIsPart(db: DB, start: U16, end: U16) returns (lo: nat)
    requires db.Consecutive() && start <= end
    ensures var sub := db.Subrange(start, end);
            && lo + |sub| <= |db.attrs| && sub == db.attrs[lo..lo + |sub|]
            && (forall i :: 0 <= i < |sub| ==> sub[i].h == db.base + lo + i && start <= sub[i].h <= end)
            && (lo + |sub| == |db.attrs| || sub == [] || db.base + lo + |sub| == end + 1)
  {
    var sub := db.Subrange(start, end);
    lo := if sub == [] then 0 else sub[0].h - db.base;
  }

  lemma RangeTail(db: DB, start: U16, end: U16, n: nat)
    requires db.Consecutive() && start <= end && 0 < n <= |db.Subrange(start, end)|
    ensures var sub := db.Subrange(start, end);
            && sub[0].h + n <= 0x1_0000
            && (sub[0].h + n <= end ==> db.Subrange(sub[0].h + n, end) == sub[n..])
            && (sub[0].h + n > end ==> sub[n..] == [])
  {
    if db.Subrange(start, end)[0].h + n <= end {
      SubrangeDrop(db, start, end, n);
    }
  }

  /** After a declaration and its value the other declarations remain. */
  lemma NextCharacteristic(db: DB, start: U16, end: U16)
    requires Walkable(db) && DeclsFrom(db, start, end) != []
    ensures var heads := DeclsFrom(db, start, end);
            && Declares(heads[0]) && start <= heads[0].h && heads[0].h + 2 <= 0xFFFF
            && DeclsFrom(db, heads[0].h + 2, end) == heads[1..]
  {
    hide DB.Subrange, DB.Consecutive, Matching;
    var sub := db.Subrange(start, end);
    var m := FirstMatch(sub, CHARACTERISTIC);
    var lo := RangeIsPart(db, start, end);
    assert sub[m] == db.attrs[lo + m];
    assert RegularAt(db.attrs, lo + m);
    if m + 1 < |sub| {
      assert sub[m + 1] == db.attrs[lo + m + 1];
      OneMore(sub[m + 1], sub[m + 2..]);
      assert sub[m + 1..] == [sub[m + 1]] + sub[m + 2..];
      RangeTail(db, start, end, m + 2);
      NothingMatches();
    } else {
      NothingMatches();
    }
  }

  lemma OneMore(a: Attr, rest: seq<Attr>)
    requires a.typ != CHARACTERISTIC
    ensures Matching([a] + rest, CHARACTERISTIC) == Matching(rest, CHARACTERISTIC)
  {
    assert ([a] + rest)[1..] == rest;
  }

  lemma NothingMatches()
    ensures Matching([], CHARACTERISTIC) == []
  {
  }

  /** After an attribute the later ones remain. */
  lemma NextDescriptor(db: DB, start: U16, end: U16)
    requires Walkable(db) && AttrsFrom(db, start, end) != []
    ensures var attrs := AttrsFrom(db, start, end);
            && IsUUID(attrs[0].typ) && start <= attrs[0].h && attrs[0].h + 1 <= 0xFFFF
            && AttrsFrom(db, attrs[0].h + 1, end) == attrs[1..]
  {
    hide DB.Subrange, DB.Consecutive;
    var sub := db.Subrange(start, end);
    var lo := RangeIsPart(db, start, end);
    assert sub[0] == db.attrs[lo];
    assert RegularAt(db.attrs, lo);
    RangeTail(db, start, end, 1);
  }

  // ---- From what one walk finds to where the next one starts ----

  lemma {:induction false} ExpectedSvcAt(ss: seq<SvcDecl>, base: U16, k: nat)
    requires k < |ss| && base + TableSize(ss) <= 0xFFFF
    ensures var h := base + SvcOffset(ss, k);
            ExpectedSvcs(ss, base)[k] == FoundSvc(ss[k].uuid, h, SvcEnd(ss[k], h, k == |ss| - 1))
  {
    hide SvcSize, SvcEnd, Skip;
    if k > 0 {
      SkipIsPlus(base, SvcSize(ss[0]));
      ExpectedSvcAt(ss[1..], base + SvcSize(ss[0]), k - 1);
    }
  }

  lemma {:induction false} ExpectedCharAt(cs: seq<CharDecl>, h: U16, end: U16, j: nat)
    requires j < |cs| && h + CharsSize(cs) <= 0xFFFF
    ensures var at, next := h + CharOffset(cs, j), h + CharOffset(cs, j + 1);
            && 2 <= next - at && next <= 0xFFFF
            && ExpectedChars(cs, h, end)[j]
            == FoundChar(cs[j].uuid, LowByte(cs[j].property), at, at + 1, if j == |cs| - 1 then end else next - 1)
  {
    hide CharSize, Skip;
    if j > 0 {
      CharSizeIsPlus(cs[0], h);
      ExpectedCharAt(cs[1..], h + CharSize(cs[0]), end, j - 1);
    } else {
      CharSizeIsPlus(cs[0], h);
      assert CharOffset(cs, 1) == CharSize(cs[0]) + CharOffset(cs[1..], 0);
    }
  }

  lemma CharSizeIsPlus(c: CharDecl, h: U16)
    requires h + CharSize(c) <= 0xFFFF
    ensures CharSize(c) >= 2 && Inc(h) == h + 1 && Skip(h, CharSize(c)) == h + CharSize(c)
  {
    SkipIsPlus(h, CharSize(c));
  }

  lemma SubrangeIs(db: DB, start: U16, end: U16, lo: nat, hi: nat)
    requires start <= end && lo <= hi <= |db.attrs| && start == db.base + lo
    requires end + 1 == db.base + hi || (hi == |db.attrs| && end + 1 >= db.base + hi)
    ensures db.Subrange(start, end) == db.attrs[lo..hi]
  {
  }

  /** A range that starts at its first attribute is a stretch of the table. */
  lemma RangeIsStretch(db: DB, start: U16, end: U16)
    requires db.Consecutive() && start <= end && db.Subrange(start, end) != [] && db.Subrange(start, end)[0].h == start
    ensures var sub, lo := db.Subrange(start, end), start - db.base;
            && 0 <= lo <= lo + |sub| <= |db.attrs| && sub == db.attrs[lo..lo + |sub|]
            && (end + 1 == start + |sub| || (lo + |sub| == |db.attrs| && end + 1 >= start + |sub|))
  {
  }

  /** A part of a range is the corresponding part of its attributes; a part that reaches the last
      attribute may extend to the end of the range. */
  lemma RangeSlice(db: DB, start: U16, end: U16, a: nat, b: nat, to: U16)
    requires db.Consecutive() && start <= end && a <= b <= |db.Subrange(start, end)|
    requires db.Subrange(start, end) != [] && db.Subrange(start, end)[0].h == start
    requires (to == start + b - 1 && a < b) || (to == end && b == |db.Subrange(start, end)|)
    requires start + a <= to
    ensures db.Subrange(start + a, to) == db.Subrange(start, end)[a..b]
  {
    hide DB.Subrange, DB.Consecutive;
    var sub, lo := db.Subrange(start, end), start - db.base;
    RangeIsStretch(db, start, end);
    SliceOfSlice(db.attrs, lo, |sub|, a, b - a);
    SubrangeIs(db, start + a, to, lo + a, lo + b);
  }

  /** Behind the value of characteristic j of a service lie its descriptors. */
  lemma DescsSlice(s: SvcDecl, h: U16, last: bool, j: nat)
    requires h + SvcSize(s) <= 0xFFFF && j < |s.chars|
    ensures var a, n := CharOffset(s.chars, j) + 3, |Descs(s.chars[j])|;
            && a + n == CharOffset(s.chars, j + 1) + 1 <= SvcSize(s)
            && SvcAttrs(s, h, last)[a..a + n] == DescAttrs(Descs(s.chars[j]), h + a)
  {
    hide CharsAttrs, CharSize, CharsSize, Skip, DescAttrs, CharOffset;
    var cs := s.chars;
    var off, n := CharOffset(cs, j), |Descs(cs[j])|;
    CharOffsetStep(cs, j);
    CharSizeIs(cs[j]);
    CharSlice(cs, h + 1, j);
    var mine := CharsAttrs(cs, h + 1);
    assert SvcAttrs(s, h, last)[1..] == mine;
    assert SvcAttrs(s, h, last)[off + 3..off + 3 + n] == mine[off..off + 2 + n][2..];
    DescsOfChar(cs[j], h + 1 + off);
  }

  lemma DescsOfChar(c: CharDecl, h: U16)
    requires h + 2 <= 0xFFFF
    ensures CharAttrs(c, h)[2..] == DescAttrs(Descs(c), h + 2)
  {
  }

  /** Behind the value of a found characteristic, up to its end handle, lie its descriptors. */
  lemma DescsOfCharacteristic(db: DB, s: SvcDecl, h: U16, end: U16, last: bool, j: nat)
    requires db.Consecutive() && h <= end && h + SvcSize(s) <= 0xFFFF && j < |s.chars|
    requires db.Subrange(h, end) == SvcAttrs(s, h, last)
    ensures var c := ExpectedChars(s.chars, Inc(h), end)[j];
            && c.valueHandle < 0xFFFF
            && AttrsFrom(db, c.valueHandle + 1, c.endHandle) == DescAttrs(Descs(s.chars[j]), c.valueHandle + 1)
  {
    hide CharsAttrs, CharSize, Skip, DB.Subrange, DB.Consecutive, ExpectedChars, DescAttrs, CharOffset;
    var sub, a, n := db.Subrange(h, end), CharOffset(s.chars, j) + 3, |Descs(s.chars[j])|;
    DescsSlice(s, h, last, j);
    CharOffsetEnd(s.chars);
    ExpectedCharAt(s.chars, h + 1, end, j);
    var at := RangeIsPart(db, h, end);
    assert sub[0].h == h && sub[|sub| - 1].h <= end;
    var c := ExpectedChars(s.chars, Inc(h), end)[j];
    if h + a <= c.endHandle {
      RangeSlice(db, h, end, a, a + n, c.endHandle);
    }
  }

  lemma CharSizeIs(c: CharDecl)
    ensures CharSize(c) == 2 + |Descs(c)|
  {
  }
}
