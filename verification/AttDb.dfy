/** The attribute table (linux/att/db.go). */
module AttDb {
  import opened Bytes
  import opened Wrappers
  import opened Profile

  /** One attribute. `rh` and `wh` say whether a read or a write handler is attached. */
  datatype Attr = Attr(h: U16, endh: U16, typ: UUID, v: Option<seq<Byte>>, rh: bool, wh: bool)

  datatype DB = DB(attrs: seq<Attr>, base: U16) {

    static const TOO_SMALL := -1
    static const TOO_LARGE := -2

    function Idx(h: int): int {
      if h < base then TOO_SMALL
      else if h >= base + |attrs| then TOO_LARGE
      else h - base
    }

    function At(h: U16): Option<Attr> {
      var i := Idx(h);
      if i < 0 then None else Some(attrs[i])
    }

    /** The attributes in [start, end]; the callers have checked start <= end. */
    function Subrange(start: U16, end: U16): seq<Attr>
      requires start <= end
    {
      var startidx := Idx(start);
      if startidx == TOO_LARGE then []
      else
        var endidx := Idx(end + 1);
        if endidx == TOO_SMALL then []
        else attrs[if startidx == TOO_SMALL then 0 else startidx .. if endidx == TOO_LARGE then |attrs| else endidx]
    }

    /** Handles run consecutively from `base` and none wraps past 0xFFFF. */
    ghost predicate Consecutive() {
      && base + |attrs| <= 0x1_0000
      && forall i :: 0 <= i < |attrs| ==> attrs[i].h == base + i
    }
  }

  /** The attributes whose handle lies in [start, end], in table order. */
  function InRange(attrs: seq<Attr>, start: int, end: int): seq<Attr> {
    if attrs == [] then []
    else (if start <= attrs[0].h <= end then [attrs[0]] else []) + InRange(attrs[1..], start, end)
  }

  lemma {:induction false} InRangeAppend(xs: seq<Attr>, ys: seq<Attr>, start: int, end: int)
    ensures InRange(xs + ys, start, end) == InRange(xs, start, end) + InRange(ys, start, end)
  {
    if xs == [] {
      assert xs + ys == ys;
    } else {
      assert (xs + ys)[1..] == xs[1..] + ys;
      InRangeAppend(xs[1..], ys, start, end);
    }
  }

  lemma {:induction false} InRangeAll(xs: seq<Attr>, start: int, end: int)
    requires forall i :: 0 <= i < |xs| ==> start <= xs[i].h <= end
    ensures InRange(xs, start, end) == xs
  {
    if xs != [] {
      InRangeAll(xs[1..], start, end);
    }
  }

  lemma {:induction false} InRangeNone(xs: seq<Attr>, start: int, end: int)
    requires forall i :: 0 <= i < |xs| ==> !(start <= xs[i].h <= end)
    ensures InRange(xs, start, end) == []
  {
    if xs != [] {
      InRangeNone(xs[1..], start, end);
    }
  }

  lemma InRangeMiddle(attrs: seq<Attr>, lo: nat, hi: nat, start: int, end: int)
    requires lo <= hi <= |attrs|
    requires forall i :: 0 <= i < lo ==> attrs[i].h < start
    requires forall i :: lo <= i < hi ==> start <= attrs[i].h <= end
    requires forall i :: hi <= i < |attrs| ==> end < attrs[i].h
    ensures InRange(attrs, start, end) == attrs[lo..hi]
  {
    var xs, ys, zs := attrs[..lo], attrs[lo..hi], attrs[hi..];
    assert attrs == xs + (ys + zs);
    InRangeAppend(xs, ys + zs, start, end);
    InRangeAppend(ys, zs, start, end);
    InRangeNone(xs, start, end);
    InRangeAll(ys, start, end);
    InRangeNone(zs, start, end);
  }

  /** Index arithmetic finds an attribute exactly when the table holds one with that handle. */
  lemma AtFindsByHandle(db: DB, h: U16)
    requires db.Consecutive()
    ensures forall a :: db.At(h) == Some(a) <==> a in db.attrs && a.h == h
    ensures db.At(h) == None <==> forall a :: a in db.attrs ==> a.h != h
  {
    if db.At(h).Some? {
      assert db.attrs[h - db.base] in db.attrs;
    }
  }

  /** Index arithmetic on a range agrees with filtering the table by handle, including ranges
      that touch 0 and 0xFFFF. */
  lemma SubrangeIsFilter(db: DB, start: U16, end: U16)
    requires db.Consecutive() && start <= end
    ensures db.Subrange(start, end) == InRange(db.attrs, start, end)
  {
    var n, b := |db.attrs|, db.base;
    var lo := if start < b then 0 else if start - b < n then start - b else n;
    var hi := if end + 1 < b then 0 else if end + 1 - b < n then end + 1 - b else n;
    InRangeMiddle(db.attrs, lo, hi, start, end);
  }

  // ---- What NewDB is given, as values ----

  datatype DescDecl = DescDecl(uuid: UUID, value: Option<seq<Byte>>, rh: bool, wh: bool)

  datatype CharDecl = CharDecl(uuid: UUID, property: int, value: Option<seq<Byte>>, rh: bool, wh: bool,
                               notifies: bool, descs: seq<DescDecl>)

  datatype SvcDecl = SvcDecl(uuid: UUID, chars: seq<CharDecl>)

  const CCCD: DescDecl := DescDecl(CLIENT_CHARACTERISTIC_CONFIG, None, true, true)

  /** The descriptors a characteristic is laid out with: a CCCD follows the declared ones when the
      characteristic notifies or indicates. */
  function Descs(c: CharDecl): seq<DescDecl> {
    c.descs + if c.notifies then [CCCD] else []
  }

  function CharSize(c: CharDecl): nat {
    2 + |Descs(c)|
  }

  function CharsSize(cs: seq<CharDecl>): (n: nat)
    ensures cs != [] ==> n > 0
  {
    if cs == [] then 0 else CharSize(cs[0]) + CharsSize(cs[1..])
  }

  function SvcSize(s: SvcDecl): nat {
    1 + CharsSize(s.chars)
  }

  function TableSize(ss: seq<SvcDecl>): (n: nat)
    ensures ss != [] ==> n > 0
  {
    if ss == [] then 0 else SvcSize(ss[0]) + TableSize(ss[1..])
  }

  // ---- The layout [Vol 3, Part G, 2.5 and 3] ----

  function DescAttrs(ds: seq<DescDecl>, h: U16): (r: seq<Attr>)
    ensures |r| == |ds|
  {
    if ds == [] then []
    else [Attr(h, 0, ds[0].uuid, ds[0].value, ds[0].rh, ds[0].wh)] + DescAttrs(ds[1..], Inc(h))
  }

  function CharDeclaration(c: CharDecl, h: U16): Attr {
    Attr(h, Dec(Skip(h, CharSize(c))), CHARACTERISTIC,
         Some([LowByte(c.property)] + PutU16(Inc(h)) + c.uuid), false, false)
  }

  function CharValue(c: CharDecl, h: U16): Attr {
    Attr(Inc(h), 0, c.uuid, c.value, c.rh, c.wh)
  }

  function CharAttrs(c: CharDecl, h: U16): (r: seq<Attr>)
    ensures |r| == CharSize(c)
  {
    [CharDeclaration(c, h), CharValue(c, h)] + DescAttrs(Descs(c), Inc(Inc(h)))
  }

  function CharsAttrs(cs: seq<CharDecl>, h: U16): (r: seq<Attr>)
    ensures |r| == CharsSize(cs)
  {
    if cs == [] then [] else CharAttrs(cs[0], h) + CharsAttrs(cs[1..], Skip(h, CharSize(cs[0])))
  }

  function SvcEnd(s: SvcDecl, h: U16, last: bool): U16 {
    if last then 0xFFFF else Dec(Skip(h, SvcSize(s)))
  }

  function SvcDeclaration(s: SvcDecl, h: U16, last: bool): Attr {
    Attr(h, SvcEnd(s, h, last), PRIMARY_SERVICE, Some(s.uuid), false, false)
  }

  function SvcAttrs(s: SvcDecl, h: U16, last: bool): (r: seq<Attr>)
    ensures |r| == SvcSize(s)
  {
    [SvcDeclaration(s, h, last)] + CharsAttrs(s.chars, Inc(h))
  }

  function Table(ss: seq<SvcDecl>, h: U16): (r: seq<Attr>)
    ensures |r| == TableSize(ss)
  {
    if ss == [] then []
    else SvcAttrs(ss[0], h, |ss| == 1) + Table(ss[1..], Skip(h, SvcSize(ss[0])))
  }

  // ---- Where services and characteristics lie ----

  /** Offset of service k's declaration in the table; of the table's end when k == |ss|. */
  function SvcOffset(ss: seq<SvcDecl>, k: nat): (n: nat)
    requires k <= |ss|
    ensures n <= TableSize(ss) && (k < |ss| ==> n < TableSize(ss)) && (k == 0 ==> n == 0)
  {
    if k == 0 then 0 else SvcSize(ss[0]) + SvcOffset(ss[1..], k - 1)
  }

  function CharOffset(cs: seq<CharDecl>, j: nat): (n: nat)
    requires j <= |cs|
    ensures n <= CharsSize(cs) && (j < |cs| ==> n < CharsSize(cs)) && (j == 0 ==> n == 0)
  {
    if j == 0 then 0 else CharSize(cs[0]) + CharOffset(cs[1..], j - 1)
  }

  lemma {:induction false} SvcOffsetStep(ss: seq<SvcDecl>, k: nat)
    requires k < |ss|
    ensures SvcOffset(ss, k + 1) == SvcOffset(ss, k) + SvcSize(ss[k])
    ensures SvcOffset(ss, k) + TableSize(ss[k..]) == TableSize(ss)
  {
    hide SvcSize;
    if k > 0 {
      SvcOffsetStep(ss[1..], k - 1);
      assert ss[1..][k - 1..] == ss[k..];
    } else {
      assert ss[0..] == ss && SvcOffset(ss[1..], 0) == 0;
    }
  }

  lemma {:induction false} CharOffsetStep(cs: seq<CharDecl>, j: nat)
    requires j < |cs|
    ensures CharOffset(cs, j + 1) == CharOffset(cs, j) + CharSize(cs[j])
    ensures CharOffset(cs, j) + CharsSize(cs[j..]) == CharsSize(cs)
  {
    hide CharSize;
    if j > 0 {
      CharOffsetStep(cs[1..], j - 1);
      assert cs[1..][j - 1..] == cs[j..];
    } else {
      assert cs[0..] == cs && CharOffset(cs[1..], 0) == 0;
    }
  }

  lemma {:induction false} SvcOffsetEnd(ss: seq<SvcDecl>)
    ensures SvcOffset(ss, |ss|) == TableSize(ss)
  {
    if ss != [] {
      SvcOffsetEnd(ss[1..]);
    }
  }

  lemma {:induction false} CharOffsetEnd(cs: seq<CharDecl>)
    ensures CharOffset(cs, |cs|) == CharsSize(cs)
  {
    if cs != [] {
      CharOffsetEnd(cs[1..]);
    }
  }

  // ---- The generators, over the caller's objects ----

  ghost function DescDeclOf(d: Descriptor): DescDecl
    reads d
  {
    DescDecl(d.uuid, d.value, d.hasReadHandler, d.hasWriteHandler)
  }

  ghost function DescDeclsOf(ds: seq<Descriptor>): (r: seq<DescDecl>)
    reads ds
    ensures |r| == |ds|
  {
    seq(|ds|, i requires 0 <= i < |ds| reads ds => DescDeclOf(ds[i]))
  }

  ghost function CharDeclOf(c: Characteristic): CharDecl
    reads c, c.descriptors
  {
    CharDecl(c.uuid, c.property, c.value, c.hasReadHandler, c.hasWriteHandler,
             c.hasNotifyHandler || c.hasIndicateHandler, DescDeclsOf(c.descriptors))
  }

  ghost function DescriptorObjects(cs: seq<Characteristic>): (r: set<Descriptor>)
    reads cs
    ensures forall c, d :: c in cs && d in c.descriptors ==> d in r
  {
    set c, d | c in cs && d in c.descriptors :: d
  }

  ghost function CharDeclsOf(cs: seq<Characteristic>): (r: seq<CharDecl>)
    reads cs, DescriptorObjects(cs)
    ensures |r| == |cs|
  {
    seq(|cs|, i requires 0 <= i < |cs| reads cs, DescriptorObjects(cs) => CharDeclOf(cs[i]))
  }

  ghost function SvcDeclOf(s: Service): SvcDecl
    reads s, s.characteristics, DescriptorObjects(s.characteristics)
  {
    SvcDecl(s.uuid, CharDeclsOf(s.characteristics))
  }

  ghost predicate Distinct<T>(xs: seq<T>) {
    forall i, j :: 0 <= i < j < |xs| ==> xs[i] != xs[j]
  }

  method NewCCCD() returns (d: Descriptor)
    ensures fresh(d) && DescDeclOf(d) == CCCD && d.handle == 0
  {
    d := new Descriptor(CLIENT_CHARACTERISTIC_CONFIG);
    d.hasReadHandler, d.hasWriteHandler := true, true;
  }

  method GenDescAttr(d: Descriptor, h: U16) returns (a: Attr)
    ensures [a] == DescAttrs([DescDeclOf(d)], h)
  {
    a := Attr(h, 0, d.uuid, d.value, d.hasReadHandler, d.hasWriteHandler);
  }

  lemma DescAttrsStep(ds: seq<DescDecl>, i: nat, h: U16)
    requires i < |ds|
    ensures DescAttrs(ds[i..], h) == DescAttrs([ds[i]], h) + DescAttrs(ds[i + 1..], Inc(h))
  {
    assert ds[i..][1..] == ds[i + 1..];
  }

  /** The descriptor loop of genCharAttr. */
  method GenDescAttrs(descriptors: seq<Descriptor>, h: U16) returns (next: U16, attrs: seq<Attr>)
    ensures attrs == DescAttrs(DescDeclsOf(descriptors), h)
    ensures next == Skip(h, |descriptors|)
  {
    ghost var ds := DescDeclsOf(descriptors);
    next := h;
    attrs := [];
    assert ds[0..] == ds;
    for i := 0 to |descriptors|
      invariant next == Skip(h, i)
      invariant attrs + DescAttrs(ds[i..], next) == DescAttrs(ds, h)
    {
      var d := GenDescAttr(descriptors[i], next);
      DescAttrsStep(ds, i, next);
      assert (attrs + [d]) + DescAttrs(ds[i + 1..], Inc(next)) == attrs + DescAttrs(ds[i..], next);
      attrs := attrs + [d];
      next := Inc(next);
    }
  }

  /** The CCCD step of genCharAttr. */
  method AttachCCCD(c: Characteristic)
    modifies c`cccd, c`descriptors
    ensures DescDeclsOf(c.descriptors) == Descs(old(CharDeclOf(c)))
    ensures if c.hasNotifyHandler || c.hasIndicateHandler
            then
              && c.cccd != null && fresh(c.cccd) && DescDeclOf(c.cccd) == CCCD
              && c.descriptors == old(c.descriptors) + [c.cccd]
            else c.cccd == old(c.cccd) && c.descriptors == old(c.descriptors)
  {
    if c.hasNotifyHandler || c.hasIndicateHandler {
      var d := NewCCCD();
      c.cccd := d;
      c.descriptors := c.descriptors + [d];
    }
  }

  /** What genCharAttr leaves in the caller's object, declared as `d`, once it stands at handle h. */
  ghost predicate Placed(c: Characteristic, d: CharDecl, h: U16)
    reads c, c.descriptors
  {
    && c.handle == h && c.valueHandle == Inc(h)
    && c.uuid == d.uuid && c.property == d.property && c.value == d.value
    && c.hasReadHandler == d.rh && c.hasWriteHandler == d.wh
    && (c.hasNotifyHandler || c.hasIndicateHandler) == d.notifies
    && DescDeclsOf(c.descriptors) == Descs(d)
  }

  ghost predicate ServicePlaced(s: Service, d: SvcDecl, h: U16)
    reads s, s.characteristics, DescriptorObjects(s.characteristics)
  {
    && |s.characteristics| == |d.chars|
    && forall j :: 0 <= j < |d.chars| ==> Placed(s.characteristics[j], d.chars[j], Skip(Inc(h), CharOffset(d.chars, j)))
  }

  method GenCharAttr(c: Characteristic, h: U16) returns (next: U16, attrs: seq<Attr>)
    modifies c
    ensures attrs == CharAttrs(old(CharDeclOf(c)), h)
    ensures next == Skip(h, CharSize(old(CharDeclOf(c))))
    ensures c.handle == h && c.valueHandle == Inc(h)
    ensures c.property == old(c.property) && c.value == old(c.value) && c.endHandle == old(c.endHandle)
    ensures unchanged(c`hasReadHandler, c`hasWriteHandler, c`hasNotifyHandler, c`hasIndicateHandler)
    ensures if old(c.hasNotifyHandler || c.hasIndicateHandler)
            then
              && c.cccd != null && fresh(c.cccd) && DescDeclOf(c.cccd) == CCCD
              && c.descriptors == old(c.descriptors) + [c.cccd]
            else c.cccd == old(c.cccd) && c.descriptors == old(c.descriptors)
  {
    hide DescAttrs;
    ghost var decl := CharDeclOf(c);
    var vh := Inc(h);
    var a := Attr(h, 0, CHARACTERISTIC, Some([LowByte(c.property)] + PutU16(vh) + c.uuid), false, false);
    var va := Attr(vh, 0, c.uuid, c.value, c.hasReadHandler, c.hasWriteHandler);
    c.handle := h;
    c.valueHandle := vh;
    AttachCCCD(c);
    var descAttrs;
    next, descAttrs := GenDescAttrs(c.descriptors, Inc(Inc(h)));
    assert Skip(h, 1) == Inc(h);
    SkipAdd(h, 2, |Descs(decl)|);
    attrs := [a.(endh := Dec(next)), va] + descAttrs;
  }

  lemma CharsLoopStep(cs: seq<CharDecl>, i: nat, h: U16, attrs: seq<Attr>)
    requires i < |cs|
    ensures var next, after := Skip(h, CharOffset(cs, i)), Skip(h, CharOffset(cs, i + 1));
            && after == Skip(next, CharSize(cs[i]))
            && attrs + CharsAttrs(cs[i..], next) == attrs + CharAttrs(cs[i], next) + CharsAttrs(cs[i + 1..], after)
  {
    hide CharOffset, CharSize, CharAttrs;
    assert cs[i..][1..] == cs[i + 1..] && cs[i..][0] == cs[i];
    CharOffsetStep(cs, i);
    SkipAdd(h, CharOffset(cs, i), CharSize(cs[i]));
  }

  /** genCharAttr on one characteristic of a list leaves the others as they were declared. */
  method GenNthCharAttr(chars: seq<Characteristic>, i: nat, h: U16) returns (next: U16, attrs: seq<Attr>)
    requires i < |chars| && Distinct(chars)
    modifies chars[i]
    ensures attrs == CharAttrs(old(CharDeclOf(chars[i])), h)
    ensures next == Skip(h, CharSize(old(CharDeclOf(chars[i]))))
    ensures Placed(chars[i], old(CharDeclOf(chars[i])), h)
    ensures forall k :: 0 <= k < |chars| && k != i ==> CharDeclOf(chars[k]) == old(CharDeclOf(chars[k]))
  {
    next, attrs := GenCharAttr(chars[i], h);
  }

  /** The characteristic loop of genSvcAttr. */
  method GenCharsAttrs(chars: seq<Characteristic>, h: U16) returns (next: U16, attrs: seq<Attr>)
    requires Distinct(chars)
    modifies chars
    ensures attrs == CharsAttrs(old(CharDeclsOf(chars)), h)
    ensures next == Skip(h, CharsSize(old(CharDeclsOf(chars))))
    ensures forall j :: 0 <= j < |chars| ==>
              Placed(chars[j], old(CharDeclsOf(chars))[j], Skip(h, CharOffset(old(CharDeclsOf(chars)), j)))
  {
    hide CharsAttrs, CharAttrs, CharSize, CharsSize, CharDeclOf, CharOffset, Placed, Descs;
    ghost var cs := CharDeclsOf(chars);
    next := h;
    attrs := [];
    CharOffsetEnd(cs);
    assert cs[0..] == cs && attrs + CharsAttrs(cs, h) == CharsAttrs(cs, h);
    for i := 0 to |chars|
      invariant next == Skip(h, CharOffset(cs, i))
      invariant attrs + CharsAttrs(cs[i..], next) == CharsAttrs(cs, h)
      invariant forall k :: i <= k < |cs| ==> CharDeclOf(chars[k]) == cs[k]
      invariant forall k :: 0 <= k < i ==> Placed(chars[k], cs[k], Skip(h, CharOffset(cs, k)))
    {
      var aa: seq<Attr>;
      CharsLoopStep(cs, i, h, attrs);
      next, aa := GenNthCharAttr(chars, i, next);
      attrs := attrs + aa;
    }
    CharsAttrsNone(cs[|cs|..], next);
  }

  lemma CharsAttrsNone(cs: seq<CharDecl>, h: U16)
    ensures cs == [] ==> CharsAttrs(cs, h) == [] && CharsSize(cs) == 0
  {
  }

  method GenSvcAttr(s: Service, h: U16) returns (next: U16, attrs: seq<Attr>)
    requires Distinct(s.characteristics)
    modifies s.characteristics
    ensures attrs == SvcAttrs(old(SvcDeclOf(s)), h, false)
    ensures next == Skip(h, SvcSize(old(SvcDeclOf(s))))
    ensures ServicePlaced(s, old(SvcDeclOf(s)), h)
  {
    hide Placed, CharOffset, CharsAttrs;
    var a := Attr(h, 0, PRIMARY_SERVICE, Some(s.uuid), false, false);
    ghost var size := CharsSize(CharDeclsOf(s.characteristics));
    var charAttrs;
    next, charAttrs := GenCharsAttrs(s.characteristics, Inc(h));
    assert Skip(h, 1) == Inc(h);
    SkipAdd(h, 1, size);
    attrs := [a.(endh := Dec(next))] + charAttrs;
  }

  ghost function SvcDeclsOf(ss: seq<Service>): (r: seq<SvcDecl>)
    reads ss, CharacteristicObjects(ss), set c, d | c in CharacteristicObjects(ss) && d in c.descriptors :: d
    ensures |r| == |ss|
  {
    seq(|ss|, i requires 0 <= i < |ss|
              reads ss, CharacteristicObjects(ss),
                    set c, d | c in CharacteristicObjects(ss) && d in c.descriptors :: d =>
      SvcDeclOf(ss[i]))
  }

  ghost function CharacteristicObjects(ss: seq<Service>): (r: set<Characteristic>)
    reads ss
    ensures forall s, c :: s in ss && c in s.characteristics ==> c in r
  {
    set s, c | s in ss && c in s.characteristics :: c
  }

  /** No characteristic object is listed twice. */
  ghost predicate Unshared(ss: seq<Service>)
    reads ss
  {
    && (forall i :: 0 <= i < |ss| ==> Distinct(ss[i].characteristics))
    && (forall i, j, c :: 0 <= i < j < |ss| && c in ss[i].characteristics ==> c !in ss[j].characteristics)
  }

  /** genSvcAttr on one service of a list leaves the others as they were declared. */
  method GenNthSvcAttr(ss: seq<Service>, i: nat, h: U16) returns (next: U16, attrs: seq<Attr>)
    requires i < |ss| && Unshared(ss)
    modifies ss[i].characteristics
    ensures attrs == SvcAttrs(old(SvcDeclOf(ss[i])), h, false)
    ensures next == Skip(h, SvcSize(old(SvcDeclOf(ss[i]))))
    ensures ServicePlaced(ss[i], old(SvcDeclOf(ss[i])), h)
    ensures forall k :: i < k < |ss| ==> SvcDeclOf(ss[k]) == old(SvcDeclOf(ss[k]))
    ensures forall k, d, at :: 0 <= k < i && old(ServicePlaced(ss[k], d, at)) ==> ServicePlaced(ss[k], d, at)
  {
    next, attrs := GenSvcAttr(ss[i], h);
    forall k | i < k < |ss|
      ensures SvcDeclOf(ss[k]) == old(SvcDeclOf(ss[k]))
    {
      var cs := ss[k].characteristics;
      forall j | 0 <= j < |cs| ensures CharDeclOf(cs[j]) == old(CharDeclOf(cs[j])) {
        assert cs[j] in cs && cs[j] !in ss[i].characteristics;
      }
      assert CharDeclsOf(cs) == old(CharDeclsOf(cs));
    }
    forall k, d, at | 0 <= k < i && old(ServicePlaced(ss[k], d, at))
      ensures ServicePlaced(ss[k], d, at)
    {
      var cs := ss[k].characteristics;
      forall j | 0 <= j < |cs| ensures Placed(cs[j], d.chars[j], Skip(Inc(at), CharOffset(d.chars, j))) {
        assert cs[j] in cs && cs[j] !in ss[i].characteristics;
      }
    }
  }

  lemma TableLoopStep(ds: seq<SvcDecl>, i: nat, base: U16, attrs: seq<Attr>)
    requires i < |ds|
    ensures var h, after := Skip(base, SvcOffset(ds, i)), Skip(base, SvcOffset(ds, i + 1));
            && after == Skip(h, SvcSize(ds[i]))
            && attrs + Table(ds[i..], h)
            == attrs + SvcAttrs(ds[i], h, i == |ds| - 1) + Table(ds[i + 1..], after)
  {
    hide SvcOffset, SvcSize, SvcAttrs;
    assert ds[i..][1..] == ds[i + 1..] && ds[i..][0] == ds[i];
    SvcOffsetStep(ds, i);
    SkipAdd(base, SvcOffset(ds, i), SvcSize(ds[i]));
  }

  /** NewDB's adjustment of the last service: its group runs to 0xFFFF. */
  function EndAtLast(aa: seq<Attr>): (r: seq<Attr>)
    requires |aa| > 0
    ensures forall s, h :: aa == SvcAttrs(s, h, false) ==> r == SvcAttrs(s, h, true)
  {
    aa[0 := aa[0].(endh := 0xFFFF)]
  }

  method NewDB(ss: seq<Service>, base: U16) returns (db: DB)
    requires Unshared(ss)
    modifies CharacteristicObjects(ss)
    ensures db == DB(Table(old(SvcDeclsOf(ss)), base), base)
    ensures forall k :: 0 <= k < |ss| ==>
              ServicePlaced(ss[k], old(SvcDeclsOf(ss))[k], Skip(base, SvcOffset(old(SvcDeclsOf(ss)), k)))
  {
    hide ServicePlaced, SvcAttrs, SvcSize, SvcOffset, Table, SvcDeclOf;
    ghost var ds := SvcDeclsOf(ss);
    var h := base;
    var attrs: seq<Attr> := [];
    SvcOffsetEnd(ds);
    assert ds[0..] == ds;
    for i := 0 to |ss|
      invariant h == Skip(base, SvcOffset(ds, i))
      invariant attrs + Table(ds[i..], h) == Table(ds, base)
      invariant forall k :: i <= k < |ss| ==> SvcDeclOf(ss[k]) == ds[k]
      invariant forall k :: 0 <= k < i ==> ServicePlaced(ss[k], ds[k], Skip(base, SvcOffset(ds, k)))
    {
      TableLoopStep(ds, i, base, attrs);
      var next, aa := GenNthSvcAttr(ss, i, h);
      attrs := attrs + if i == |ss| - 1 then EndAtLast(aa) else aa;
      h := next;
    }
    db := DB(attrs, base);
  }
}
