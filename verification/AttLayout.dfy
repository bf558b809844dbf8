/** What NewDB's table looks like, handle by handle. */
module AttLayout {
  import opened Bytes
  import opened Wrappers
  import opened AttDb

  /** Every attribute of the table fits the handle space. */
  ghost predicate Fits(ss: seq<SvcDecl>, base: int) {
    base + TableSize(ss) <= 0x1_0000
  }

  ghost predicate Numbered(attrs: seq<Attr>, h: int) {
    forall i :: 0 <= i < |attrs| ==> attrs[i].h == h + i
  }

  lemma NumberedAppend(xs: seq<Attr>, ys: seq<Attr>, h: int)
    requires Numbered(xs, h) && Numbered(ys, h + |xs|)
    ensures Numbered(xs + ys, h)
  {
  }

  lemma {:induction false} DescAttrsNumbered(ds: seq<DescDecl>, h: U16)
    requires h + |ds| <= 0x1_0000
    ensures Numbered(DescAttrs(ds, h), h)
  {
    if |ds| > 1 {
      DescAttrsNumbered(ds[1..], Inc(h));
    }
  }

  lemma CharAttrsNumbered(c: CharDecl, h: U16)
    requires h + CharSize(c) <= 0x1_0000
    ensures Numbered(CharAttrs(c, h), h)
  {
    if Descs(c) != [] {
      DescAttrsNumbered(Descs(c), Inc(Inc(h)));
    }
  }

  lemma {:induction false} CharsAttrsNumbered(cs: seq<CharDecl>, h: U16)
    requires h + CharsSize(cs) <= 0x1_0000
    ensures Numbered(CharsAttrs(cs, h), h)
  {
    if cs != [] {
      CharAttrsNumbered(cs[0], h);
      if cs[1..] != [] {
        SkipIsPlus(h, CharSize(cs[0]));
        CharsAttrsNumbered(cs[1..], Skip(h, CharSize(cs[0])));
        NumberedAppend(CharAttrs(cs[0], h), CharsAttrs(cs[1..], h + CharSize(cs[0])), h);
      }
    }
  }

  lemma SvcAttrsNumbered(s: SvcDecl, h: U16, last: bool)
    requires h + SvcSize(s) <= 0x1_0000
    ensures Numbered(SvcAttrs(s, h, last), h)
  {
    if s.chars != [] {
      CharsAttrsNumbered(s.chars, Inc(h));
    }
  }

  lemma {:induction false} TableNumbered(ss: seq<SvcDecl>, h: U16)
    requires Fits(ss, h)
    ensures Numbered(Table(ss, h), h)
  {
    if ss != [] {
      SvcAttrsNumbered(ss[0], h, |ss| == 1);
      if ss[1..] != [] {
        SkipIsPlus(h, SvcSize(ss[0]));
        TableNumbered(ss[1..], Skip(h, SvcSize(ss[0])));
        NumberedAppend(SvcAttrs(ss[0], h, false), Table(ss[1..], h + SvcSize(ss[0])), h);
      }
    }
  }

  /** NewDB's table is numbered base, base + 1, ... without gaps. */
  lemma TableIsConsecutive(ss: seq<SvcDecl>, base: U16)
    requires Fits(ss, base)
    ensures DB(Table(ss, base), base).Consecutive()
  {
    TableNumbered(ss, base);
  }

  // ---- Where services and characteristics lie ----

  /** The table behind its first service. */
  lemma SecondService(ss: seq<SvcDecl>, h: U16, k: nat)
    requires 0 < k < |ss| && Fits(ss, h)
    ensures var n := SvcSize(ss[0]);
            && h + n <= 0xFFFF && Fits(ss[1..], h + n)
            && Table(ss, h) == SvcAttrs(ss[0], h, false) + Table(ss[1..], h + n)
            && SvcOffset(ss, k) == n + SvcOffset(ss[1..], k - 1)
  {
    hide SvcSize, SvcAttrs, Skip;
    assert TableSize(ss[1..]) > 0;
    SkipIsPlus(h, SvcSize(ss[0]));
  }

  lemma {:induction false} TableSuffix(ss: seq<SvcDecl>, h: U16, k: nat)
    requires k < |ss| && Fits(ss, h)
    ensures Table(ss, h)[SvcOffset(ss, k)..] == Table(ss[k..], h + SvcOffset(ss, k))
  {
    hide SvcSize, SvcAttrs, Table, Fits;
    if k > 0 {
      SecondService(ss, h, k);
      var n, off := SvcSize(ss[0]), SvcOffset(ss[1..], k - 1);
      SliceAfter(SvcAttrs(ss[0], h, false), Table(ss[1..], h + n), off);
      TableSuffix(ss[1..], h + n, k - 1);
      assert ss[1..][k - 1..] == ss[k..];
    } else {
      assert ss[0..] == ss;
    }
  }

  /** The attributes behind the first characteristic. */
  lemma SecondCharacteristic(cs: seq<CharDecl>, h: U16, j: nat)
    requires 0 < j < |cs| && h + CharsSize(cs) <= 0x1_0000
    ensures var n := CharSize(cs[0]);
            && h + n <= 0xFFFF && h + n + CharsSize(cs[1..]) <= 0x1_0000
            && CharsAttrs(cs, h) == CharAttrs(cs[0], h) + CharsAttrs(cs[1..], h + n)
            && CharOffset(cs, j) == n + CharOffset(cs[1..], j - 1)
  {
    hide CharSize, CharAttrs, Skip;
    assert CharsSize(cs[1..]) > 0;
    SkipIsPlus(h, CharSize(cs[0]));
  }

  lemma {:induction false} CharsSuffix(cs: seq<CharDecl>, h: U16, j: nat)
    requires j < |cs| && h + CharsSize(cs) <= 0x1_0000
    ensures CharsAttrs(cs, h)[CharOffset(cs, j)..] == CharsAttrs(cs[j..], h + CharOffset(cs, j))
  {
    hide CharSize, CharAttrs, CharsAttrs, CharsSize;
    if j > 0 {
      SecondCharacteristic(cs, h, j);
      var n, off := CharSize(cs[0]), CharOffset(cs[1..], j - 1);
      SliceAfter(CharAttrs(cs[0], h), CharsAttrs(cs[1..], h + n), off);
      CharsSuffix(cs[1..], h + n, j - 1);
      assert cs[1..][j - 1..] == cs[j..];
    } else {
      assert cs[0..] == cs;
    }
  }

  lemma SliceAfter<T>(xs: seq<T>, ys: seq<T>, n: nat)
    requires n <= |ys|
    ensures (xs + ys)[|xs| + n..] == ys[n..]
  {
  }

  /** Service k's attributes stand at its offset. */
  lemma ServiceSlice(ss: seq<SvcDecl>, h: U16, k: nat)
    requires k < |ss| && Fits(ss, h)
    ensures var off := SvcOffset(ss, k);
            && off + SvcSize(ss[k]) <= TableSize(ss)
            && Table(ss, h)[off..off + SvcSize(ss[k])] == SvcAttrs(ss[k], h + off, k == |ss| - 1)
  {
    hide SvcSize, SvcAttrs, Skip, Table, TableSize, SvcOffset;
    var off := SvcOffset(ss, k);
    SvcOffsetStep(ss, k);
    TableSuffix(ss, h, k);
    assert ss[k..][0] == ss[k] && |ss[k..]| == |ss| - k;
    FirstOfTable(ss[k..], h + off);
    SliceOf(Table(ss, h), off, SvcSize(ss[k]));
  }

  lemma FirstOfTable(ss: seq<SvcDecl>, h: U16)
    requires ss != []
    ensures SvcSize(ss[0]) <= TableSize(ss) == |Table(ss, h)|
    ensures Table(ss, h)[..SvcSize(ss[0])] == SvcAttrs(ss[0], h, |ss| == 1)
  {
    hide SvcSize, SvcAttrs, Skip;
  }

  lemma FirstOfChars(cs: seq<CharDecl>, h: U16)
    requires cs != []
    ensures CharSize(cs[0]) <= CharsSize(cs) == |CharsAttrs(cs, h)|
    ensures CharsAttrs(cs, h)[..CharSize(cs[0])] == CharAttrs(cs[0], h)
  {
    hide CharSize, CharAttrs, Skip;
  }

  /** Characteristic j's attributes stand at its offset within its service. */
  lemma CharSlice(cs: seq<CharDecl>, h: U16, j: nat)
    requires j < |cs| && h + CharsSize(cs) <= 0x1_0000
    ensures var off := CharOffset(cs, j);
            && off + CharSize(cs[j]) <= CharsSize(cs)
            && CharsAttrs(cs, h)[off..off + CharSize(cs[j])] == CharAttrs(cs[j], h + off)
  {
    hide CharSize, CharAttrs, CharsAttrs, CharsSize, CharOffset, Skip;
    var off := CharOffset(cs, j);
    CharOffsetStep(cs, j);
    CharsSuffix(cs, h, j);
    assert cs[j..][0] == cs[j];
    FirstOfChars(cs[j..], h + off);
    SliceOf(CharsAttrs(cs, h), off, CharSize(cs[j]));
  }

  lemma SvcEndIsBeforeNext(s: SvcDecl, h: U16)
    requires h + SvcSize(s) <= 0x1_0000
    ensures SvcEnd(s, h, false) == h + SvcSize(s) - 1
  {
    SkipIsPlus(h, SvcSize(s) - 1);
  }

  /** The services' handle ranges tile the table. Service k is declared at its offset; its group ends
      one below the next declaration, or at 0xFFFF for the last; and the attributes the index
      arithmetic finds in that range are exactly the service's own. */
  lemma ServicesPartitionTable(ss: seq<SvcDecl>, base: U16, k: nat)
    requires k < |ss| && Fits(ss, base)
    ensures var db := DB(Table(ss, base), base);
            var h := base + SvcOffset(ss, k);
            var end := if k == |ss| - 1 then 0xFFFF else base + SvcOffset(ss, k + 1) - 1;
            && h <= end <= 0xFFFF
            && db.attrs[h - base] == SvcDeclaration(ss[k], h, k == |ss| - 1)
            && db.attrs[h - base] == Attr(h, end, [0x00, 0x28], Some(ss[k].uuid), false, false)
            && db.Subrange(h, end) == SvcAttrs(ss[k], h, k == |ss| - 1)
  {
    hide CharsAttrs, CharsSize, TableSize, Skip;
    var off, attrs := SvcOffset(ss, k), Table(ss, base);
    var h := base + off;
    ServiceSlice(ss, base, k);
    SvcOffsetStep(ss, k);
    SvcEndIsBeforeNext(ss[k], h);
    assert attrs[off] == attrs[off..off + SvcSize(ss[k])][0];
    if k == |ss| - 1 {
      SvcOffsetEnd(ss);
    }
  }

  /** Characteristic j of service k is declared at its offset with the value right behind it, and its
      end handle is one below the next declaration (of a characteristic or of a service). */
  lemma CharacteristicsPartitionService(ss: seq<SvcDecl>, base: U16, k: nat, j: nat)
    requires k < |ss| && j < |ss[k].chars| && Fits(ss, base)
    ensures var attrs := Table(ss, base);
            var cs := ss[k].chars;
            var off := SvcOffset(ss, k) + 1 + CharOffset(cs, j);
            var next := SvcOffset(ss, k) + 1 + CharOffset(cs, j + 1);
            && next == off + CharSize(cs[j]) <= SvcOffset(ss, k + 1) <= |attrs|
            && (j == |cs| - 1 ==> next == SvcOffset(ss, k + 1))
            && attrs[off..off + CharSize(cs[j])] == CharAttrs(cs[j], base + off)
            && attrs[off].endh == base + next - 1
  {
    hide TableSize, Table, CharsAttrs, CharAttrs, CharSize, CharsSize, CharOffset, SvcOffset, Skip;
    var cs, so := ss[k].chars, SvcOffset(ss, k);
    var co, n := CharOffset(cs, j), CharSize(cs[j]);
    var off := so + 1 + co;
    SvcOffsetStep(ss, k);
    CharsOfService(ss, base, k);
    CharOffsetStep(cs, j);
    CharOffsetEnd(cs);
    CharSlice(cs, base + so + 1, j);
    var attrs := Table(ss, base);
    SliceOfSlice(attrs, so + 1, CharsSize(cs), co, n);
    assert attrs[off..off + n] == CharsAttrs(cs, base + so + 1)[co..co + n];
    CharEndIsBeforeNext(cs[j], base + off);
    FirstOfSlice(attrs, off, n);
  }

  lemma FirstOfSlice<T>(s: seq<T>, a: nat, n: nat)
    requires a + n <= |s| && n > 0
    ensures s[a..a + n][0] == s[a]
  {
  }

  lemma CharsOfService(ss: seq<SvcDecl>, base: U16, k: nat)
    requires k < |ss| && ss[k].chars != [] && Fits(ss, base)
    ensures var so, cs := SvcOffset(ss, k), ss[k].chars;
            && so + 1 + CharsSize(cs) <= TableSize(ss) && base + so + 1 <= 0xFFFF
            && Table(ss, base)[so + 1..so + 1 + CharsSize(cs)] == CharsAttrs(cs, base + so + 1)
  {
    hide TableSize, Table, CharsAttrs;
    var so := SvcOffset(ss, k);
    ServiceSlice(ss, base, k);
    assert SvcAttrs(ss[k], base + so, k == |ss| - 1)[1..] == CharsAttrs(ss[k].chars, base + so + 1);
    SliceOfSlice(Table(ss, base), so, SvcSize(ss[k]), 1, CharsSize(ss[k].chars));
  }

  lemma CharEndIsBeforeNext(c: CharDecl, h: U16)
    requires h + CharSize(c) <= 0x1_0000
    ensures CharAttrs(c, h)[0].endh == h + CharSize(c) - 1 && CharSize(c) >= 2
  {
    SkipIsPlus(h, CharSize(c) - 1);
  }

  lemma SliceOfSlice<T>(s: seq<T>, a: nat, n: nat, c: nat, m: nat)
    requires a + n <= |s| && c + m <= n
    ensures s[a..a + n][c..c + m] == s[a + c..a + c + m]
  {
    var x, y := s[a..a + n][c..c + m], s[a + c..a + c + m];
    assert forall i :: 0 <= i < m ==> x[i] == y[i];
  }

  // ---- What stands at each handle ----

  /** The handle at which characteristic j of service k is declared. */
  function CharHandle(ss: seq<SvcDecl>, base: U16, k: nat, j: nat): (h: int)
    requires k < |ss| && j < |ss[k].chars|
  {
    base + SvcOffset(ss, k) + 1 + CharOffset(ss[k].chars, j)
  }

  /** The i-th attribute of a characteristic stands i handles behind its declaration. */
  lemma CharAttributeAt(ss: seq<SvcDecl>, base: U16, k: nat, j: nat, i: nat)
    requires k < |ss| && j < |ss[k].chars| && Fits(ss, base) && i < CharSize(ss[k].chars[j])
    ensures var h := CharHandle(ss, base, k, j);
            && h + i <= 0xFFFF
            && DB(Table(ss, base), base).At(h + i) == Some(CharAttrs(ss[k].chars[j], h)[i])
  {
    hide Table, TableSize, SvcOffset, CharOffset, CharSize, CharAttrs;
    CharacteristicsPartitionService(ss, base, k, j);
    var attrs, off := Table(ss, base), SvcOffset(ss, k) + 1 + CharOffset(ss[k].chars, j);
    assert attrs[off..off + CharSize(ss[k].chars[j])][i] == attrs[off + i];
  }

  lemma {:induction false} DescAttrAt(ds: seq<DescDecl>, h: U16, i: nat)
    requires i < |ds| && h + i <= 0xFFFF
    ensures DescAttrs(ds, h)[i] == Attr(h + i, 0, ds[i].uuid, ds[i].value, ds[i].rh, ds[i].wh)
  {
    if i > 0 {
      DescAttrAt(ds[1..], Inc(h), i - 1);
    }
  }

  /** A characteristic's declaration [Vol 3, Part G, 3.3.1]: its properties, the handle of its value
      and its UUID; readable, without handlers. */
  lemma DeclarationAttribute(ss: seq<SvcDecl>, base: U16, k: nat, j: nat)
    requires k < |ss| && j < |ss[k].chars| && Fits(ss, base)
    ensures var h, c := CharHandle(ss, base, k, j), ss[k].chars[j];
            && h + 1 <= 0xFFFF && DB(Table(ss, base), base).At(h).Some?
            && var a := DB(Table(ss, base), base).At(h).value;
               && a.h == h && a.typ == [0x03, 0x28] && !a.rh && !a.wh
               && a.v == Some([c.property % 0x100, (h + 1) % 0x100, (h + 1) / 0x100] + c.uuid)
  {
    hide Table, TableSize, SvcOffset, CharOffset;
    CharAttributeAt(ss, base, k, j, 0);
    CharAttributeAt(ss, base, k, j, 1);
    var h, c := CharHandle(ss, base, k, j), ss[k].chars[j];
    assert [LowByte(c.property)] + PutU16(Inc(h)) == [c.property % 0x100, (h + 1) % 0x100, (h + 1) / 0x100];
  }

  /** A characteristic's value stands right behind its declaration, under the declared UUID, with the
      static value and the handlers that were declared. */
  lemma ValueAttribute(ss: seq<SvcDecl>, base: U16, k: nat, j: nat)
    requires k < |ss| && j < |ss[k].chars| && Fits(ss, base)
    ensures var h, c := CharHandle(ss, base, k, j) + 1, ss[k].chars[j];
            && h <= 0xFFFF && DB(Table(ss, base), base).At(h).Some?
            && var a := DB(Table(ss, base), base).At(h).value;
               && a.h == h && a.typ == c.uuid && a.v == c.value
               && (a.rh <==> c.rh) && (a.wh <==> c.wh)
  {
    hide Table, TableSize, SvcOffset, CharOffset;
    CharAttributeAt(ss, base, k, j, 1);
  }

  /** The declared descriptors follow the value in order, each with its own UUID, static value and
      handlers; behind them, and only if the characteristic notifies or indicates, stands the CCCD,
      which is served by a read and a write handler. */
  lemma DescriptorAttribute(ss: seq<SvcDecl>, base: U16, k: nat, j: nat, i: nat)
    requires k < |ss| && j < |ss[k].chars| && Fits(ss, base)
    requires var c := ss[k].chars[j]; i < |c.descs| || (i == |c.descs| && c.notifies)
    ensures var h, c := CharHandle(ss, base, k, j) + 2 + i, ss[k].chars[j];
            && h <= 0xFFFF && DB(Table(ss, base), base).At(h).Some?
            && var a := DB(Table(ss, base), base).At(h).value;
               && a.h == h
               && if i < |c.descs|
                  then a.typ == c.descs[i].uuid && a.v == c.descs[i].value
                    && (a.rh <==> c.descs[i].rh) && (a.wh <==> c.descs[i].wh)
                  else a.typ == [0x02, 0x29] && a.v == None && a.rh && a.wh
    ensures CharSize(ss[k].chars[j]) == 2 + |ss[k].chars[j].descs| + if ss[k].chars[j].notifies then 1 else 0
  {
    hide Table, TableSize, SvcOffset, CharOffset, DescAttrs;
    CharAttributeAt(ss, base, k, j, 2 + i);
    DescAttrAt(Descs(ss[k].chars[j]), Inc(Inc(CharHandle(ss, base, k, j))), i);
  }
}
