/** What the grouped responses carry, for static attributes. */
module AttGrouped {
  import opened Bytes
  import opened Wrappers
  import opened AttDb
  import opened AttPdu
  import opened AttServer

  /** Once the entry size is set, the packing loop emits the packed rest. */
  lemma {:induction false} FillIsPack(es: seq<Result<seq<Byte>, Byte>>, d: nat, room: int)
    requires d > 0
    ensures Fill(es, d, room) == Filled(d, PackRest(es, d, room))
    decreases |es|
  {
    if es != [] && es[0].Ok? && |es[0].value| == d && d <= room {
      FillIsPack(es[1..], d, room - d);
      assert es[0].value[..d] == es[0].value;
    }
  }

  /** The first entry sets the size; the rest is packed behind it. */
  lemma FillFirst(es: seq<Result<seq<Byte>, Byte>>, listLen: nat)
    requires es != [] && es[0].Ok? && |es[0].value| > 0 && listLen > 0
    ensures var d := EntrySize(es[0].value, listLen);
            Fill(es, 0, listLen) == Filled(d, es[0].value[..d] + PackRest(es[1..], d, listLen - d))
  {
    var d := EntrySize(es[0].value, listLen);
    FillIsPack(es[1..], d, listLen - d);
  }

  /** A Read By Type or Read By Group Type list carries exactly the maximal prefix of the matching
      entries, in order, whose size equals the first's (after the 255 and MTU caps) and which fits.
      Only the first can be cut, when it alone exceeds the caps. */
  lemma FillIsMaximalPrefix(es: seq<Result<seq<Byte>, Byte>>, listLen: nat) returns (k: nat)
    requires es != [] && es[0].Ok? && |es[0].value| > 0 && listLen > 0
    ensures 1 <= k <= |es|
    ensures forall i :: 1 <= i < k ==> es[i].Ok? && |es[i].value| == EntrySize(es[0].value, listLen)
    ensures var d := EntrySize(es[0].value, listLen);
            var list := es[0].value[..d] + Flat(Values(es[1..k]));
            && Fill(es, 0, listLen) == Filled(d, list)
            && |list| <= listLen
            && (k == |es| || es[k].Err? || |es[k].value| != d || |list| + d > listLen)
  {
    hide Fill, PackRest, Taken, Flat;
    var d := EntrySize(es[0].value, listLen);
    var rest := es[1..];
    var n := Taken(rest, d, listLen - d);
    FillFirst(es, listLen);
    PackRestIsMaximalPrefix(rest, d, listLen - d);
    k := n + 1;
    assert rest[..n] == es[1..k];
    forall i | 1 <= i < k ensures es[i] == rest[i - 1] {}
  }

  // ---- Static attributes ----

  /** The attributes of type `typ`, in table order. */
  function Matching(sub: seq<Attr>, typ: seq<Byte>): (r: seq<Attr>)
    ensures forall i :: 0 <= i < |r| ==> r[i].typ == typ
  {
    if sub == [] then []
    else if sub[0].typ == typ then [sub[0]] + Matching(sub[1..], typ)
    else Matching(sub[1..], typ)
  }

  lemma {:induction false} MatchingAppend(xs: seq<Attr>, ys: seq<Attr>, typ: seq<Byte>)
    ensures Matching(xs + ys, typ) == Matching(xs, typ) + Matching(ys, typ)
  {
    if xs == [] {
      assert xs + ys == ys;
    } else {
      assert (xs + ys)[1..] == xs[1..] + ys;
      MatchingAppend(xs[1..], ys, typ);
    }
  }

  lemma {:induction false} MatchingNone(xs: seq<Attr>, typ: seq<Byte>)
    requires forall i :: 0 <= i < |xs| ==> xs[i].typ != typ
    ensures Matching(xs, typ) == []
  {
    if xs != [] {
      MatchingNone(xs[1..], typ);
    }
  }

  ghost predicate Static(found: seq<Attr>) {
    forall i :: 0 <= i < |found| ==> found[i].v.Some?
  }

  /** A static attribute's entry in a Read By Type Response and in a Read By Group Type Response. */
  function TypeWire(a: Attr): (w: seq<Byte>)
    requires a.v.Some?
    ensures |w| == 2 + |a.v.value|
  {
    PutU16(a.h) + a.v.value
  }

  function GroupWire(a: Attr): (w: seq<Byte>)
    requires a.v.Some?
    ensures |w| == 4 + |a.v.value|
  {
    GroupEntry(a, a.v.value)
  }

  function TypeWires(found: seq<Attr>): (r: seq<seq<Byte>>)
    requires Static(found)
    ensures |r| == |found|
  {
    seq(|found|, i requires 0 <= i < |found| => TypeWire(found[i]))
  }

  function GroupWires(found: seq<Attr>): (r: seq<seq<Byte>>)
    requires Static(found)
    ensures |r| == |found|
  {
    seq(|found|, i requires 0 <= i < |found| => GroupWire(found[i]))
  }

  function Oks(ws: seq<seq<Byte>>): (r: seq<Result<seq<Byte>, Byte>>)
    ensures |r| == |ws| && forall i :: 0 <= i < |r| ==> r[i] == Ok(ws[i])
  {
    seq(|ws|, i requires 0 <= i < |ws| => Ok(ws[i]))
  }

  lemma TypeWiresStep(a: Attr, rest: seq<Attr>)
    requires a.v.Some? && Static(rest)
    ensures Static([a] + rest) && Oks(TypeWires([a] + rest)) == [Ok(TypeWire(a))] + Oks(TypeWires(rest))
  {
    assert forall i :: 1 <= i < |rest| + 1 ==> ([a] + rest)[i] == rest[i - 1];
  }

  lemma GroupWiresStep(a: Attr, rest: seq<Attr>)
    requires a.v.Some? && Static(rest)
    ensures Static([a] + rest) && Oks(GroupWires([a] + rest)) == [Ok(GroupWire(a))] + Oks(GroupWires(rest))
  {
    assert forall i :: 1 <= i < |rest| + 1 ==> ([a] + rest)[i] == rest[i - 1];
  }

  lemma StaticTail(a: Attr, rest: seq<Attr>)
    requires Static([a] + rest)
    ensures a.v.Some? && Static(rest)
  {
    assert ([a] + rest)[0] == a;
    assert forall i :: 0 <= i < |rest| ==> rest[i] == ([a] + rest)[i + 1];
  }

  lemma {:induction false} TypeEntriesOfStatic(sub: seq<Attr>, typ: seq<Byte>, cap: nat, env: Env)
    requires Static(Matching(sub, typ))
    ensures TypeEntries(sub, typ, cap, env) == Oks(TypeWires(Matching(sub, typ)))
  {
    hide Oks, TypeWires, Static;
    if sub == [] {
      TypeWiresOfNone();
    } else {
      var rest := Matching(sub[1..], typ);
      if sub[0].typ == typ {
        StaticTail(sub[0], rest);
        TypeWiresStep(sub[0], rest);
      }
      TypeEntriesOfStatic(sub[1..], typ, cap, env);
    }
  }

  lemma TypeWiresOfNone()
    ensures Static([]) && Oks(TypeWires([])) == [] && Oks(GroupWires([])) == []
  {
  }

  /** For static attributes the group response is packed like the type response. */
  lemma {:induction false} GroupWalkIsFill(sub: seq<Attr>, typ: seq<Byte>, d: nat, n: nat, listLen: nat, env: Env)
    requires Static(Matching(sub, typ))
    requires n <= listLen && (d == 0 ==> n == 0) && listLen > 0
    ensures GroupWalk(sub, typ, d, n, listLen, env) == Fill(Oks(GroupWires(Matching(sub, typ))), d, listLen - n)
    decreases |sub|
  {
    hide Oks, GroupWires, GroupWire, Static;
    if sub == [] {
      TypeWiresOfNone();
    } else {
      var a, rest := sub[0], Matching(sub[1..], typ);
      if a.typ != typ {
        GroupWalkIsFill(sub[1..], typ, d, n, listLen, env);
      } else {
        StaticTail(a, rest);
        GroupWiresStep(a, rest);
        var e := GroupEntry(a, a.v.value);
        assert e == GroupWire(a) by { GroupWireIs(a); }
        var size := if d == 0 then EntrySize(e, listLen) else d;
        assert ([Ok(e)] + Oks(GroupWires(rest)))[1..] == Oks(GroupWires(rest));
        if (d == 0 || |e| == d) && n + size <= listLen {
          GroupWalkIsFill(sub[1..], typ, size, n + size, listLen, env);
        }
      }
    }
  }

  lemma GroupWireIs(a: Attr)
    requires a.v.Some?
    ensures GroupWire(a) == GroupEntry(a, a.v.value)
  {
  }

  /** When the first entry is within the caps, the list is the first k entries, whole. */
  lemma FillWhole(ws: seq<seq<Byte>>, listLen: nat) returns (k: nat)
    requires ws != [] && 0 < |ws[0]| <= Min(255, listLen)
    ensures 1 <= k <= |ws|
    ensures forall i :: 0 <= i < k ==> |ws[i]| == |ws[0]|
    ensures Fill(Oks(ws), 0, listLen) == Filled(|ws[0]|, Flat(ws[..k]))
  {
    hide Fill;
    var es, d := Oks(ws), |ws[0]|;
    k := FillIsMaximalPrefix(es, listLen);
    assert ws[0][..d] == ws[0];
    assert Values(es[1..k]) == ws[..k][1..];
  }

  // ---- The responses ----

  /** Over static attributes, a Read By Type Response carries exactly the maximal prefix of the
      in-range attributes of the type, in handle order, whose entries have the first one's size
      (capped at 255 and at the MTU) and which fits. */
  lemma ReadByTypeIsMaximalPrefix(db: DB, mtu: nat, r: seq<Byte>, env: Env) returns (k: nat)
    requires db.Consecutive() && mtu >= 23 && (|r| == 7 || |r| == 21)
    requires 0 < U16At(r, 1) <= U16At(r, 3)
    requires Static(Matching(InRange(db.attrs, U16At(r, 1), U16At(r, 3)), r[5..]))
    ensures var ws := TypeWires(Matching(InRange(db.attrs, U16At(r, 1), U16At(r, 3)), r[5..]));
            var rsp := ReadByTypeRsp(db, mtu, r, env);
            if ws == [] then rsp == ErrorRsp(r[0], U16At(r, 1), ATTR_NOT_FOUND)
            else IsMaximalPrefix(rsp, READ_BY_TYPE_RESPONSE, ws, k, mtu - 2)
  {
    hide Fill, InRange, Matching, TypeEntries, Flat, Taken;
    var start, end := U16At(r, 1), U16At(r, 3);
    SubrangeIsFilter(db, start, end);
    var sub := db.Subrange(start, end);
    var ws := TypeWires(Matching(sub, r[5..]));
    TypeEntriesOfStatic(sub, r[5..], mtu - 2, env);
    k := ListIsMaximalPrefix(r[0], READ_BY_TYPE_RESPONSE, start, ws, mtu - 2);
  }

  /** The same for Read By Group Type. */
  lemma ReadByGroupIsMaximalPrefix(db: DB, mtu: nat, r: seq<Byte>, env: Env) returns (k: nat)
    requires db.Consecutive() && mtu >= 23 && (|r| == 7 || |r| == 21)
    requires 0 < U16At(r, 1) <= U16At(r, 3)
    requires Static(Matching(InRange(db.attrs, U16At(r, 1), U16At(r, 3)), r[5..]))
    ensures var ws := GroupWires(Matching(InRange(db.attrs, U16At(r, 1), U16At(r, 3)), r[5..]));
            var rsp := ReadByGroupRsp(db, mtu, r, env);
            if ws == [] then rsp == ErrorRsp(r[0], U16At(r, 1), ATTR_NOT_FOUND)
            else IsMaximalPrefix(rsp, READ_BY_GROUP_TYPE_RESPONSE, ws, k, mtu - 2)
  {
    hide Fill, InRange, Matching, GroupWalk, Flat, Taken;
    var start, end := U16At(r, 1), U16At(r, 3);
    SubrangeIsFilter(db, start, end);
    var sub := db.Subrange(start, end);
    var ws := GroupWires(Matching(sub, r[5..]));
    GroupWalkIsFill(sub, r[5..], 0, 0, mtu - 2, env);
    k := ListIsMaximalPrefix(r[0], READ_BY_GROUP_TYPE_RESPONSE, start, ws, mtu - 2);
  }

  /** `rsp` is opcode, entry size and the first k of the entries `ws`; only the first entry may be cut,
      and entry k, if there is one, has another size or does not fit. */
  ghost predicate IsMaximalPrefix(rsp: seq<Byte>, op: Byte, ws: seq<seq<Byte>>, k: nat, listLen: nat) {
    && 1 <= k <= |ws|
    && var d := Min(|ws[0]|, Min(255, listLen));
    && d >= 0
    && (forall i :: 1 <= i < k ==> |ws[i]| == d)
    && var list := ws[0][..d] + Flat(ws[1..k]);
    && rsp == [op, d] + list
    && |list| <= listLen
    && (k == |ws| || |ws[k]| != d || |list| + d > listLen)
  }

  lemma ListIsMaximalPrefix(reqOp: Byte, rspOp: Byte, start: U16, ws: seq<seq<Byte>>, listLen: nat) returns (k: nat)
    requires listLen >= 21 && (ws != [] ==> |ws[0]| > 0)
    ensures var rsp := FilledRsp(reqOp, rspOp, start, Fill(Oks(ws), 0, listLen));
            if ws == [] then rsp == ErrorRsp(reqOp, start, ATTR_NOT_FOUND)
            else IsMaximalPrefix(rsp, rspOp, ws, k, listLen)
  {
    hide Fill, Taken, Flat;
    var es := Oks(ws);
    if ws == [] {
      k := 0;
      FillNothing(listLen);
    } else {
      k := FillIsMaximalPrefix(es, listLen);
      assert Values(es[1..k]) == ws[1..k];
    }
  }

  lemma FillNothing(listLen: nat)
    ensures Fill(Oks([]), 0, listLen) == Filled(0, [])
  {
    assert Oks([]) == [];
  }

  /** A Find Information Response carries exactly the maximal prefix of the in-range attributes whose
      UUIDs have the first one's format and which fits the buffer. */
  lemma InformationIsMaximalPrefix(db: DB, mtu: nat, r: seq<Byte>) returns (k: nat)
    requires db.Consecutive() && mtu >= 23 && |r| == 5 && 0 < U16At(r, 1) <= U16At(r, 3)
    requires forall i :: 0 <= i < |db.attrs| ==> |db.attrs[i].typ| == 2 || |db.attrs[i].typ| == 16
    ensures var sub := InRange(db.attrs, U16At(r, 1), U16At(r, 3));
            var ws, rsp := InfoWires(sub), FindInformationRsp(db, mtu, r);
            if sub == [] then rsp == ErrorRsp(r[0], U16At(r, 1), ATTR_NOT_FOUND)
            else
              && 1 <= k <= |ws|
              && (forall i :: 0 <= i < k ==> |ws[i]| == |ws[0]|)
              && rsp == [FIND_INFORMATION_RESPONSE, if |sub[0].typ| == 16 then 2 else 1] + Flat(ws[..k])
              && |rsp| <= mtu
              && (k == |ws| || |ws[k]| != |ws[0]| || |rsp| + |ws[0]| > mtu)
  {
    hide PackRest, Taken, Flat, InfoEntries, InRange;
    SubrangeIsFilter(db, U16At(r, 1), U16At(r, 3));
    var sub := db.Subrange(U16At(r, 1), U16At(r, 3));
    k := 0;
    if sub != [] {
      k := InformationPrefix(sub, mtu - 2);
    }
  }

  lemma InformationPrefix(sub: seq<Attr>, listLen: nat) returns (k: nat)
    requires sub != [] && (|sub[0].typ| == 2 || |sub[0].typ| == 16) && listLen >= 21
    ensures 1 <= k <= |sub|
    ensures forall i :: 0 <= i < k ==> |InfoWires(sub)[i]| == |InfoWires(sub)[0]|
    ensures PackRest(InfoEntries(sub), InfoSize(sub[0]), listLen) == Flat(InfoWires(sub)[..k])
    ensures var list, d := Flat(InfoWires(sub)[..k]), |InfoWires(sub)[0]|;
            |list| <= listLen && (k == |sub| || |InfoWires(sub)[k]| != d || |list| + d > listLen)
  {
    hide Flat, PackRest;
    var es, d := InfoEntries(sub), InfoSize(sub[0]);
    PackRestIsMaximalPrefix(es, d, listLen);
    k := Taken(es, d, listLen);
    forall i | 0 <= i < |sub| ensures es[i] == Ok(InfoWires(sub)[i]) {
      InfoEntryAt(sub, i);
    }
    assert Values(es[..k]) == InfoWires(sub)[..k];
    assert |es[0].value| == d;
    assert forall i :: 0 <= i < |sub| ==> |es[i].value| == |InfoWires(sub)[i]|;
  }

  function InfoWires(sub: seq<Attr>): (r: seq<seq<Byte>>)
    ensures |r| == |sub|
  {
    seq(|sub|, i requires 0 <= i < |sub| => PutU16(sub[i].h) + sub[i].typ)
  }

  // ---- Find By Type Value ----

  /** The attributes that hold a value. */
  function WithValue(found: seq<Attr>, val: seq<Byte>): seq<Attr> {
    if found == [] then []
    else if found[0].v == Some(val) then [found[0]] + WithValue(found[1..], val)
    else WithValue(found[1..], val)
  }

  function HandlePairs(found: seq<Attr>): seq<Byte> {
    if found == [] then [] else HandlePair(found[0]) + HandlePairs(found[1..])
  }

  /** The handle list after n bytes: as many of the matches as whole pairs still fit. */
  lemma {:induction false} MatchWalkIsPrefix(sub: seq<Attr>, typ: seq<Byte>, val: seq<Byte>, n: nat, mtu: nat, env: Env)
    requires mtu >= 7 && n < mtu && Static(Matching(sub, typ))
    ensures var found := WithValue(Matching(sub, typ), val);
            MatchWalk(sub, typ, val, n, mtu, env) == Some(HandlePairs(found[..Min(|found|, (mtu - 1 - n) / 4)]))
    decreases |sub|
  {
    hide HandlePair;
    if sub != [] {
      var a, rest := sub[0], Matching(sub[1..], typ);
      if a.typ != typ {
        MatchWalkIsPrefix(sub[1..], typ, val, n, mtu, env);
      } else {
        StaticTail(a, rest);
        assert ([a] + rest)[1..] == rest;
        if a.v.value != val {
          MatchWalkIsPrefix(sub[1..], typ, val, n, mtu, env);
        } else if n + 4 <= mtu - 1 {
          MatchWalkIsPrefix(sub[1..], typ, val, n + 4, mtu, env);
          var more := WithValue(rest, val);
          var k := Min(|more|, (mtu - 1 - (n + 4)) / 4);
          assert ([a] + more)[..k + 1] == [a] + more[..k];
          assert ([a] + more[..k])[1..] == more[..k];
        }
      }
    }
  }

  /** Over static attributes, a Find By Type Value Response lists the handle and group end of exactly the
      first matches in the range, in handle order, as many as fit. */
  lemma FindByTypeValueIsMaximalPrefix(db: DB, mtu: nat, r: seq<Byte>, env: Env)
    requires db.Consecutive() && mtu >= 23 && |r| >= 7 && 0 < U16At(r, 1) <= U16At(r, 3)
    requires Static(Matching(InRange(db.attrs, U16At(r, 1), U16At(r, 3)), PutU16(U16At(r, 5))))
    ensures var found := WithValue(Matching(InRange(db.attrs, U16At(r, 1), U16At(r, 3)), PutU16(U16At(r, 5))), r[7..]);
            FindByTypeValueRsp(db, mtu, r, env) == if found == [] then ErrorRsp(r[0], U16At(r, 1), ATTR_NOT_FOUND)
                                                  else [FIND_BY_TYPE_VALUE_RESPONSE]
                                                       + HandlePairs(found[..Min(|found|, (mtu - 1) / 4)])
  {
    hide InRange, Matching, MatchWalk, HandlePair;
    var start, end := U16At(r, 1), U16At(r, 3);
    SubrangeIsFilter(db, start, end);
    MatchWalkIsPrefix(db.Subrange(start, end), PutU16(U16At(r, 5)), r[7..], 0, mtu, env);
  }
}
