/** LE Advertising Reports: the consistency check (linux/hci/hci.go) and the column accessors
    (linux/hci/evt/evt.go). */
module AdvReport {
  import opened Bytes

  // ---- Accessors ----

  function NumReports(e: seq<Byte>): nat
    requires |e| >= 2
  {
    e[1]
  }

  /** The fixed columns are there: subevent, count, and nine octets a report. */
  predicate HasFixedPart(e: seq<Byte>) {
    |e| >= 2 && |e| >= 2 + 9 * NumReports(e)
  }

  function EventType(e: seq<Byte>, i: nat): Byte
    requires HasFixedPart(e) && i < NumReports(e)
  {
    e[2 + i]
  }

  function AddressType(e: seq<Byte>, i: nat): Byte
    requires HasFixedPart(e) && i < NumReports(e)
  {
    e[2 + NumReports(e) + i]
  }

  function LengthData(e: seq<Byte>, i: nat): nat
    requires HasFixedPart(e) && i < NumReports(e)
  {
    e[2 + NumReports(e) * 8 + i]
  }

  /** The octets of the data runs before report i. */
  function Before(e: seq<Byte>, i: nat): (n: nat)
    requires HasFixedPart(e) && i <= NumReports(e)
  {
    if i == 0 then 0 else Before(e, i - 1) + LengthData(e, i - 1)
  }

  /** Where the data run of report i starts; for i the number of reports, where the RSSI column does. */
  function DataStart(e: seq<Byte>, i: nat): nat
    requires HasFixedPart(e) && i <= NumReports(e)
  {
    2 + NumReports(e) * 9 + Before(e, i)
  }

  /** What validAdvReport accepts. */
  predicate Consistent(e: seq<Byte>) {
    && HasFixedPart(e) && NumReports(e) > 0
    && |e| == DataStart(e, NumReports(e)) + NumReports(e)
  }

  lemma {:induction false} BeforeGrows(e: seq<Byte>, i: nat, j: nat)
    requires HasFixedPart(e) && i <= j <= NumReports(e)
    ensures Before(e, i) <= Before(e, j)
    decreases j
  {
    if i < j {
      BeforeGrows(e, i, j - 1);
    }
  }

  /** validAdvReport */
  method ValidAdvReport(e: seq<Byte>) returns (ok: bool)
    ensures ok == Consistent(e)
  {
    if |e| < 2 {
      return false;
    }
    var n := NumReports(e);
    if n == 0 {
      return false;
    }
    var fixed := 2 + 9 * n;
    if |e| < fixed + n {
      return false;
    }
    var total := 0;
    for i := 0 to n
      invariant total == Before(e, i)
    {
      total := total + LengthData(e, i);
    }
    ok := |e| == fixed + total + n;
  }

  /** The data run of report i. */
  method Data(e: seq<Byte>, i: nat) returns (d: seq<Byte>)
    requires Consistent(e) && i < NumReports(e)
    ensures d == Run(e, i)
  {
    var l := 0;
    for j := 0 to i
      invariant l == Before(e, j)
    {
      l := l + LengthData(e, j);
    }
    RunInBounds(e, i);
    SliceOf(e, 2 + NumReports(e) * 9 + l, LengthData(e, i));
    var b := e[2 + NumReports(e) * 9 + l..];
    d := b[..LengthData(e, i)];
  }

  /** int8(...) of an octet: the value in -128..127 that it is the two's complement of. */
  function Signed(b: Byte): (r: int)
    ensures -0x80 <= r < 0x80 && r % 0x100 == b
  {
    if b < 0x80 then b else b - 0x100
  }

  method RSSI(e: seq<Byte>, i: nat) returns (r: int)
    requires Consistent(e) && i < NumReports(e)
    ensures r == Signed(e[|e| - NumReports(e) + i])
  {
    var l := 0;
    for j := 0 to NumReports(e)
      invariant l == Before(e, j)
    {
      l := l + LengthData(e, j);
    }
    r := Signed(e[2 + NumReports(e) * 9 + l + i]);
  }

  method Address(e: seq<Byte>, i: nat) returns (a: array<Byte>)
    requires Consistent(e) && i < NumReports(e)
    ensures fresh(a) && a[..] == AddressOf(e, i)
  {
    a := new Byte[6](_ => 0);
    var rest := e[2 + NumReports(e) * 2..];
    for k := 0 to 6
      invariant a[..k] == AddressOf(e, i)[..k]
    {
      a[k] := rest[6 * i + k];
    }
  }

  function AddressOf(e: seq<Byte>, i: nat): (a: seq<Byte>)
    requires HasFixedPart(e) && i < NumReports(e)
    ensures |a| == 6
  {
    var at := 2 + NumReports(e) * 2 + 6 * i;
    e[at..at + 6]
  }

  lemma RunInBounds(e: seq<Byte>, i: nat)
    requires Consistent(e) && i < NumReports(e)
    ensures DataStart(e, i) + LengthData(e, i) == DataStart(e, i + 1) <= |e| - NumReports(e)
  {
    BeforeGrows(e, i + 1, NumReports(e));
  }

  function Run(e: seq<Byte>, i: nat): (d: seq<Byte>)
    requires Consistent(e) && i < NumReports(e)
    ensures |d| == LengthData(e, i)
  {
    RunInBounds(e, i);
    e[DataStart(e, i)..DataStart(e, i + 1)]
  }

  // ---- What acceptance guarantees ----

  function RunEnd(e: seq<Byte>, i: nat): nat
    requires HasFixedPart(e) && i < NumReports(e)
  {
    DataStart(e, i) + LengthData(e, i)
  }

  function Runs(e: seq<Byte>, i: nat): (r: seq<seq<Byte>>)
    requires Consistent(e) && i <= NumReports(e)
    decreases NumReports(e) - i
  {
    if i == NumReports(e) then [] else [Run(e, i)] + Runs(e, i + 1)
  }

  lemma {:induction false} RunsFill(e: seq<Byte>, i: nat)
    requires Consistent(e) && i <= NumReports(e)
    ensures DataStart(e, i) <= |e| - NumReports(e)
    ensures Flat(Runs(e, i)) == e[DataStart(e, i)..|e| - NumReports(e)]
    decreases NumReports(e) - i
  {
    hide Before, Flat;
    BeforeGrows(e, i, NumReports(e));
    RunsStep(e, i);
    if i < NumReports(e) {
      RunInBounds(e, i);
      RunsFill(e, i + 1);
    }
  }

  lemma RunsStep(e: seq<Byte>, i: nat)
    requires Consistent(e) && i <= NumReports(e)
    ensures Flat(Runs(e, i)) == if i == NumReports(e) then [] else Run(e, i) + Flat(Runs(e, i + 1))
  {
    hide Run;
    if i < NumReports(e) {
      assert Runs(e, i)[1..] == Runs(e, i + 1);
    }
  }

  lemma StartsAtColumn(e: seq<Byte>)
    requires Consistent(e)
    ensures DataStart(e, 0) == 2 + 9 * NumReports(e)
  {
  }

  /** Every address and every length octet lies in its column. */
  ghost predicate ColumnsFit(e: seq<Byte>)
    requires Consistent(e)
  {
    var n := NumReports(e);
    forall i :: 0 <= i < n ==> 2 + 2 * n + 6 * i + 6 <= 2 + 8 * n && 2 + 8 * n + i < DataStart(e, 0)
  }

  /** A run ends where the next one starts, or before. */
  ghost predicate RunsAreOrdered(e: seq<Byte>)
    requires Consistent(e)
  {
    forall i: nat, j: nat :: i < j <= NumReports(e) ==> Follows(e, i, j)
  }

  ghost predicate Follows(e: seq<Byte>, i: nat, j: nat)
    requires Consistent(e) && i < j <= NumReports(e)
  {
    RunEnd(e, i) <= DataStart(e, j) <= |e| - NumReports(e)
  }

  lemma ColumnsDoFit(e: seq<Byte>)
    requires Consistent(e)
    ensures ColumnsFit(e) && DataStart(e, 0) == 2 + 9 * NumReports(e)
  {
    hide Before;
    StartsAtColumn(e);
  }

  lemma RunFollows(e: seq<Byte>, i: nat, j: nat)
    requires Consistent(e) && i < j <= NumReports(e)
    ensures Follows(e, i, j)
  {
    hide Before;
    RunInBounds(e, i);
    BeforeGrows(e, i + 1, j);
    BeforeGrows(e, j, NumReports(e));
  }

  lemma RunsDoFollow(e: seq<Byte>)
    requires Consistent(e)
    ensures RunsAreOrdered(e)
  {
    hide Follows, Before;
    forall i: nat, j: nat | i < j <= NumReports(e) ensures Follows(e, i, j) {
      RunFollows(e, i, j);
    }
  }

  lemma RunsEndAtColumn(e: seq<Byte>)
    requires Consistent(e)
    ensures DataStart(e, NumReports(e)) == |e| - NumReports(e)
  {
  }

  /** An accepted report is exactly its columns: every accessor of every report stays inside the payload,
      a run starts where the one before it ends, and the runs fill the space between the length column
      and the RSSI column. */
  lemma AcceptedReportsAreColumns(e: seq<Byte>)
    requires Consistent(e)
    ensures ColumnsFit(e) && RunsAreOrdered(e)
    ensures var n := NumReports(e);
            && DataStart(e, 0) == 2 + 9 * n && DataStart(e, n) == |e| - n
            && Flat(Runs(e, 0)) == e[2 + 9 * n..|e| - n]
  {
    hide Before, Flat, Runs, DataStart, ColumnsFit, RunsAreOrdered;
    ColumnsDoFit(e);
    RunsDoFollow(e);
    RunsEndAtColumn(e);
    RunsFill(e, 0);
  }

  // ---- Round trip ----

  datatype Report = Report(evtType: Byte, addrType: Byte, addr: seq<Byte>, data: seq<Byte>, rssi: Byte)

  predicate Encodable(rs: seq<Report>) {
    && 0 < |rs| < 0x100
    && forall i :: 0 <= i < |rs| ==> |rs[i].addr| == 6 && |rs[i].data| < 0x100
  }

  function EventTypes(rs: seq<Report>): seq<Byte> {
    seq(|rs|, i requires 0 <= i < |rs| => rs[i].evtType)
  }

  function AddressTypes(rs: seq<Report>): seq<Byte> {
    seq(|rs|, i requires 0 <= i < |rs| => rs[i].addrType)
  }

  function Lengths(rs: seq<Report>): seq<Byte>
    requires Encodable(rs)
  {
    seq<Byte>(|rs|, i requires 0 <= i < |rs| => |rs[i].data|)
  }

  function Rssis(rs: seq<Report>): seq<Byte> {
    seq(|rs|, i requires 0 <= i < |rs| => rs[i].rssi)
  }

  function Addresses(rs: seq<Report>): seq<seq<Byte>> {
    seq(|rs|, i requires 0 <= i < |rs| => rs[i].addr)
  }

  function Datas(rs: seq<Report>): seq<seq<Byte>> {
    seq(|rs|, i requires 0 <= i < |rs| => rs[i].data)
  }

  /** The columns in front of the data runs, and the payload a controller sends for a list of reports. */
  function FixedPart(rs: seq<Report>): seq<Byte>
    requires Encodable(rs)
  {
    [0x02, |rs|] + EventTypes(rs) + AddressTypes(rs) + Flat(Addresses(rs)) + Lengths(rs)
  }

  function Encode(rs: seq<Report>): seq<Byte>
    requires Encodable(rs)
  {
    FixedPart(rs) + Flat(Datas(rs)) + Rssis(rs)
  }

  lemma {:induction false} FlatSlice(ss: seq<seq<Byte>>, i: nat)
    requires i < |ss|
    ensures |Flat(ss[..i])| + |ss[i]| <= |Flat(ss)|
    ensures Flat(ss)[|Flat(ss[..i])|..|Flat(ss[..i])| + |ss[i]|] == ss[i]
    ensures Flat(ss[..i + 1]) == Flat(ss[..i]) + ss[i]
  {
    var one := [ss[i]];
    assert ss == ss[..i] + (one + ss[i + 1..]) && ss[..i + 1] == ss[..i] + one;
    assert (one + ss[i + 1..])[1..] == ss[i + 1..];
    FlatAppend(ss[..i], one + ss[i + 1..]);
    FlatAppend(ss[..i], one);
    assert one[1..] == [] && Flat(one) == ss[i] + Flat(one[1..]);
    assert Flat(ss) == Flat(ss[..i]) + (ss[i] + Flat(ss[i + 1..]));
  }

  lemma AddressesLength(rs: seq<Report>, i: nat)
    requires Encodable(rs) && i <= |rs|
    ensures |Flat(Addresses(rs)[..i])| == 6 * i && |Flat(Addresses(rs))| == 6 * |rs|
  {
    FlatLength(Addresses(rs)[..i], 6);
    FlatLength(Addresses(rs), 6);
  }

  lemma FixedPartFields(rs: seq<Report>, e: seq<Byte>, tail: seq<Byte>, i: nat)
    requires Encodable(rs) && e == FixedPart(rs) + tail && i < |rs|
    ensures |FixedPart(rs)| == 2 + 9 * |rs| && HasFixedPart(e) && NumReports(e) == |rs|
    ensures EventType(e, i) == rs[i].evtType && AddressType(e, i) == rs[i].addrType
    ensures AddressOf(e, i) == rs[i].addr && LengthData(e, i) == |rs[i].data|
  {
    hide Flat;
    AddressesLength(rs, i);
    FlatSlice(Addresses(rs), i);
    var n, f := |rs|, FixedPart(rs);
    assert |f| == 2 + 9 * n && e[1] == f[1] == n;
    assert e[2 + n * 2 + 6 * i..2 + n * 2 + 6 * i + 6] == Flat(Addresses(rs))[6 * i..6 * i + 6];
  }

  lemma {:induction false} BeforeIsLength(rs: seq<Report>, e: seq<Byte>, tail: seq<Byte>, i: nat)
    requires Encodable(rs) && e == FixedPart(rs) + tail && i <= |rs|
    ensures HasFixedPart(e) && NumReports(e) == |rs| && Before(e, i) == |Flat(Datas(rs)[..i])|
  {
    hide Flat, FixedPart;
    FixedPartFields(rs, e, tail, 0);
    if i > 0 {
      BeforeIsLength(rs, e, tail, i - 1);
      FixedPartFields(rs, e, tail, i - 1);
      FlatSlice(Datas(rs), i - 1);
    } else {
      NothingFlat(Datas(rs));
    }
  }

  lemma NothingFlat(ss: seq<seq<Byte>>)
    ensures Flat(ss[..0]) == []
  {
  }

  /** Every well-formed list of reports is accepted, and each accessor returns the report's field. */
  lemma EncodedReportsAreRead(rs: seq<Report>, i: nat)
    requires Encodable(rs) && i < |rs|
    ensures var e := Encode(rs);
            && Consistent(e) && NumReports(e) == |rs|
            && EventType(e, i) == rs[i].evtType && AddressType(e, i) == rs[i].addrType
            && AddressOf(e, i) == rs[i].addr && Run(e, i) == rs[i].data
            && e[|e| - |rs| + i] == rs[i].rssi
  {
    hide Flat, FixedPart, Before;
    var e, data := Encode(rs), Flat(Datas(rs));
    var tail := data + Rssis(rs);
    assert e == FixedPart(rs) + tail;
    FixedPartFields(rs, e, tail, i);
    BeforeIsLength(rs, e, tail, i);
    BeforeIsLength(rs, e, tail, |rs|);
    assert Datas(rs)[..|rs|] == Datas(rs);
    FlatSlice(Datas(rs), i);
    RunInBounds(e, i);
    MiddleSlice(FixedPart(rs), data, Rssis(rs), |Flat(Datas(rs)[..i])|, |rs[i].data|);
  }

  lemma MiddleSlice(xs: seq<Byte>, ys: seq<Byte>, zs: seq<Byte>, at: nat, n: nat)
    requires at + n <= |ys|
    ensures (xs + ys + zs)[|xs| + at..|xs| + at + n] == ys[at..at + n]
  {
  }
}
