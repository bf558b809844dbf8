/** Advertising packets: the AD-structure walk and builder (linux/adv/packet.go). */
module AdvPacket {
  import opened Bytes
  import opened Wrappers

  const MAX_EIR_PACKET_LENGTH := 31

  const SOME_UUID16: Byte := 0x02
  const ALL_UUID16: Byte := 0x03
  const SOME_UUID32: Byte := 0x04
  const ALL_UUID32: Byte := 0x05
  const SOME_UUID128: Byte := 0x06
  const ALL_UUID128: Byte := 0x07

  /** One AD structure. */
  datatype Structure = Structure(typ: Byte, data: seq<Byte>)

  // ---- The plain recursive parse ----

  /** A well-formed structure stands at the head of b: a length octet that covers at least the type, and
      that many octets. */
  predicate HasHead(b: seq<Byte>) {
    |b| >= 2 && b[0] >= 1 && |b| >= 1 + b[0] as int
  }

  /** The structures of a packet, up to the first malformed one. */
  function Parse(b: seq<Byte>): seq<Structure>
    decreases |b|
  {
    if !HasHead(b) then [] else [Structure(b[1], b[2..1 + b[0]])] + Parse(b[1 + b[0]..])
  }

  /** The data of the structures of one type, in order. */
  function OfType(ss: seq<Structure>, typ: Byte): seq<seq<Byte>> {
    if ss == [] then []
    else if ss[0].typ == typ then [ss[0].data] + OfType(ss[1..], typ)
    else OfType(ss[1..], typ)
  }

  /** Data cut into w-byte UUIDs; a shorter rest is dropped. */
  function Chunks(d: seq<Byte>, w: nat): seq<seq<Byte>>
    requires w > 0
    decreases |d|
  {
    if |d| < w then [] else [d[..w]] + Chunks(d[w..], w)
  }

  function AllChunks(ds: seq<seq<Byte>>, w: nat): seq<seq<Byte>>
    requires w > 0
  {
    if ds == [] then [] else Chunks(ds[0], w) + AllChunks(ds[1..], w)
  }

  /** A list of w-byte UUIDs is cut into just these, whatever shorter rest follows them. */
  lemma {:induction false} ChunksInvertFlat(us: seq<seq<Byte>>, rest: seq<Byte>, w: nat)
    requires |rest| < w && forall i :: 0 <= i < |us| ==> |us[i]| == w
    ensures Chunks(Flat(us) + rest, w) == us
  {
    if us != [] {
      var d := Flat(us) + rest;
      assert d == us[0] + (Flat(us[1..]) + rest);
      ChunksInvertFlat(us[1..], rest, w);
      assert us == [us[0]] + us[1..];
    }
  }

  /** Lists of UUIDs, each packed into the data of one structure. */
  function Packed(lists: seq<seq<seq<Byte>>>): (r: seq<seq<Byte>>) {
    if lists == [] then [] else [Flat(lists[0])] + Packed(lists[1..])
  }

  lemma {:induction false} AllChunksInvertPacked(lists: seq<seq<seq<Byte>>>, w: nat)
    requires w > 0 && forall k, i :: 0 <= k < |lists| && 0 <= i < |lists[k]| ==> |lists[k][i]| == w
    ensures AllChunks(Packed(lists), w) == Flat(lists)
  {
    hide Chunks;
    if lists != [] {
      ChunksInvertFlat(lists[0], [], w);
      assert Flat(lists[0]) + [] == Flat(lists[0]);
      AllChunksInvertPacked(lists[1..], w);
    }
  }

  lemma ParseStep(b: seq<Byte>, typ: Byte)
    requires HasHead(b)
    ensures var data, rest := b[2..1 + b[0]], OfType(Parse(b[1 + b[0]..]), typ);
            OfType(Parse(b), typ) == if b[1] == typ then [data] + rest else rest
  {
    assert Parse(b)[1..] == Parse(b[1 + b[0]..]);
  }

  lemma NoHead(b: seq<Byte>, typ: Byte)
    requires !HasHead(b)
    ensures OfType(Parse(b), typ) == []
  {
  }

  class Packet {
    var b: seq<Byte>

    constructor ()
      ensures b == []
    {
      b := [];
    }

    /** append: a structure that does not fit leaves the packet as it was. */
    method Append(typ: Byte, data: seq<Byte>) returns (ok: bool)
      modifies this
      ensures ok == Fits(old(b), data)
      ensures b == if ok then old(b) + Encoded(Structure(typ, data)) else old(b)
      ensures ok <==> |old(b)| + 2 + |data| <= 31
      ensures ok ==> b == old(b) + [|data| + 1, typ] + data
    {
      if |b| + 1 + 1 + |data| > MAX_EIR_PACKET_LENGTH {
        return false;
      }
      b := b + [LowByte(|data| + 1)];
      b := b + [typ];
      b := b + data;
      ok := true;
    }

    /** Field: the data of the first structure of a type. */
    method Field(typ: Byte) returns (r: Option<seq<Byte>>)
      ensures r == First(OfType(Parse(b), typ))
    {
      var rest := b;
      while rest != []
        invariant First(OfType(Parse(rest), typ)) == First(OfType(Parse(b), typ))
        decreases |rest|
      {
        if |rest| < 2 {
          return None;
        }
        var l: int, t := rest[0], rest[1];
        if l < 1 || |rest| < 1 + l {
          return None;
        }
        ParseStep(rest, typ);
        if t == typ {
          return Some(rest[2..1 + l]);
        }
        rest := rest[1 + l..];
      }
      r := None;
    }

    /** fieldPos: the next structure of a type at or behind an offset, and where to go on. */
    method FieldPos(typ: Byte, offset: nat) returns (r: Option<seq<Byte>>, pos: nat)
      ensures offset < |b| ==> offset < pos <= |b|
      ensures offset >= |b| ==> r == None && pos == |b|
      ensures offset < |b| ==>
                OfType(Parse(b[offset..]), typ) == (if r.Some? then [r.value] else []) + OfType(Parse(b[pos..]), typ)
      ensures offset < |b| && r == None ==> OfType(Parse(b[pos..]), typ) == []
    {
      hide OfType, Parse;
      if offset >= |b| {
        return None, |b|;
      }
      NoStructures(typ);
      var rest := b[offset..];
      pos := offset;
      if |rest| < 2 {
        NoHead(rest, typ);
        assert b[|b|..] == [];
        return None, pos + |rest|;
      }
      while rest != []
        invariant offset <= pos <= |b| && rest == b[pos..] && (pos == offset || |rest| >= 2)
        invariant OfType(Parse(b[offset..]), typ) == OfType(Parse(rest), typ)
        invariant |rest| >= 2
        decreases |rest|
      {
        var l: int, t := rest[0], rest[1];
        if l < 1 || |rest| < 1 + l {
          NoHead(rest, typ);
          assert b[|b|..] == [];
          return None, pos + |rest|;
        }
        ParseStep(rest, typ);
        if t == typ {
          assert rest[1 + l..] == b[pos + 1 + l..];
          return Some(rest[2..1 + l]), pos + 1 + l;
        }
        rest := rest[1 + l..];
        pos := pos + 1 + l;
        assert rest == b[pos..];
        if |rest| < 2 {
          NoHead(rest, typ);
          break;
        }
      }
      r := None;
    }

    /** uuidList */
    method UuidList(u: seq<seq<Byte>>, data: seq<Byte>, w: nat) returns (r: seq<seq<Byte>>)
      requires w > 0
      ensures r == u + Chunks(data, w)
    {
      r := u;
      var d := data;
      while |d| >= w
        invariant r + Chunks(d, w) == u + Chunks(data, w)
        decreases |d|
      {
        r := r + [d[..w]];
        d := d[w..];
      }
    }

    /** getUUIDsByType: the offset-based walk finds the UUIDs of every structure of the type, in order. */
    method UUIDsByType(typ: Byte, u: seq<seq<Byte>>, w: nat) returns (r: seq<seq<Byte>>)
      requires w > 0
      ensures r == u + AllChunks(OfType(Parse(b), typ), w)
    {
      hide Chunks, Parse, OfType;
      r := u;
      var pos := 0;
      assert b[0..] == b;
      while pos < |b|
        invariant 0 <= pos <= |b|
        invariant r + AllChunks(OfType(Parse(b[pos..]), typ), w) == u + AllChunks(OfType(Parse(b), typ), w)
        decreases |b| - pos
      {
        ghost var before := OfType(Parse(b[pos..]), typ);
        var data;
        data, pos := FieldPos(typ, pos);
        if data.Some? {
          assert before[1..] == OfType(Parse(b[pos..]), typ);
          r := UuidList(r, data.value, w);
        } else {
          assert before == OfType(Parse(b[pos..]), typ);
        }
      }
      assert b[pos..] == [];
      NoStructures(typ);
    }

    /** UUIDs: incomplete and complete lists of 16, 32 and 128-bit service UUIDs. */
    method UUIDs() returns (u: seq<seq<Byte>>)
      ensures var ss := Parse(b);
              u == AllChunks(OfType(ss, SOME_UUID16), 2) + AllChunks(OfType(ss, ALL_UUID16), 2)
                   + AllChunks(OfType(ss, SOME_UUID32), 4) + AllChunks(OfType(ss, ALL_UUID32), 4)
                   + AllChunks(OfType(ss, SOME_UUID128), 16) + AllChunks(OfType(ss, ALL_UUID128), 16)
    {
      hide AllChunks, Parse, OfType;
      u := UUIDsByType(SOME_UUID16, [], 2);
      assert [] + AllChunks(OfType(Parse(b), SOME_UUID16), 2) == AllChunks(OfType(Parse(b), SOME_UUID16), 2);
      u := UUIDsByType(ALL_UUID16, u, 2);
      u := UUIDsByType(SOME_UUID32, u, 4);
      u := UUIDsByType(ALL_UUID32, u, 4);
      u := UUIDsByType(SOME_UUID128, u, 16);
      u := UUIDsByType(ALL_UUID128, u, 16);
    }
  }

  lemma NoStructures(typ: Byte)
    ensures OfType(Parse([]), typ) == []
  {
  }

  function First(ds: seq<seq<Byte>>): Option<seq<Byte>> {
    if ds == [] then None else Some(ds[0])
  }

  // ---- Building and parsing ----

  predicate Fits(b: seq<Byte>, data: seq<Byte>) {
    |b| + 2 + |data| <= MAX_EIR_PACKET_LENGTH
  }

  function Encoded(s: Structure): seq<Byte> {
    [LowByte(|s.data| + 1), s.typ] + s.data
  }

  /** The bytes after a series of Append calls, and the structures that fitted. */
  function Build(b: seq<Byte>, calls: seq<Structure>): seq<Byte>
    decreases |calls|
  {
    if calls == [] then b
    else Build(if Fits(b, calls[0].data) then b + Encoded(calls[0]) else b, calls[1..])
  }

  function Kept(b: seq<Byte>, calls: seq<Structure>): seq<Structure>
    decreases |calls|
  {
    if calls == [] then []
    else if Fits(b, calls[0].data) then [calls[0]] + Kept(b + Encoded(calls[0]), calls[1..])
    else Kept(b, calls[1..])
  }

  /** A byte string that parses completely. */
  predicate WellFormed(b: seq<Byte>)
    decreases |b|
  {
    b == [] || (HasHead(b) && WellFormed(b[1 + b[0]..]))
  }

  lemma ParseOne(s: Structure)
    requires |s.data| + 1 < 0x100
    ensures WellFormed(Encoded(s)) && Parse(Encoded(s)) == [s]
  {
    var e := Encoded(s);
    assert e[0] == |s.data| + 1 && e[1 + e[0]..] == [] && e[2..1 + e[0]] == s.data;
  }

  /** Appending behind the first structure. */
  lemma ParseHead(b: seq<Byte>, e: seq<Byte>)
    requires HasHead(b)
    ensures HasHead(b + e)
    ensures var n := 1 + b[0] as int; (b + e)[n..] == b[n..] + e && (b + e)[2..n] == b[2..n]
  {
  }

  lemma FirstParsed(b: seq<Byte>)
    requires HasHead(b)
    ensures WellFormed(b) <==> WellFormed(b[1 + b[0]..])
    ensures Parse(b) == [Structure(b[1], b[2..1 + b[0]])] + Parse(b[1 + b[0]..])
  {
  }

  lemma {:induction false} ParseAppend(b: seq<Byte>, s: Structure)
    requires WellFormed(b) && |s.data| + 1 < 0x100
    ensures WellFormed(b + Encoded(s)) && Parse(b + Encoded(s)) == Parse(b) + [s]
    decreases |b|
  {
    hide Encoded, Parse, HasHead, WellFormed;
    if b == [] {
      ParseOne(s);
      NoneParsed();
      assert b + Encoded(s) == Encoded(s);
    } else {
      HeadOfWellFormed(b);
      var e, rest := Encoded(s), b[1 + b[0]..];
      ParseHead(b, e);
      FirstParsed(b);
      ParseAppend(rest, s);
      FirstParsed(b + e);
    }
  }

  lemma HeadOfWellFormed(b: seq<Byte>)
    requires WellFormed(b) && b != []
    ensures HasHead(b) && |b| >= 2 && 1 + b[0] as int <= |b|
  {
  }

  lemma NoneParsed()
    ensures Parse([]) == []
  {
  }

  /** Any series of appends from a well-formed packet keeps it within 31 bytes and well formed, and the
      packet parses as what it held followed by the structures that fitted. */
  lemma {:induction false} ParseInvertsBuild(b: seq<Byte>, calls: seq<Structure>)
    requires WellFormed(b) && |b| <= MAX_EIR_PACKET_LENGTH
    ensures var r := Build(b, calls);
            |r| <= MAX_EIR_PACKET_LENGTH && WellFormed(r) && Parse(r) == Parse(b) + Kept(b, calls)
    decreases |calls|
  {
    if calls != [] {
      var s := calls[0];
      if Fits(b, s.data) {
        ParseAppend(b, s);
        ParseInvertsBuild(b + Encoded(s), calls[1..]);
      } else {
        ParseInvertsBuild(b, calls[1..]);
      }
    }
  }

  /** From an empty packet, Field finds the first data appended under the type. */
  lemma FieldFindsFirstAppended(calls: seq<Structure>, typ: Byte)
    ensures First(OfType(Parse(Build([], calls)), typ)) == First(OfType(Kept([], calls), typ))
  {
    ParseInvertsBuild([], calls);
    assert Parse([]) + Kept([], calls) == Kept([], calls);
  }

  /** From an empty packet, the UUIDs found under a type are those of every list appended under it, in
      order. */
  lemma AppendedUUIDsAreFound(calls: seq<Structure>, typ: Byte, lists: seq<seq<seq<Byte>>>, w: nat)
    requires w > 0 && OfType(Kept([], calls), typ) == Packed(lists)
    requires forall k, i :: 0 <= k < |lists| && 0 <= i < |lists[k]| ==> |lists[k][i]| == w
    ensures AllChunks(OfType(Parse(Build([], calls)), typ), w) == Flat(lists)
  {
    ParseInvertsBuild([], calls);
    assert Parse([]) + Kept([], calls) == Kept([], calls);
    AllChunksInvertPacked(lists, w);
  }
}
