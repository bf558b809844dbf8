/** L2CAP PDUs as trains of ACL packets, and back (linux/hci/conn.go). */
module Fragments {
  import opened Bytes
  import opened Wrappers

  const PKT_TYPE_ACL_DATA: Byte := 0x02
  const PBF_HOST_TO_CONTROLLER_START := 0x00
  const PBF_CONTINUING := 0x01
  const CID_LE_ATT := 0x04

  type Packet = seq<Byte>

  /** A fragment: the boundary flag and the payload. */
  datatype Piece = Piece(pbf: int, data: seq<Byte>)

  // ---- ACL packets ----

  /** writeACLData: packet type, handle with flags, length, payload. */
  function AclPacket(handleFlags: int, payload: seq<Byte>): (p: seq<Byte>)
    ensures |p| == 5 + |payload|
  {
    [PKT_TYPE_ACL_DATA] + PutU16(Wrap(handleFlags)) + PutU16(Wrap(|payload|)) + payload
  }

  /** The accessors of a received packet, whose packet type octet has been stripped. */
  function HandleOf(a: Packet): int
    requires |a| >= 4
  {
    a[0] as int + 0x100 * (a[1] as int % 0x10)
  }

  function PbfOf(a: Packet): int
    requires |a| >= 2
  {
    a[1] as int / 0x10 % 4
  }

  function DataOf(a: Packet): seq<Byte>
    requires |a| >= 4
  {
    a[4..]
  }

  /** What is written under a handle and a boundary flag is read back. */
  lemma PacketRoundTrip(handle: int, pbf: int, payload: seq<Byte>)
    requires 0 <= handle < 0x1000 && 0 <= pbf < 4 && |payload| < 0x1_0000
    ensures var a := AclPacket(handle + 0x1000 * pbf, payload)[1..];
            |a| >= 4 && HandleOf(a) == handle && PbfOf(a) == pbf && U16At(a, 2) == |payload| && DataOf(a) == payload
  {
    var w := handle + 0x1000 * pbf;
    assert Wrap(w) == w && Wrap(|payload|) == |payload|;
    var a := AclPacket(w, payload)[1..];
    assert a[0] == w % 0x100 && a[1] == w / 0x100;
    assert w / 0x100 == handle / 0x100 + 0x10 * pbf;
    U16RoundTrip(|payload|);
    assert [a[2], a[3]] == PutU16(|payload|);
  }

  /** The octets of a packet [Vol 2, Part E, 5.4.2]: the boundary flag stands above the handle's high bits. */
  lemma PacketBytes(handle: int, pbf: int, payload: seq<Byte>)
    requires 0 <= handle < 0x1000 && 0 <= pbf < 4 && |payload| < 0x1_0000
    ensures AclPacket(handle + 0x1000 * pbf, payload)
         == [0x02, handle % 0x100, handle / 0x100 + 0x10 * pbf, |payload| % 0x100, |payload| / 0x100] + payload
  {
    var w := handle + 0x1000 * pbf;
    assert Wrap(w) == w && Wrap(|payload|) == |payload|;
    assert w / 0x100 == handle / 0x100 + 0x10 * pbf && w % 0x100 == handle % 0x100;
  }

  // ---- Fragmenting ----

  /** The L2CAP PDU of an SDU on the ATT channel. */
  function AttPdu(sdu: seq<Byte>): seq<Byte> {
    PutU16(Wrap(|sdu|)) + PutU16(CID_LE_ATT) + sdu
  }

  /** Its octets [Vol 3, Part A, 3.1]: the length, channel 0x0004, and the SDU. */
  lemma AttPduBytes(sdu: seq<Byte>)
    requires |sdu| < 0x1_0000
    ensures AttPdu(sdu) == [|sdu| % 0x100, |sdu| / 0x100, 0x04, 0x00] + sdu
  {
    assert Wrap(|sdu|) == |sdu|;
  }

  /** A PDU cut into pieces of at most `room` bytes; only the first is flagged as a start. */
  function Train(pdu: seq<Byte>, room: nat, first: bool): (r: seq<Piece>)
    requires room > 0
    decreases |pdu|
  {
    if pdu == [] then []
    else
      var n := Min(|pdu|, room);
      [Piece(Flag(first), pdu[..n])] + Train(pdu[n..], room, false)
  }

  /** How one turn of writePDU's loop ends: the fragment is written, or no credit came, or the connection
      was closed before the write, or the socket refused it. */
  datatype Fate = Written | NoCredit | Closed | SocketError

  function Payload(ps: seq<Piece>): seq<Byte> {
    if ps == [] then [] else ps[0].data + Payload(ps[1..])
  }

  lemma {:induction false} PayloadSnoc(ps: seq<Piece>, p: Piece)
    ensures Payload(ps + [p]) == Payload(ps) + p.data
  {
    if ps == [] {
      assert [p][1..] == [];
    } else {
      assert (ps + [p])[1..] == ps[1..] + [p];
      PayloadSnoc(ps[1..], p);
    }
  }

  /** The packets of a connection. */
  function OnWire(handle: int, ps: seq<Piece>): (r: seq<seq<Byte>>)
    ensures |r| == |ps| && forall i :: 0 <= i < |r| ==> |r[i]| == 5 + |ps[i].data|
  {
    seq(|ps|, i requires 0 <= i < |ps| => AclPacket(handle + 0x1000 * ps[i].pbf, ps[i].data))
  }

  /** What is written of a train, and why no more. */
  datatype Delivery = Delivery(written: seq<Piece>, err: Option<Fate>)

  function Deliver(train: seq<Piece>, fate: nat -> Fate, i: nat): Delivery
    decreases |train|
  {
    if train == [] then Delivery([], None)
    else if fate(i) != Written then Delivery([], Some(fate(i)))
    else
      var d := Deliver(train[1..], fate, i + 1);
      Delivery([train[0]] + d.written, d.err)
  }

  /** The fragments written are those before the first turn that fails. */
  lemma {:induction false} DeliverIsPrefix(train: seq<Piece>, fate: nat -> Fate, i: nat)
    ensures var d := Deliver(train, fate, i);
            var k := |d.written|;
            && k <= |train| && d.written == train[..k]
            && (forall j :: i <= j < i + k ==> fate(j) == Written)
            && d.err == (if k == |train| then None else Some(fate(i + k))) && d.err != Some(Written)
    decreases |train|
  {
    if train != [] && fate(i) == Written {
      DeliverIsPrefix(train[1..], fate, i + 1);
    }
  }

  /** One turn of the loop, when `done` is written. */
  lemma DeliverStep(p: Piece, rest: seq<Piece>, fate: nat -> Fate, i: nat, done: seq<Piece>)
    ensures var d, e := Deliver([p] + rest, fate, i), Deliver(rest, fate, i + 1);
            if fate(i) != Written then done + d.written == done && d.err == Some(fate(i))
            else done + d.written == (done + [p]) + e.written && d.err == e.err
  {
    assert ([p] + rest)[1..] == rest;
  }

  lemma DeliverNothing(fate: nat -> Fate, i: nat, done: seq<Piece>)
    ensures done + Deliver([], fate, i).written == done && Deliver([], fate, i).err == None
  {
  }

  function Flag(first: bool): int {
    if first then PBF_HOST_TO_CONTROLLER_START else PBF_CONTINUING
  }

  lemma TrainStep(pdu: seq<Byte>, room: nat, first: bool)
    requires room > 0 && pdu != []
    ensures var n := Min(|pdu|, room);
            Train(pdu, room, first) == [Piece(Flag(first), pdu[..n])] + Train(pdu[n..], room, false)
  {
  }

  lemma NoTrain(room: nat, first: bool)
    requires room > 0
    ensures Train([], room, first) == []
  {
  }

  /** The fragments of a train: pieces of at most `room` bytes, only the first flagged as a start. */
  lemma {:induction false} TrainShape(pdu: seq<Byte>, room: nat, first: bool)
    requires room > 0
    ensures var ps := Train(pdu, room, first);
            && (forall i :: 0 <= i < |ps| ==> 0 < |ps[i].data| <= room)
            && (forall i :: 0 <= i < |ps| ==> ps[i].pbf == if first && i == 0 then 0x00 else 0x01)
            && Payload(ps) == pdu && (pdu != [] ==> ps != [] && |ps[0].data| == Min(|pdu|, room))
    decreases |pdu|
  {
    hide Train, Payload;
    if pdu == [] {
      NoTrain(room, first);
      NothingSent(0);
    } else {
      var n := Min(|pdu|, room);
      var p, rest := Piece(Flag(first), pdu[..n]), Train(pdu[n..], room, false);
      TrainStep(pdu, room, first);
      TrainShape(pdu[n..], room, false);
      FirstPayload(p, rest);
      assert forall i :: 1 <= i < |rest| + 1 ==> ([p] + rest)[i] == rest[i - 1];
    }
  }

  lemma FirstPayload(p: Piece, rest: seq<Piece>)
    ensures Payload([p] + rest) == p.data + Payload(rest)
  {
    assert ([p] + rest)[1..] == rest;
  }

  // ---- What the controller sees ----

  /** The PDUs of a connection's packets, by their boundary flags alone: each packet flagged 0x00 begins a
      PDU, those flagged 0x01 behind it continue it, and a continuation of no PDU is nothing. */
  function Delimited(pkts: seq<seq<Byte>>): seq<seq<Byte>>
    requires forall i :: 0 <= i < |pkts| ==> |pkts[i]| >= 5
    decreases |pkts|
  {
    if pkts == [] then []
    else if pkts[0][2] / 0x10 % 4 != 0x00 then Delimited(pkts[1..])
    else
      var k := 1 + Continued(pkts[1..]);
      [Contents(pkts[..k])] + Delimited(pkts[k..])
  }

  function Continued(pkts: seq<seq<Byte>>): (k: nat)
    requires forall i :: 0 <= i < |pkts| ==> |pkts[i]| >= 5
    ensures k <= |pkts|
  {
    if pkts == [] || pkts[0][2] / 0x10 % 4 != 0x01 then 0 else 1 + Continued(pkts[1..])
  }

  /** What packets carry behind their headers. */
  function Contents(pkts: seq<seq<Byte>>): seq<Byte>
    requires forall i :: 0 <= i < |pkts| ==> |pkts[i]| >= 5
  {
    if pkts == [] then [] else pkts[0][5..] + Contents(pkts[1..])
  }

  /** The packets of one PDU: data packets of the connection, the first flagged as its start, the others
      as continuing it. */
  ghost predicate FlaggedAsOne(handle: int, pkts: seq<seq<Byte>>) {
    forall i :: 0 <= i < |pkts| ==> FlaggedAs(handle, pkts[i], if i == 0 then 0x00 else 0x01)
  }

  ghost predicate FlaggedAs(handle: int, pkt: seq<Byte>, flag: int) {
    && |pkt| > 5 && pkt[0] == 0x02 && pkt[1] == handle % 0x100
    && pkt[2] as int == handle / 0x100 + 0x10 * flag && pkt[2] / 0x10 % 4 == flag
  }

  lemma {:induction false} ContentsIsPayload(handle: int, ps: seq<Piece>)
    requires 0 <= handle < 0x1000
    requires forall i :: 0 <= i < |ps| ==> 0 <= ps[i].pbf < 4 && |ps[i].data| < 0x1_0000
    ensures Contents(OnWire(handle, ps)) == Payload(ps)
  {
    hide AclPacket;
    if ps != [] {
      PacketBytes(handle, ps[0].pbf, ps[0].data);
      ContentsIsPayload(handle, ps[1..]);
      assert OnWire(handle, ps)[1..] == OnWire(handle, ps[1..]);
    }
  }

  lemma {:induction false} PayloadOfPrefix(ps: seq<Piece>, k: nat)
    requires k <= |ps|
    ensures Payload(ps[..k]) <= Payload(ps)
  {
    if k > 0 {
      PayloadOfPrefix(ps[1..], k - 1);
      assert ps[..k][1..] == ps[1..][..k - 1];
    }
  }

  /** The first k fragments of a PDU, as packets. */
  lemma TrainIsFlagged(handle: int, pdu: seq<Byte>, room: nat, k: nat)
    requires 0 <= handle < 0x1000 && 0 < room < 0x1_0000 && k <= |Train(pdu, room, true)|
    ensures var pkts := OnWire(handle, Train(pdu, room, true)[..k]);
            && FlaggedAsOne(handle, pkts) && Contents(pkts) <= pdu
            && (k == |Train(pdu, room, true)| ==> Contents(pkts) == pdu)
  {
    hide Train, Contents, AclPacket, Payload;
    var ps := Train(pdu, room, true);
    TrainShape(pdu, room, true);
    ContentsIsPayload(handle, ps[..k]);
    PayloadOfPrefix(ps, k);
    assert ps[..|ps|] == ps;
    forall i | 0 <= i < k ensures FlaggedAs(handle, OnWire(handle, ps[..k])[i], if i == 0 then 0x00 else 0x01) {
      PacketBytes(handle, ps[i].pbf, ps[i].data);
    }
  }

  class Sender {
    const handle: int
    /** The capacity of the pool's buffers. */
    const bufCap: nat
    var txMTU: int
    /** The packets handed to the socket for this connection. */
    var wire: seq<seq<Byte>>

    constructor (handle: int, bufSize: nat)
      ensures this.handle == handle && bufCap == 1 + 4 + bufSize && txMTU == 23 && wire == []
    {
      this.handle, bufCap, txMTU, wire := handle, 1 + 4 + bufSize, 23, [];
    }

    /** The packets behind those of `before` carry a PDU, flagged as one, as far as it was written. */
    ghost predicate Carried(before: seq<seq<Byte>>, now: seq<seq<Byte>>, pdu: seq<Byte>, all: bool) {
      && before <= now
      && var pkts := now[|before|..];
      && FlaggedAsOne(handle, pkts) && Contents(pkts) <= pdu
      && (all ==> Contents(pkts) == pdu)
    }

    lemma WrittenIsCarried(before: seq<seq<Byte>>, pdu: seq<Byte>, fate: nat -> Fate)
      requires 0 <= handle < 0x1000 && 0 < bufCap - 5 < 0x1_0000
      ensures var d := Deliver(Train(pdu, bufCap - 5, true), fate, 0);
              Carried(before, before + OnWire(handle, d.written), pdu, d.err == None)
    {
      hide Train, Deliver, Contents, AclPacket, FlaggedAsOne;
      var train := Train(pdu, bufCap - 5, true);
      var d := Deliver(train, fate, 0);
      DeliverIsPrefix(train, fate, 0);
      TrainIsFlagged(handle, pdu, bufCap - 5, |d.written|);
      assert (before + OnWire(handle, d.written))[|before|..] == OnWire(handle, d.written);
    }

    /** writePDU, with the connection's train mutex held. `fate` decides each turn of the loop. The wire
        gets the fragments of the train up to the first that is not written; the count says how many
        bytes those carry, except that closing the connection mid-train reports none. */
    method WritePDU(pdu: seq<Byte>, fate: nat -> Fate) returns (sent: nat, err: Option<Fate>)
      requires bufCap > 5
      modifies this`wire
      ensures var d := Deliver(Train(pdu, bufCap - 5, true), fate, 0);
              && wire == old(wire) + OnWire(handle, d.written)
              && err == d.err
              && sent == if err == Some(Closed) then 0 else |Payload(d.written)|
      ensures 0 <= handle < 0x1000 && bufCap - 5 < 0x1_0000 ==> Carried(old(wire), wire, pdu, err == None)
    {
      hide Payload, Train, Deliver, OnWire, AclPacket, Carried;
      ghost var before := wire;
      if 0 <= handle < 0x1000 && bufCap - 5 < 0x1_0000 {
        WrittenIsCarried(before, pdu, fate);
      }
      ghost var d := Deliver(Train(pdu, bufCap - 5, true), fate, 0);
      ghost var done: seq<Piece> := [];
      var first := true;
      var rest := pdu;
      var turn := 0;
      sent := 0;
      NothingSent(handle);
      assert old(wire) + OnWire(handle, done) == wire && done + d.written == d.written;
      while rest != []
        invariant 0 <= turn
        invariant sent == |Payload(done)|
        invariant wire == old(wire) + OnWire(handle, done)
        invariant done + Deliver(Train(rest, bufCap - 5, first), fate, turn).written == d.written
        invariant Deliver(Train(rest, bufCap - 5, first), fate, turn).err == d.err
        decreases |rest|
      {
        var flen := |rest|;
        if flen > bufCap - 1 - 4 {
          flen := bufCap - 1 - 4;
        }
        TrainStep(rest, bufCap - 5, first);
        DeliverStep(Piece(Flag(first), rest[..flen]), Train(rest[flen..], bufCap - 5, false), fate, turn, done);
        match fate(turn) {
          case NoCredit => return sent, Some(NoCredit);
          case Closed => return 0, Some(Closed);
          case SocketError => return sent, Some(SocketError);
          case Written =>
        }
        Flush(Flag(first), rest[..flen], old(wire), done);
        done := done + [Piece(Flag(first), rest[..flen])];
        sent := sent + flen;
        first := false;
        rest := rest[flen..];
        turn := turn + 1;
      }
      NoTrain(bufCap - 5, first);
      DeliverNothing(fate, turn, done);
      err := None;
    }

    /** Writes one fragment behind those of `done`. */
    method Flush(flags: int, data: seq<Byte>, ghost before: seq<seq<Byte>>, ghost done: seq<Piece>)
      requires wire == before + OnWire(handle, done)
      modifies this`wire
      ensures var now := done + [Piece(flags, data)];
              wire == before + OnWire(handle, now) && |Payload(now)| == |Payload(done)| + |data|
    {
      hide Payload, OnWire, AclPacket;
      PayloadSnoc(done, Piece(flags, data));
      OnWireSnoc(handle, done, Piece(flags, data));
      wire := wire + [AclPacket(handle + 0x1000 * flags, data)];
    }

    /** Write: one PDU per SDU, which must fit the transmit MTU. */
    method Write(sdu: seq<Byte>, fate: nat -> Fate) returns (r: Option<(nat, Option<Fate>)>)
      requires bufCap > 5
      modifies this`wire
      ensures if |sdu| > txMTU then r == None && wire == old(wire)
              else
                var d := Deliver(Train(AttPdu(sdu), bufCap - 5, true), fate, 0);
                && r.Some? && wire == old(wire) + OnWire(handle, d.written) && r.value.1 == d.err
                && r.value.0 == if d.err == Some(Closed) then 0 else |Payload(d.written)|
      ensures 0 <= handle < 0x1000 && bufCap - 5 < 0x1_0000 && |sdu| <= txMTU && |sdu| < 0x1_0000 ==>
                Carried(old(wire), wire, [|sdu| % 0x100, |sdu| / 0x100, 0x04, 0x00] + sdu, r.value.1 == None)
    {
      hide Payload, Train, AttPdu, Carried, Deliver;
      if |sdu| > txMTU {
        return None;
      }
      if |sdu| < 0x1_0000 {
        AttPduBytes(sdu);
      }
      var sent, err := WritePDU(AttPdu(sdu), fate);
      r := Some((sent, err));
    }
  }

  lemma NothingSent(handle: int)
    ensures OnWire(handle, []) == [] && Payload([]) == []
  {
  }

  lemma OnWireSnoc(handle: int, ps: seq<Piece>, p: Piece)
    ensures OnWire(handle, ps + [p]) == OnWire(handle, ps) + [AclPacket(handle + 0x1000 * p.pbf, p.data)]
  {
  }

  // ---- Trains of concurrent writers ----

  /** A goroutine inside writePDU: what is left of its PDU, and whether it has written a fragment. */
  datatype Writer = Writer(rest: seq<Byte>, first: bool)

  /** The fragments on the socket, each with its connection; per connection, who holds the train mutex
      and the PDUs whose writers have taken it, in that order. */
  datatype Air = Air(wire: seq<(int, Piece)>, holder: map<int, Writer>, log: map<int, seq<seq<Byte>>>)

  /** A goroutine takes a connection's free mutex to send a PDU; the holder writes its next fragment; the
      holder, with nothing left, releases. */
  datatype Turn = Take(handle: int, pdu: seq<Byte>) | Fragment(handle: int) | Release(handle: int)

  function Log(s: Air, h: int): seq<seq<Byte>> {
    if h in s.log then s.log[h] else []
  }

  function Next(s: Air, t: Turn, room: nat): Air
    requires room > 0
  {
    match t
    case Take(h, pdu) =>
      if h in s.holder then s
      else s.(holder := s.holder[h := Writer(pdu, true)], log := s.log[h := Log(s, h) + [pdu]])
    case Fragment(h) =>
      if h !in s.holder || s.holder[h].rest == [] then s
      else
        var w := s.holder[h];
        var n := Min(|w.rest|, room);
        s.(wire := s.wire + [(h, Piece(Flag(w.first), w.rest[..n]))],
           holder := s.holder[h := Writer(w.rest[n..], false)])
    case Release(h) => if h !in s.holder || s.holder[h].rest != [] then s else s.(holder := s.holder - {h})
  }

  function Play(s: Air, turns: seq<Turn>, room: nat): Air
    requires room > 0
    decreases |turns|
  {
    if turns == [] then s else Play(Next(s, turns[0], room), turns[1..], room)
  }

  /** The fragments on one connection. */
  function Mine(wire: seq<(int, Piece)>, h: int): seq<Piece> {
    if wire == [] then [] else (if wire[0].0 == h then [wire[0].1] else []) + Mine(wire[1..], h)
  }

  lemma MineFirst(e: (int, Piece), rest: seq<(int, Piece)>, h: int)
    ensures Mine([e] + rest, h) == (if e.0 == h then [e.1] else []) + Mine(rest, h)
    ensures Mine([], h) == []
  {
    assert ([e] + rest)[1..] == rest;
  }

  lemma {:induction false} MineSnoc(wire: seq<(int, Piece)>, e: (int, Piece), h: int)
    ensures Mine(wire + [e], h) == Mine(wire, h) + if e.0 == h then [e.1] else []
  {
    hide Mine;
    if wire == [] {
      MineFirst(e, [], h);
      assert wire + [e] == [e] + [];
    } else {
      var rest := wire[1..];
      MineSnoc(rest, e, h);
      MineFirst(wire[0], rest, h);
      MineFirst(wire[0], rest + [e], h);
      assert wire == [wire[0]] + rest && wire + [e] == [wire[0]] + (rest + [e]);
    }
  }

  /** Whole trains, one per PDU, first one first. */
  function Trains(pdus: seq<seq<Byte>>, room: nat): seq<Piece>
    requires room > 0
  {
    if pdus == [] then [] else Train(pdus[0], room, true) + Trains(pdus[1..], room)
  }

  lemma {:induction false} TrainsSnoc(pdus: seq<seq<Byte>>, pdu: seq<Byte>, room: nat)
    requires room > 0
    ensures Trains(pdus + [pdu], room) == Trains(pdus, room) + Train(pdu, room, true)
  {
    hide Train;
    if pdus == [] {
      assert [pdu][1..] == [];
    } else {
      assert (pdus + [pdu])[1..] == pdus[1..] + [pdu];
      TrainsSnoc(pdus[1..], pdu, room);
    }
  }

  /** What the holder still has to send. */
  function Remaining(s: Air, h: int, room: nat): seq<Piece>
    requires room > 0
  {
    if h in s.holder then Train(s.holder[h].rest, room, s.holder[h].first) else []
  }

  /** A connection's fragments, with what its current writer still owes, are whole trains in lock order. */
  ghost predicate WholeTrains(s: Air, room: nat, h: int)
    requires room > 0
  {
    Mine(s.wire, h) + Remaining(s, h, room) == Trains(Log(s, h), room)
  }

  lemma Reassociate(xs: seq<Piece>, p: Piece, ys: seq<Piece>)
    ensures (xs + [p]) + ys == xs + ([p] + ys)
  {
  }

  lemma TurnKeepsTrains(s: Air, t: Turn, room: nat, h: int)
    requires room > 0 && WholeTrains(s, room, h)
    ensures WholeTrains(Next(s, t, room), room, h)
  {
    hide Mine, Train, Trains;
    var r := Next(s, t, room);
    match t {
      case Take(g, pdu) =>
        if g !in s.holder && g == h {
          TrainsSnoc(Log(s, h), pdu, room);
          assert Mine(s.wire, h) + Remaining(s, h, room) == Mine(s.wire, h);
        }
      case Fragment(g) =>
        if g in s.holder && s.holder[g].rest != [] {
          var w := s.holder[g];
          var p := Piece(Flag(w.first), w.rest[..Min(|w.rest|, room)]);
          MineSnoc(s.wire, (g, p), h);
          if g == h {
            TrainStep(w.rest, room, w.first);
            Reassociate(Mine(s.wire, h), p, Remaining(r, h, room));
          }
        }
      case Release(g) =>
        if g in s.holder && s.holder[g].rest == [] && g == h {
          NoTrain(room, s.holder[g].first);
        }
    }
  }

  lemma {:induction false} TurnsKeepTrains(s: Air, turns: seq<Turn>, room: nat, h: int)
    requires room > 0 && WholeTrains(s, room, h)
    ensures WholeTrains(Play(s, turns, room), room, h)
    decreases |turns|
  {
    hide WholeTrains, Next;
    if turns != [] {
      TurnKeepsTrains(s, turns[0], room, h);
      TurnsKeepTrains(Next(s, turns[0], room), turns[1..], room, h);
    }
  }

  /** With any number of writers on any connections, in any interleaving, the fragments of a connection
      whose mutex is free are the whole trains of the PDUs written to it, in the order the writers took
      the mutex; no two trains of a connection interleave. */
  lemma TrainsDoNotInterleave(turns: seq<Turn>, room: nat, h: int)
    requires room > 0
    ensures var s := Play(Air([], map[], map[]), turns, room);
            && Mine(s.wire, h) + Remaining(s, h, room) == Trains(Log(s, h), room)
            && (h !in s.holder ==> Mine(s.wire, h) == Trains(Log(s, h), room))
  {
    var start := Air([], map[], map[]);
    TurnsKeepTrains(start, turns, room, h);
    var s := Play(start, turns, room);
    assert Mine(s.wire, h) + [] == Mine(s.wire, h);
  }

  lemma {:induction false} ContinuedOver(xs: seq<seq<Byte>>, ys: seq<seq<Byte>>)
    requires forall i :: 0 <= i < |xs| ==> |xs[i]| >= 5 && xs[i][2] / 0x10 % 4 == 0x01
    requires forall i :: 0 <= i < |ys| ==> |ys[i]| >= 5
    requires ys != [] ==> ys[0][2] / 0x10 % 4 == 0x00
    ensures Continued(xs + ys) == |xs|
  {
    if xs == [] {
      assert xs + ys == ys;
    } else {
      assert (xs + ys)[1..] == xs[1..] + ys;
      ContinuedOver(xs[1..], ys);
    }
  }

  /** A PDU's packets, with nothing or another PDU's behind them. */
  lemma FirstDelimited(handle: int, xs: seq<seq<Byte>>, ys: seq<seq<Byte>>)
    requires xs != [] && FlaggedAsOne(handle, xs)
    requires forall i :: 0 <= i < |ys| ==> |ys[i]| >= 5
    requires ys != [] ==> ys[0][2] / 0x10 % 4 == 0x00
    ensures Delimited(xs + ys) == [Contents(xs)] + Delimited(ys)
  {
    hide Contents, Continued;
    assert forall i :: 0 <= i < |xs| ==> FlaggedAs(handle, xs[i], if i == 0 then 0x00 else 0x01);
    assert (xs + ys)[1..] == xs[1..] + ys && (xs + ys)[..|xs|] == xs && (xs + ys)[|xs|..] == ys;
    ContinuedOver(xs[1..], ys);
  }

  /** PDUs that put anything on the wire. */
  function NonEmpty(pdus: seq<seq<Byte>>): seq<seq<Byte>> {
    if pdus == [] then []
    else (if pdus[0] == [] then [] else [pdus[0]]) + NonEmpty(pdus[1..])
  }

  lemma OnWireAppend(handle: int, xs: seq<Piece>, ys: seq<Piece>)
    ensures OnWire(handle, xs + ys) == OnWire(handle, xs) + OnWire(handle, ys)
  {
  }

  /** The packets of a non-empty PDU: there are some, flagged as one. */
  lemma WholeTrain(handle: int, pdu: seq<Byte>, room: nat)
    requires 0 <= handle < 0x1000 && 0 < room < 0x1_0000 && pdu != []
    ensures var pkts := OnWire(handle, Train(pdu, room, true));
            && pkts != [] && |pkts[0]| >= 5 && pkts[0][2] / 0x10 % 4 == 0x00
            && FlaggedAsOne(handle, pkts) && Contents(pkts) == pdu
  {
    hide Train, Contents, OnWire;
    var train := Train(pdu, room, true);
    TrainShape(pdu, room, true);
    assert train[..|train|] == train;
    TrainIsFlagged(handle, pdu, room, |train|);
    assert FlaggedAs(handle, OnWire(handle, train)[0], 0x00);
  }

  lemma {:induction false} TrainsAreDelimited(handle: int, pdus: seq<seq<Byte>>, room: nat)
    requires 0 <= handle < 0x1000 && 0 < room < 0x1_0000
    ensures var pkts := OnWire(handle, Trains(pdus, room));
            && Delimited(pkts) == NonEmpty(pdus)
            && (pkts != [] ==> pkts[0][2] / 0x10 % 4 == 0x00)
  {
    hide Train, Contents, Delimited, OnWire, FlaggedAsOne;
    if pdus == [] {
      NothingSent(handle);
      NoneDelimited();
    } else {
      var train, rest := Train(pdus[0], room, true), Trains(pdus[1..], room);
      TrainsAreDelimited(handle, pdus[1..], room);
      if pdus[0] == [] {
        NoTrain(room, true);
        assert train + rest == rest;
      } else {
        WholeTrain(handle, pdus[0], room);
        OnWireAppend(handle, train, rest);
        FirstDelimited(handle, OnWire(handle, train), OnWire(handle, rest));
      }
    }
  }

  lemma NoneDelimited()
    ensures Delimited([]) == []
  {
  }

  /** So the flags alone cut what is on the wire of a connection whose mutex is free into the PDUs its
      writers sent, in the order they took the mutex. */
  lemma FlagsDelimitPdus(turns: seq<Turn>, room: nat, h: int)
    requires 0 <= h < 0x1000 && 0 < room < 0x1_0000
    requires h !in Play(Air([], map[], map[]), turns, room).holder
    ensures var s := Play(Air([], map[], map[]), turns, room);
            Delimited(OnWire(h, Mine(s.wire, h))) == NonEmpty(Log(s, h))
  {
    hide Delimited, Trains, Mine, OnWire, Play, NonEmpty;
    TrainsDoNotInterleave(turns, room, h);
    TrainsAreDelimited(h, Log(Play(Air([], map[], map[]), turns, room), h), room);
  }
}
