/** Reassembly of fragments into PDUs and reading SDUs (linux/hci/conn.go), and its inverse relation to
    the fragment trains. */
module Recombine {
  import opened Bytes
  import opened Wrappers
  import opened Fragments

  /** The error returns, and Panic where the stack slices a packet out of range. */
  datatype Failure = EOF | UnexpectedEOF | TooLarge | ErrClosed | ShortBuffer | EmptyPacket | Panic

  /** p.dlen() and p.cid() */
  function PduLength(p: seq<Byte>): U16
    requires |p| >= 4
  {
    U16At(p, 0)
  }

  function Cid(p: seq<Byte>): int
    requires |p| >= 4
  {
    U16At(p, 2)
  }

  /** A PDU with at least the bytes its length field counts. */
  predicate Complete(p: seq<Byte>) {
    |p| >= 4 && |p| >= 4 + PduLength(p)
  }

  /** recombine's loop: continuation fragments are appended until the PDU has its length. The second
      result is how many packets it takes. */
  function Gather(p: seq<Byte>, pkts: seq<Packet>): (r: (Result<seq<Byte>, Failure>, nat))
    requires |p| >= 4
    ensures r.1 <= |pkts| && (r.0.Ok? ==> Complete(r.0.value))
    decreases |pkts|
  {
    if |p| >= 4 + PduLength(p) then (Ok(p), 0)
    else if pkts == [] then (Err(EOF), 0)
    else if |pkts[0]| < 2 then (Err(Panic), 1)
    else if PbfOf(pkts[0]) % 2 == 0 then (Err(UnexpectedEOF), 1)
    else if |pkts[0]| < 4 then (Err(Panic), 1)
    else
      PrefixKeepsLength(p, DataOf(pkts[0]));
      var (r, n) := Gather(p + DataOf(pkts[0]), pkts[1..]);
      (r, 1 + n)
  }

  lemma PrefixKeepsLength(p: seq<Byte>, q: seq<Byte>)
    requires |p| >= 4
    ensures |p + q| >= 4 && PduLength(p + q) == PduLength(p) && Cid(p + q) == Cid(p)
  {
  }

  /** One call of recombine on the packets to come (none means that the channel is closed). */
  function Recombined(pkts: seq<Packet>, rxMPS: int): (r: (Result<seq<Byte>, Failure>, nat))
    ensures r.1 <= |pkts| && (r.0.Ok? ==> r.1 > 0 && Complete(r.0.value))
  {
    if pkts == [] then (Err(EOF), 0)
    else if |pkts[0]| < 8 then (Err(Panic), 1)
    else
      var p := DataOf(pkts[0]);
      if Cid(p) == CID_LE_ATT && PduLength(p) > rxMPS then (Err(TooLarge), 1)
      else
        var (r, n) := Gather(p, pkts[1..]);
        (r, 1 + n)
  }

  class Receiver {
    /** The packets to come on this connection; when they run out chInPkt is closed. */
    var chInPkt: seq<Packet>
    /** The complete PDUs delivered to the reader and not yet read. */
    var chInPDU: seq<seq<Byte>>
    /** The PDUs handed to the other channels' handlers. */
    var other: seq<seq<Byte>>
    var rxMPS: int

    constructor (pkts: seq<Packet>, rxMPS: int)
      ensures chInPkt == pkts && chInPDU == [] && other == [] && this.rxMPS == rxMPS
    {
      chInPkt, chInPDU, other, this.rxMPS := pkts, [], [], rxMPS;
    }

    /** recombine. */
    method Recombine() returns (err: Option<Failure>)
      modifies this`chInPkt, this`chInPDU, this`other
      ensures var (r, n) := Recombined(old(chInPkt), rxMPS);
              && chInPkt == old(chInPkt)[n..]
              && (match r
                  case Err(e) => err == Some(e) && chInPDU == old(chInPDU) && other == old(other)
                  case Ok(p) =>
                    && err == None
                    && chInPDU == old(chInPDU) + (if Cid(p) == CID_LE_ATT then [p] else [])
                    && other == old(other) + (if Cid(p) == CID_LE_ATT then [] else [p]))
    {
      if chInPkt == [] {
        return Some(EOF);
      }
      var first := chInPkt[0];
      chInPkt := chInPkt[1..];
      if |first| < 8 {
        return Some(Panic);
      }
      var p := DataOf(first);
      if Cid(p) == CID_LE_ATT && PduLength(p) > rxMPS {
        return Some(TooLarge);
      }
      ghost var taken := 1;
      while |p| < 4 + PduLength(p)
        invariant |p| >= 4 && 1 <= taken <= |old(chInPkt)| && chInPkt == old(chInPkt)[taken..]
        invariant chInPDU == old(chInPDU) && other == old(other)
        invariant Recombined(old(chInPkt), rxMPS) == (Gather(p, chInPkt).0, taken + Gather(p, chInPkt).1)
        decreases |chInPkt|
      {
        if chInPkt == [] {
          return Some(EOF);
        }
        var pkt := chInPkt[0];
        chInPkt := chInPkt[1..];
        taken := taken + 1;
        if |pkt| < 2 {
          return Some(Panic);
        }
        if PbfOf(pkt) % 2 == 0 {
          return Some(UnexpectedEOF);
        }
        if |pkt| < 4 {
          return Some(Panic);
        }
        PrefixKeepsLength(p, DataOf(pkt));
        p := p + DataOf(pkt);
      }
      if Cid(p) == CID_LE_ATT {
        chInPDU := chInPDU + [p];
      } else {
        other := other + [p];
      }
      err := None;
    }

    /** Read. The PDUs are complete, as Recombine delivers them. */
    method Read(sdu: array<Byte>) returns (r: Result<nat, Failure>)
      requires chInPDU != [] && chInPDU[0] != [] ==> Complete(chInPDU[0])
      modifies this`chInPDU, sdu
      ensures old(chInPDU) == [] ==> r == Err(ErrClosed) && chInPDU == [] && sdu[..] == old(sdu[..])
      ensures old(chInPDU) != [] ==>
                chInPDU == old(chInPDU)[1..] && (r, sdu[..]) == ReadPdu(old(chInPDU)[0], old(sdu[..]))
    {
      if chInPDU == [] {
        return Err(ErrClosed);
      }
      var p := chInPDU[0];
      chInPDU := chInPDU[1..];
      if p == [] {
        return Err(EmptyPacket);
      }
      var slen := PduLength(p);
      if sdu.Length < slen {
        return Err(ShortBuffer);
      }
      if |p| - 4 <= sdu.Length {
        CopyInto(sdu, 0, p[4..]);
        assert sdu[..] == p[4..] + old(sdu[..])[|p| - 4..];
      }
      r := Ok(slen);
    }

    /** A reader that recombines and reads into one buffer until either fails: what it was given. */
    method ReadEach(sdu: array<Byte>) returns (got: seq<seq<Byte>>)
      requires chInPDU == []
      modifies this`chInPkt, this`chInPDU, this`other, sdu
      ensures got == ReadAll(old(chInPkt), rxMPS, old(sdu[..]))
    {
      hide Recombined, ReadPdu, Complete;
      got := [];
      while chInPkt != []
        invariant chInPDU == []
        invariant got + ReadAll(chInPkt, rxMPS, sdu[..]) == ReadAll(old(chInPkt), rxMPS, old(sdu[..]))
        decreases |chInPkt|
      {
        var err := Recombine();
        if err.Some? {
          return;
        }
        if chInPDU != [] {
          var r := Read(sdu);
          match r {
            case Err(_) => return;
            case Ok(n) => got := got + [sdu[..n]];
          }
        }
      }
    }
  }

  /** Read's handling of one PDU, and its buffer afterwards: the buffer's length is its capacity, and a
      payload that does not fit it grows elsewhere. */
  function ReadPdu(p: seq<Byte>, buf: seq<Byte>): (r: (Result<nat, Failure>, seq<Byte>))
    requires p != [] ==> Complete(p)
    ensures |r.1| == |buf| && (r.0.Ok? ==> r.0.value <= |buf|)
  {
    if p == [] then (Err(EmptyPacket), buf)
    else if |buf| < PduLength(p) then (Err(ShortBuffer), buf)
    else (Ok(PduLength(p)), if |p| - 4 <= |buf| then p[4..] + buf[|p| - 4..] else buf)
  }

  /** The SDUs a reader gets from the packets of a connection: recombine and Read, over and over, until
      one of them fails. PDUs of other channels are not for the reader. */
  function ReadAll(pkts: seq<Packet>, rxMPS: int, buf: seq<Byte>): seq<seq<Byte>>
    decreases |pkts|
  {
    if pkts == [] then []
    else
      match Recombined(pkts, rxMPS)
      case (Err(_), _) => []
      case (Ok(p), taken) =>
        if Cid(p) != CID_LE_ATT then ReadAll(pkts[taken..], rxMPS, buf)
        else
          match ReadPdu(p, buf)
          case (Err(_), _) => []
          case (Ok(n), after) => [after[..n]] + ReadAll(pkts[taken..], rxMPS, after)
  }

  /** Read hands over the SDU whatever the buffer held before, if and only if the whole payload fits the
      buffer or the SDU is empty. A PDU longer than its length field can be longer than the buffer while
      the SDU is not; then Read reports the SDU's length and the buffer keeps what it held. */
  lemma ReadIsExact(p: seq<Byte>, room: nat)
    requires Complete(p) && PduLength(p) <= room
    ensures (forall buf: seq<Byte> :: |buf| == room ==>
               ReadPdu(p, buf).0.Ok? && ReadPdu(p, buf).1[..ReadPdu(p, buf).0.value] == p[4..4 + PduLength(p)])
            <==> (|p| - 4 <= room || PduLength(p) == 0)
  {
    if |p| - 4 > room && PduLength(p) > 0 {
      var other: Byte := if p[4] == 0 then 1 else 0;
      var buf := seq(room, _ => other);
      assert ReadPdu(p, buf).1[..PduLength(p)][0] != p[4..4 + PduLength(p)][0];
    } else {
      forall buf: seq<Byte> | |buf| == room
        ensures ReadPdu(p, buf).0.Ok? && ReadPdu(p, buf).1[..ReadPdu(p, buf).0.value] == p[4..4 + PduLength(p)]
      {
      }
    }
  }

  // ---- Recombining inverts fragmenting ----

  /** Received packets that carry the pieces of a PDU: the first holds the L2CAP header, the later ones
      are flagged as continuing, and the PDU is not complete before the last. */
  ghost predicate Carries(pkts: seq<Packet>, pdu: seq<Byte>) {
    && pkts != [] && |pkts[0]| >= 8 && (forall i :: 0 <= i < |pkts| ==> |pkts[i]| >= 4)
    && (forall i :: 1 <= i < |pkts| ==> PbfOf(pkts[i]) % 2 == 1)
    && Joined(pkts) == pdu && |pdu| >= 4 && |pdu| == 4 + PduLength(pdu)
    && (|pkts| > 1 ==> DataOf(pkts[|pkts| - 1]) != [])
  }

  function Joined(pkts: seq<Packet>): seq<Byte>
    requires forall i :: 0 <= i < |pkts| ==> |pkts[i]| >= 4
  {
    if pkts == [] then [] else DataOf(pkts[0]) + Joined(pkts[1..])
  }

  lemma {:induction false} JoinedNonEmpty(pkts: seq<Packet>)
    requires pkts != [] && (forall i :: 0 <= i < |pkts| ==> |pkts[i]| >= 4) && DataOf(pkts[|pkts| - 1]) != []
    ensures Joined(pkts) != []
  {
    if |pkts| > 1 {
      JoinedNonEmpty(pkts[1..]);
    }
  }

  lemma {:induction false} GatherTakesAll(p: seq<Byte>, pkts: seq<Packet>, more: seq<Packet>, pdu: seq<Byte>)
    requires |p| >= 4
    requires forall i :: 0 <= i < |pkts| ==> |pkts[i]| >= 4 && PbfOf(pkts[i]) % 2 == 1
    requires p + Joined(pkts) == pdu && |pdu| == 4 + PduLength(pdu) && (pkts != [] ==> DataOf(pkts[|pkts| - 1]) != [])
    ensures Gather(p, pkts + more) == (Ok(pdu), |pkts|)
    decreases |pkts|
  {
    PrefixKeepsLength(p, Joined(pkts));
    if pkts == [] {
      assert p == pdu;
    } else {
      JoinedNonEmpty(pkts);
      assert (pkts + more)[1..] == pkts[1..] + more && (pkts + more)[0] == pkts[0];
      assert p + (DataOf(pkts[0]) + Joined(pkts[1..])) == (p + DataOf(pkts[0])) + Joined(pkts[1..]);
      GatherTakesAll(p + DataOf(pkts[0]), pkts[1..], more, pdu);
    }
  }

  /** recombine inverts every way of cutting a PDU into packets, whatever follows on the connection; an
      ATT PDU is accepted when its length is within the receiver's limit. */
  lemma RecombineInverts(pkts: seq<Packet>, more: seq<Packet>, pdu: seq<Byte>, rxMPS: int)
    requires Carries(pkts, pdu)
    requires Cid(pdu) == CID_LE_ATT ==> PduLength(pdu) <= rxMPS
    ensures Recombined(pkts + more, rxMPS) == (Ok(pdu), |pkts|)
  {
    hide Gather;
    var p, rest := DataOf(pkts[0]), pkts[1..];
    PrefixKeepsLength(p, Joined(rest));
    assert (pkts + more)[1..] == rest + more && (pkts + more)[0] == pkts[0];
    GatherTakesAll(p, rest, more, pdu);
  }

  // ---- When recombine panics ----

  /** A packet whose accessors are out of range where the loop reads it. */
  predicate TooShort(a: Packet) {
    |a| < 2 || (|a| < 4 && PbfOf(a) % 2 == 1)
  }

  /** Packets the loop appends, and after which p is still short of its length. */
  ghost predicate Appended(p: seq<Byte>, pkts: seq<Packet>)
    requires |p| >= 4
  {
    && (forall i :: 0 <= i < |pkts| ==> |pkts[i]| >= 4 && PbfOf(pkts[i]) % 2 == 1)
    && |p| + |Joined(pkts)| < 4 + PduLength(p)
  }

  lemma {:induction false} GatherPanics(p: seq<Byte>, pkts: seq<Packet>)
    requires |p| >= 4
    ensures Gather(p, pkts).0 == Err(Panic)
       <==> exists k :: 0 <= k < |pkts| && Appended(p, pkts[..k]) && TooShort(pkts[k])
    decreases |pkts|
  {
    hide U16At, Joined;
    if |p| < 4 + PduLength(p) && pkts != [] {
      assert pkts[..0] == [];
      NothingJoined();
      if TooShort(pkts[0]) {
        assert Appended(p, pkts[..0]);
      } else if PbfOf(pkts[0]) % 2 == 0 {
        assert forall k :: 0 < k <= |pkts| ==> pkts[..k][0] == pkts[0];
      } else {
        var q, rest := p + DataOf(pkts[0]), pkts[1..];
        PrefixKeepsLength(p, DataOf(pkts[0]));
        GatherPanics(q, rest);
        forall k | 0 < k < |pkts| ensures Appended(p, pkts[..k]) <==> Appended(q, rest[..k - 1]) {
          AppendedCons(p, pkts[0], rest[..k - 1]);
          assert pkts[..k] == [pkts[0]] + rest[..k - 1];
        }
        if k :| 0 <= k < |rest| && Appended(q, rest[..k]) && TooShort(rest[k]) {
          assert Appended(p, pkts[..k + 1]) && TooShort(pkts[k + 1]);
        }
      }
    }
  }

  lemma NothingJoined()
    ensures Joined([]) == []
  {
  }

  lemma AppendedCons(p: seq<Byte>, a: Packet, rest: seq<Packet>)
    requires |p| >= 4 && |a| >= 4 && PbfOf(a) % 2 == 1
    ensures |p + DataOf(a)| >= 4 && (Appended(p, [a] + rest) <==> Appended(p + DataOf(a), rest))
  {
    PrefixKeepsLength(p, DataOf(a));
    assert ([a] + rest)[1..] == rest;
    if forall i :: 0 <= i < |rest| ==> |rest[i]| >= 4 {
      assert Joined([a] + rest) == DataOf(a) + Joined(rest);
    }
    assert forall i :: 0 <= i < |rest| ==> ([a] + rest)[i + 1] == rest[i];
  }

  /** recombine panics if and only if the first packet does not hold the L2CAP header, or it gets to a later
      packet that is shorter than what it reads of it. */
  lemma PanicIsExact(pkts: seq<Packet>, rxMPS: int)
    ensures Recombined(pkts, rxMPS).0 == Err(Panic)
       <==> pkts != []
            && (|pkts[0]| < 8
                || (&& !(Cid(DataOf(pkts[0])) == CID_LE_ATT && PduLength(DataOf(pkts[0])) > rxMPS)
                    && exists k :: 1 <= k < |pkts| && Appended(DataOf(pkts[0]), pkts[1..k]) && TooShort(pkts[k])))
  {
    hide Gather, Appended, TooShort;
    if pkts != [] && |pkts[0]| >= 8 {
      var p, rest := DataOf(pkts[0]), pkts[1..];
      GatherPanics(p, rest);
      assert forall k :: 0 <= k < |rest| ==> rest[..k] == pkts[1..k + 1] && rest[k] == pkts[k + 1];
      if k :| 1 <= k < |pkts| && Appended(p, pkts[1..k]) && TooShort(pkts[k]) {
        assert rest[..k - 1] == pkts[1..k] && rest[k - 1] == pkts[k];
      }
    }
  }

  // ---- From writer to reader ----

  /** Packets as the receiver gets them: without the packet type. */
  function Received(handle: int, ps: seq<Piece>): (r: seq<Packet>)
    ensures |r| == |ps| && forall i :: 0 <= i < |r| ==> |r[i]| >= 4
  {
    seq(|ps|, i requires 0 <= i < |ps| => AclPacket(handle + 0x1000 * ps[i].pbf, ps[i].data)[1..])
  }

  lemma {:induction false} JoinedIsPayload(handle: int, ps: seq<Piece>)
    requires 0 <= handle < 0x1000
    requires forall i :: 0 <= i < |ps| ==> 0 <= ps[i].pbf < 4 && |ps[i].data| < 0x1_0000
    ensures Joined(Received(handle, ps)) == Payload(ps)
  {
    hide AclPacket, Payload;
    if ps == [] {
      NothingSent(handle);
    } else {
      PacketRoundTrip(handle, ps[0].pbf, ps[0].data);
      JoinedIsPayload(handle, ps[1..]);
      FirstPayload(ps[0], ps[1..]);
      assert ps == [ps[0]] + ps[1..] && Received(handle, ps)[1..] == Received(handle, ps[1..]);
    }
  }

  /** A PDU's train, with room for the L2CAP header in its first fragment, is one of the ways to cut it. */
  lemma TrainCarries(handle: int, pdu: seq<Byte>, room: nat)
    requires 0 <= handle < 0x1000 && 4 <= room < 0x1_0000 && |pdu| >= 4 && |pdu| == 4 + PduLength(pdu)
    ensures Carries(Received(handle, Train(pdu, room, true)), pdu)
  {
    hide Payload, Train, Joined, AclPacket;
    var ps := Train(pdu, room, true);
    TrainShape(pdu, room, true);
    JoinedIsPayload(handle, ps);
    forall i | 0 <= i < |ps|
      ensures DataOf(Received(handle, ps)[i]) == ps[i].data && PbfOf(Received(handle, ps)[i]) == ps[i].pbf
    {
      PacketRoundTrip(handle, ps[i].pbf, ps[i].data);
    }
  }

  lemma U16sRoundTrip(a: U16, b: U16, rest: seq<Byte>)
    ensures var p := PutU16(a) + PutU16(b) + rest; U16At(p, 0) == a && U16At(p, 2) == b && p[4..] == rest
  {
    U16RoundTrip(a);
    U16RoundTrip(b);
    var p := PutU16(a) + PutU16(b) + rest;
    assert p[0] == PutU16(a)[0] && p[1] == PutU16(a)[1] && p[2] == PutU16(b)[0] && p[3] == PutU16(b)[1];
  }

  lemma AttPduFields(sdu: seq<Byte>)
    requires |sdu| < 0x1_0000
    ensures var p := AttPdu(sdu);
            |p| >= 4 && PduLength(p) == |sdu| && Cid(p) == CID_LE_ATT && p[4..] == sdu && |p| == 4 + PduLength(p)
  {
    hide PutU16, U16At;
    assert Wrap(|sdu|) == |sdu|;
    U16sRoundTrip(|sdu|, CID_LE_ATT, sdu);
  }

  function AttPdus(sdus: seq<seq<Byte>>): (r: seq<seq<Byte>>)
    ensures |r| == |sdus|
  {
    seq(|sdus|, i requires 0 <= i < |sdus| => AttPdu(sdus[i]))
  }

  lemma ReceivedAppend(handle: int, xs: seq<Piece>, ys: seq<Piece>)
    ensures Received(handle, xs + ys) == Received(handle, xs) + Received(handle, ys)
  {
  }

  /** The reader gets exactly the SDUs written, in the order their writers took the train mutex. */
  lemma {:induction false} SdusSurvive(handle: int, sdus: seq<seq<Byte>>, fragment: nat, rxMPS: int, buf: seq<Byte>)
    requires 0 <= handle < 0x1000 && 4 <= fragment < 0x1_0000
    requires forall i :: 0 <= i < |sdus| ==> |sdus[i]| <= rxMPS && |sdus[i]| <= |buf| && |sdus[i]| < 0x1_0000
    ensures ReadAll(Received(handle, Trains(AttPdus(sdus), fragment)), rxMPS, buf) == sdus
  {
    hide Train, Recombined, AttPdu, Carries;
    if sdus != [] {
      var pdu, rest := AttPdu(sdus[0]), Trains(AttPdus(sdus[1..]), fragment);
      AttPduFields(sdus[0]);
      assert AttPdus(sdus)[1..] == AttPdus(sdus[1..]);
      var train := Train(pdu, fragment, true);
      ReceivedAppend(handle, train, rest);
      TrainCarries(handle, pdu, fragment);
      RecombineInverts(Received(handle, train), Received(handle, rest), pdu, rxMPS);
      FirstOfCarried(Received(handle, train), pdu);
      assert (Received(handle, train) + Received(handle, rest))[|train|..] == Received(handle, rest);
      SdusSurvive(handle, sdus[1..], fragment, rxMPS, sdus[0] + buf[|sdus[0]|..]);
    }
  }

  lemma FirstOfCarried(pkts: seq<Packet>, pdu: seq<Byte>)
    requires Carries(pkts, pdu)
    ensures pkts != [] && |pkts[0]| >= 8
  {
  }

  /** End to end: whatever the interleaving of writers, once a connection's mutex is free the peer of the
      same stack reads exactly the SDUs whose writers took it, in that order. */
  lemma WritersToReader(turns: seq<Turn>, fragment: nat, handle: int, sdus: seq<seq<Byte>>, rxMPS: int, buf: seq<Byte>)
    requires 0 <= handle < 0x1000 && 4 <= fragment < 0x1_0000
    requires var s := Play(Air([], map[], map[]), turns, fragment);
             handle !in s.holder && Log(s, handle) == AttPdus(sdus)
    requires forall i :: 0 <= i < |sdus| ==> |sdus[i]| <= rxMPS && |sdus[i]| <= |buf| && |sdus[i]| < 0x1_0000
    ensures var s := Play(Air([], map[], map[]), turns, fragment);
            ReadAll(Received(handle, Mine(s.wire, handle)), rxMPS, buf) == sdus
  {
    TrainsDoNotInterleave(turns, fragment, handle);
    SdusSurvive(handle, sdus, fragment, rxMPS, buf);
  }
}
