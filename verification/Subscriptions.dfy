/** The GATT client's subscriptions (linux/gatt/client.go): local state records what the peer acknowledged. */
module Subscriptions {
  import opened Bytes
  import opened Wrappers
  import opened Profile

  const CCC_NOTIFY: bv16 := 0x0001
  const CCC_INDICATE: bv16 := 0x0002

  const INDICATION: Byte := 0x1D

  /** Which function a subscriber passed. */
  type Handler = nat

  class Sub {
    const cccdh: U16
    var ccc: bv16
    var nHandler: Option<Handler>
    var iHandler: Option<Handler>

    constructor (cccdh: U16)
      ensures this.cccdh == cccdh && ccc == 0 && nHandler == None && iHandler == None
    {
      this.cccdh, ccc, nHandler, iHandler := cccdh, 0, None, None;
    }
  }

  predicate HasBit(ccc: bv16, flag: bv16) {
    ccc & flag != 0
  }

  function SetBit(ccc: bv16, flag: bv16): bv16 {
    ccc | flag
  }

  function ClearBit(ccc: bv16, flag: bv16): bv16 {
    ccc & !flag
  }

  /** One characteristic's subscription: the recorded CCC and the two handlers. */
  datatype Subscription = Subscription(ccc: bv16, n: Option<Handler>, i: Option<Handler>) {
    function With(ccc: bv16, flag: bv16, h: Option<Handler>): Subscription {
      if flag == CCC_INDICATE then Subscription(ccc, n, h) else Subscription(ccc, h, i)
    }

    /** A handler is installed exactly for the bits that are set. */
    ghost predicate Matched() {
      && (n.Some? <==> HasBit(ccc, CCC_NOTIFY))
      && (i.Some? <==> HasBit(ccc, CCC_INDICATE))
    }

    /** Whatever the peer sends under `bits` finds a handler. */
    ghost predicate Covers(bits: bv16) {
      && (HasBit(bits, CCC_NOTIFY) ==> n.Some?)
      && (HasBit(bits, CCC_INDICATE) ==> i.Some?)
    }
  }

  const UNSUBSCRIBED := Subscription(0, None, None)

  predicate IsFlag(flag: bv16) {
    flag == CCC_NOTIFY || flag == CCC_INDICATE
  }

  /** Whether setting `h` for `flag` needs a write, and the value it writes. */
  function CCCWrite(s: Subscription, flag: bv16, h: Option<Handler>): Option<bv16> {
    if h.Some? then if SetBit(s.ccc, flag) != s.ccc then Some(SetBit(s.ccc, flag)) else None
    else if HasBit(s.ccc, flag) then Some(ClearBit(s.ccc, flag)) else None
  }

  /** The subscription once `h` is set for `flag`. A failed write leaves it as it was. */
  function Set(s: Subscription, flag: bv16, h: Option<Handler>, acked: bool): (t: Subscription)
    requires IsFlag(flag) && s.Matched()
    ensures t.Matched()
    ensures t.ccc == if CCCWrite(s, flag, h).Some? && acked then CCCWrite(s, flag, h).value else s.ccc
    ensures CCCWrite(s, flag, h) == None || acked ==>
              t.n == (if flag == 0x0001 then h else s.n) && t.i == (if flag == 0x0002 then h else s.i)
    ensures CCCWrite(s, flag, h).Some? && !acked ==> t == s
  {
    match CCCWrite(s, flag, h)
    case None => s.With(s.ccc, flag, h)
    case Some(v) => if acked then s.With(v, flag, h) else s
  }

  /** v is c but for the one bit, which is as asked. */
  predicate DiffersAt(v: bv16, c: bv16, flag: bv16, on: bool) {
    (v & flag != 0 <==> on) && v & !flag == c & !flag
  }

  lemma NotifyBitIsSet(c: bv16)
    ensures DiffersAt(SetBit(c, 0x0001), c, 0x0001, true)
  {
  }

  lemma IndicateBitIsSet(c: bv16)
    ensures DiffersAt(SetBit(c, 0x0002), c, 0x0002, true)
  {
  }

  lemma NotifyBitIsCleared(c: bv16)
    ensures DiffersAt(ClearBit(c, 0x0001), c, 0x0001, false)
  {
  }

  lemma IndicateBitIsCleared(c: bv16)
    ensures DiffersAt(ClearBit(c, 0x0002), c, 0x0002, false)
  {
  }

  /** What setting a handler writes differs from the recorded CCC in its bit alone: 0x0001 for
      notifications, 0x0002 for indications. */
  lemma WritesOneBit(s: Subscription, flag: bv16, h: Option<Handler>)
    requires flag == 0x0001 || flag == 0x0002
    ensures CCCWrite(s, flag, h).Some? ==> DiffersAt(CCCWrite(s, flag, h).value, s.ccc, flag, h.Some?)
  {
    hide HasBit, SetBit, ClearBit, DiffersAt;
    if flag == 0x0001 {
      NotifyBitIsSet(s.ccc);
      NotifyBitIsCleared(s.ccc);
    } else {
      IndicateBitIsSet(s.ccc);
      IndicateBitIsCleared(s.ccc);
    }
  }

  /** And it writes only when the bit is not yet as it should be. */
  lemma WritesWhenNeeded(s: Subscription, flag: bv16, h: Option<Handler>)
    requires flag == 0x0001 || flag == 0x0002
    ensures CCCWrite(s, flag, h).Some? <==> (s.ccc & flag != 0) != h.Some?
  {
  }

  /** Subscribing installs the handler first: it covers the old bits and the new ones when the write goes out. */
  lemma InstalledCovers(s: Subscription, flag: bv16, h: Option<Handler>)
    requires IsFlag(flag) && s.Matched() && h.Some?
    ensures var t := s.With(SetBit(s.ccc, flag), flag, h); t.Covers(s.ccc) && t.Covers(SetBit(s.ccc, flag))
  {
  }

  /** Unsubscribing forgets the handler last. */
  lemma KeptCovers(s: Subscription, flag: bv16)
    requires IsFlag(flag) && s.Matched()
    ensures s.Covers(s.ccc) && s.Covers(ClearBit(s.ccc, flag)) && s.Covers(0)
  {
  }

  lemma NothingToClear(s: Subscription, flag: bv16, acked: bool)
    requires IsFlag(flag) && s.Matched() && !HasBit(s.ccc, flag)
    ensures CCCWrite(s, flag, None) == None && Set(s, flag, None, acked) == s
  {
  }

  lemma UnsubscribedIsMatched()
    ensures UNSUBSCRIBED.Matched()
  {
  }

  /** A CCCD write: the value handle it is for, what was acknowledged before, the value, and the
      handlers in place when it goes out. */
  datatype Write = Write(vh: U16, before: bv16, value: bv16, local: Subscription)

  ghost predicate AllCovered(log: seq<Write>) {
    forall k :: 0 <= k < |log| ==> Covered(log[k])
  }

  ghost predicate Covered(w: Write) {
    w.local.Covers(w.before) && w.local.Covers(w.value)
  }

  /** One write went out since `was`: that of `value`, for the characteristic with value handle vh. */
  ghost predicate Wrote(log: seq<Write>, was: seq<Write>, vh: U16, value: bv16) {
    && |log| == |was| + 1 && log[..|was|] == was
    && log[|was|].vh == vh && log[|was|].value == value
  }

  lemma OneMoreCovered(was: seq<Write>, log: seq<Write>)
    requires AllCovered(was) && |log| == |was| + 1 && log[..|was|] == was && Covered(log[|was|])
    ensures AllCovered(log)
  {
    forall k | 0 <= k < |was| ensures log[k] == was[k] {
      assert log[..|was|][k] == log[k];
    }
  }

  lemma CoveredWhenZero(s: Subscription, vh: U16)
    requires s.Matched()
    ensures Covered(Write(vh, s.ccc, 0, s))
  {
  }

  class Client {
    /** The CCCD of each characteristic, by value handle. */
    ghost const cccdOf: map<U16, U16>
    var subs: map<U16, Sub>
    /** The last acknowledged value of each CCCD written so far. */
    ghost var acked: map<U16, bv16>
    ghost var log: seq<Write>

    constructor (ghost cccdOf: map<U16, U16>)
      requires forall v, w :: v in cccdOf && w in cccdOf && v != w ==> cccdOf[v] != cccdOf[w]
      ensures Valid() && this.cccdOf == cccdOf && subs == map[] && acked == map[] && log == []
    {
      this.cccdOf, subs, acked, log := cccdOf, map[], map[], [];
    }

    ghost function Of(vh: U16): Subscription
      reads this, subs.Values
    {
      if vh in subs then Subscription(subs[vh].ccc, subs[vh].nHandler, subs[vh].iHandler) else UNSUBSCRIBED
    }

    ghost function Acked(vh: U16): bv16
      requires vh in cccdOf
      reads this
    {
      if cccdOf[vh] in acked then acked[cccdOf[vh]] else 0
    }

    ghost predicate Recorded(vh: U16)
      requires vh in cccdOf
      reads this, subs.Values
    {
      Of(vh).ccc == Acked(vh) && Of(vh).Matched()
    }

    /** Whenever the client's lock is free: the recorded CCC of each characteristic (0 if absent) is the
        last acknowledged write to its CCCD, handlers match the recorded bits, and every write so far
        went out with a handler in place for each bit it set or was about to clear. */
    ghost predicate Valid()
      reads this, subs.Values
    {
      && (forall v, w :: v in cccdOf && w in cccdOf && v != w ==> cccdOf[v] != cccdOf[w])
      && (forall v :: v in subs ==> v in cccdOf && subs[v].cccdh == cccdOf[v])
      && (forall v, w :: v in subs && w in subs && v != w ==> subs[v] != subs[w])
      && (forall v :: v in cccdOf ==> Recorded(v))
      && AllCovered(log)
    }

    /** The peer's CCCD is written; `ok` is whether the peer acknowledged. */
    method WriteCCC(s: Sub, ghost vh: U16, value: bv16, acks: bool) returns (ok: bool)
      requires vh in subs && subs[vh] == s && vh in cccdOf && cccdOf[vh] == s.cccdh
      modifies this`acked, this`log
      ensures ok == acks
      ensures acked == if ok then old(acked)[s.cccdh := value] else old(acked)
      ensures log == old(log) + [Write(vh, AckedIn(old(acked), s.cccdh), value, Of(vh))]
    {
      log := log + [Write(vh, AckedIn(acked, s.cccdh), value, Of(vh))];
      ok := acks;
      if ok {
        acked := acked[s.cccdh := value];
      }
    }

    static ghost function AckedIn(acked: map<U16, bv16>, cccdh: U16): bv16 {
      if cccdh in acked then acked[cccdh] else 0
    }

    method SetState(s: Sub, flag: bv16, ccc: bv16, handler: Option<Handler>)
      modifies s
      ensures Subscription(s.ccc, s.nHandler, s.iHandler)
           == old(Subscription(s.ccc, s.nHandler, s.iHandler)).With(ccc, flag, handler)
    {
      s.ccc := ccc;
      if flag == CCC_INDICATE {
        s.iHandler := handler;
      } else {
        s.nHandler := handler;
      }
    }

    /** setHandlers; None as `h` unsubscribes. `acks` is the fate of the CCCD write, if one is made. */
    method SetHandlers(cccdh: U16, vh: U16, flag: bv16, h: Option<Handler>, acks: bool) returns (ok: bool)
      requires Valid() && IsFlag(flag) && vh in cccdOf && cccdOf[vh] == cccdh
      modifies this, subs.Values
      ensures Valid()
      ensures Of(vh) == Set(old(Of(vh)), flag, h, acks)
      ensures forall v :: v != vh ==> Of(v) == old(Of(v))
      ensures match CCCWrite(old(Of(vh)), flag, h)
              case None => ok && acked == old(acked) && log == old(log)
              case Some(value) =>
                && ok == acks && Wrote(log, old(log), vh, value)
                && acked == if ok then old(acked)[cccdh := value] else old(acked)
    {
      hide HasBit, SetBit, ClearBit, Subscription.Matched, Set, CCCWrite, Client.Valid;
      var s := FindSub(cccdh, vh);
      ok := SetFound(s, vh, flag, h, acks);
    }

    /** The rest of setHandlers leaves the other characteristics as they are. */
    method SetFound(s: Sub, ghost vh: U16, flag: bv16, h: Option<Handler>, acks: bool) returns (ok: bool)
      requires Valid() && IsFlag(flag) && vh in subs && subs[vh] == s && vh in cccdOf && cccdOf[vh] == s.cccdh
      modifies s, this`acked, this`log
      ensures Valid() && Of(vh) == Set(old(Of(vh)), flag, h, acks)
      ensures forall v :: v != vh ==> Of(v) == old(Of(v))
      ensures match CCCWrite(old(Of(vh)), flag, h)
              case None => ok && acked == old(acked) && log == old(log)
              case Some(value) =>
                && ok == acks && Wrote(log, old(log), vh, value)
                && acked == if ok then old(acked)[s.cccdh := value] else old(acked)
    {
      hide HasBit, SetBit, ClearBit, Subscription.Matched, Set, CCCWrite, AllCovered;
      assert Recorded(vh);
      ok := Reconcile(s, vh, flag, h, acks);
      forall v | v in cccdOf && v != vh ensures Recorded(v) {
        assert old(Recorded(v)) && cccdOf[v] != cccdOf[vh];
      }
    }

    /** The first step of setHandlers: an unknown characteristic starts unsubscribed. */
    method FindSub(cccdh: U16, vh: U16) returns (s: Sub)
      requires Valid() && vh in cccdOf && cccdOf[vh] == cccdh
      modifies this`subs
      ensures Valid() && vh in subs && subs[vh] == s && s.cccdh == cccdh && (s in old(subs.Values) || fresh(s))
      ensures subs == if vh in old(subs) then old(subs) else old(subs)[vh := s]
      ensures forall v :: Of(v) == old(Of(v))
    {
      hide HasBit, Subscription.Matched, AllCovered;
      if vh in subs {
        s := subs[vh];
      } else {
        s := new Sub(cccdh);
        subs := subs[vh := s];
      }
      forall v | v in cccdOf ensures Recorded(v) {
        assert old(Recorded(v)) && Of(v) == old(Of(v));
      }
    }

    /** setHandlers once the subscription is found or created. */
    method Reconcile(s: Sub, ghost vh: U16, flag: bv16, h: Option<Handler>, acks: bool) returns (ok: bool)
      requires IsFlag(flag) && vh in subs && subs[vh] == s && vh in cccdOf && cccdOf[vh] == s.cccdh && Recorded(vh)
      modifies s, this`acked, this`log
      ensures Of(vh) == Set(old(Of(vh)), flag, h, acks) && Recorded(vh)
      ensures match CCCWrite(old(Of(vh)), flag, h)
              case None => ok && acked == old(acked) && log == old(log)
              case Some(value) =>
                && ok == acks && acked == (if ok then old(acked)[s.cccdh := value] else old(acked))
                && Wrote(log, old(log), vh, value)
      ensures AllCovered(old(log)) ==> AllCovered(log)
    {
      hide HasBit, SetBit, ClearBit, Subscription.Matched, Subscription.Covers;
      ghost var was := Of(vh);
      KeptCovers(was, flag);
      if h == None && !HasBit(s.ccc, flag) {
        NothingToClear(was, flag, acks);
        return true;
      }
      var prevCCC := s.ccc;
      var prevH := if flag == CCC_INDICATE then s.iHandler else s.nHandler;
      if h.Some? {
        InstalledCovers(was, flag, h);
        var newCCC := SetBit(prevCCC, flag);
        SetState(s, flag, newCCC, h);
        if newCCC != prevCCC {
          var wrote := WriteCCC(s, vh, newCCC, acks);
          if !wrote {
            SetState(s, flag, prevCCC, prevH);
            return false;
          }
        }
        assert Of(vh) == Set(was, flag, h, acks);
        return true;
      }
      var newCCC := ClearBit(prevCCC, flag);
      var wrote := WriteCCC(s, vh, newCCC, acks);
      if !wrote {
        return false;
      }
      SetState(s, flag, newCCC, None);
      assert Of(vh) == Set(was, flag, h, acks);
      ok := true;
    }

    /** Subscribe and Unsubscribe; None when the characteristic has no CCCD. */
    method Subscribe(c: Characteristic, ind: bool, h: Option<Handler>, acks: bool) returns (ok: Option<bool>)
      requires Valid() && c.valueHandle in cccdOf && (c.cccd != null ==> c.cccd.handle == cccdOf[c.valueHandle])
      modifies this, subs.Values
      ensures Valid()
      ensures var flag := if ind then 0x0002 else 0x0001;
              if c.cccd == null then ok == None && unchanged(this) && forall v :: Of(v) == old(Of(v))
              else
                && Of(c.valueHandle) == Set(old(Of(c.valueHandle)), flag, h, acks)
                && (forall v :: v != c.valueHandle ==> Of(v) == old(Of(v)))
                && ok == Some(acks || CCCWrite(old(Of(c.valueHandle)), flag, h) == None)
    {
      if c.cccd == null {
        return None;
      }
      var done := SetHandlers(c.cccd.handle, c.valueHandle, if ind then CCC_INDICATE else CCC_NOTIFY, h, acks);
      ok := Some(done);
    }

    /** Clears the subscriptions in some order, up to the first write that fails. `acks` says which
        CCCDs acknowledge. */
    method ClearSubscriptions(acks: U16 -> bool) returns (ok: bool)
      requires Valid()
      modifies this
      ensures Valid()
      ensures subs.Keys <= old(subs.Keys) && forall v :: v in subs ==> subs[v] == old(subs[v]) && Of(v) == old(Of(v))
      ensures forall v :: v in old(subs.Keys) && v !in subs ==> acks(cccdOf[v]) && Acked(v) == 0
      ensures ok <==> subs == map[]
      ensures !ok ==> exists v :: v in subs && !acks(cccdOf[v])
    {
      hide Client.Valid, Client.Of, Client.Acked;
      ghost var all := subs;
      SubsAreKnown();
      while subs != map[]
        invariant Valid() && all.Keys <= cccdOf.Keys
        invariant subs.Keys <= all.Keys && forall v :: v in subs ==> subs[v] == all[v] && Of(v) == old(Of(v))
        invariant forall v :: v in all && v !in subs ==> acks(cccdOf[v]) && Acked(v) == 0
        decreases |subs|
      {
        assert subs.Keys != {};
        var vh :| vh in subs;
        SubsAreKnown();
        var cleared := ClearSubscription(vh, acks(subs[vh].cccdh));
        if !cleared {
          return false;
        }
      }
      ok := true;
    }

    lemma SubsAreKnown()
      requires Valid()
      ensures subs.Keys <= cccdOf.Keys && forall v :: v in subs ==> subs[v].cccdh == cccdOf[v]
    {
    }

    /** One turn of ClearSubscriptions: the subscription is forgotten once the peer acknowledged 0. */
    method ClearSubscription(vh: U16, acks: bool) returns (ok: bool)
      requires Valid() && vh in subs
      modifies this`subs, this`acked, this`log
      ensures Valid() && ok == acks
      ensures subs == if ok then old(subs) - {vh} else old(subs)
      ensures vh in cccdOf && acked == if ok then old(acked)[cccdOf[vh] := 0] else old(acked)
      ensures forall v :: v in cccdOf && v != vh ==> Acked(v) == old(Acked(v))
      ensures ok ==> Acked(vh) == 0
      ensures forall v :: v in subs ==> Of(v) == old(Of(v))
    {
      hide HasBit, SetBit, ClearBit, Subscription.Matched, Subscription.Covers, Covered, AllCovered;
      assert Recorded(vh);
      ghost var was := log;
      CoveredWhenZero(Of(vh), vh);
      ok := WriteCCC(subs[vh], vh, 0, acks);
      OneMoreCovered(was, log);
      if ok {
        subs := subs - {vh};
        UnsubscribedIsMatched();
      }
      forall v | v in cccdOf ensures Recorded(v) {
        assert old(Recorded(v)) && (v != vh ==> cccdOf[v] != cccdOf[vh]);
      }
    }

    /** HandleNotification: the handler to call with the value, if any. It runs at any time, also while a
        CCCD write is out. Whatever bits the handlers in place cover are served then, among them those of
        each write that AllCovered speaks of; and once the client's lock is free, a handler is called only
        for what the peer acknowledged. */
    method HandleNotification(req: seq<Byte>) returns (call: Option<(Handler, seq<Byte>)>)
      ensures |req| < 3 ==> call == None
      ensures |req| >= 3 ==>
                var s, bit := Of(U16At(req, 1)), if req[0] == 0x1D then 0x0002 else 0x0001;
                && call == (match if req[0] == 0x1D then s.i else s.n
                            case None => None
                            case Some(h) => Some((h, req[3..])))
                && (forall bits :: s.Covers(bits) && HasBit(bits, bit) ==> call.Some?)
                && (Valid() && call.Some? ==> U16At(req, 1) in cccdOf && HasBit(Acked(U16At(req, 1)), bit))
    {
      if |req| < 3 {
        return None;
      }
      var vh := U16At(req, 1);
      if vh !in subs {
        return None;
      }
      var fn := subs[vh].nHandler;
      if req[0] == INDICATION {
        fn := subs[vh].iHandler;
      }
      match fn {
        case None => return None;
        case Some(h) => return Some((h, req[3..]));
      }
    }
  }
}
