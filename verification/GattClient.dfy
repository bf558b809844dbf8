/** The GATT client's discovery walks (linux/gatt/client.go) against the ATT server. */
module GattClient {
  import opened Bytes
  import opened Wrappers
  import opened Profile
  import opened AttDb
  import opened AttLayout
  import opened AttPdu
  import opened AttServer
  import opened AttGrouped
  import opened AttCalls
  import opened Discovery

  // ---- What the client's objects say ----

  ghost function DescView(d: Descriptor): FoundDesc
    reads d
  {
    FoundDesc(d.uuid, d.handle)
  }

  ghost function DescViews(ds: seq<Descriptor>): (r: seq<FoundDesc>)
    reads ds
    ensures |r| == |ds|
  {
    seq(|ds|, i requires 0 <= i < |ds| reads ds => DescView(ds[i]))
  }

  ghost function CharView(c: Characteristic): FoundChar
    reads c
  {
    FoundChar(c.uuid, c.property, c.handle, c.valueHandle, c.endHandle)
  }

  ghost function CharViews(cs: seq<Characteristic>): (r: seq<FoundChar>)
    reads cs
    ensures |r| == |cs|
  {
    seq(|cs|, i requires 0 <= i < |cs| reads cs => CharView(cs[i]))
  }

  ghost function SvcView(s: Service): FoundSvc
    reads s
  {
    FoundSvc(s.uuid, s.handle, s.endHandle)
  }

  ghost function SvcViews(ss: seq<Service>): (r: seq<FoundSvc>)
    reads ss
    ensures |r| == |ss|
  {
    seq(|ss|, i requires 0 <= i < |ss| reads ss => SvcView(ss[i]))
  }

  // ---- Filters ----

  /** ble.Contains on the filter of a discovery call; no filter wants everything. */
  predicate Wanted(filter: Option<seq<UUID>>, u: UUID) {
    filter.Some? ==> u in filter.value
  }

  function DescUuid(d: Descriptor): UUID {
    d.uuid
  }

  function CharUuid(c: Characteristic): UUID {
    c.uuid
  }

  function SvcUuid(s: Service): UUID {
    s.uuid
  }

  /** Those of `xs` that the filter wants, in order. */
  function Kept<T>(filter: Option<seq<UUID>>, xs: seq<T>, uuid: T -> UUID): seq<T> {
    if xs == [] then []
    else
      var n := |xs| - 1;
      Kept(filter, xs[..n], uuid) + if Wanted(filter, uuid(xs[n])) then [xs[n]] else []
  }

  lemma KeptNothing<T>(filter: Option<seq<UUID>>, uuid: T -> UUID)
    ensures Kept(filter, [], uuid) == []
  {
  }

  lemma KeptSnoc<T>(filter: Option<seq<UUID>>, xs: seq<T>, x: T, uuid: T -> UUID)
    ensures Kept(filter, xs + [x], uuid)
         == Kept(filter, xs, uuid) + if Wanted(filter, uuid(x)) then [x] else []
  {
    assert (xs + [x])[..|xs|] == xs;
  }

  /** A filter keeps exactly what carries any one of its UUIDs. */
  lemma {:induction false} FilterKeepsListed<T>(us: seq<UUID>, xs: seq<T>, x: T, uuid: T -> UUID)
    ensures x in Kept(Some(us), xs, uuid) <==> x in xs && exists i :: 0 <= i < |us| && us[i] == uuid(x)
  {
    hide Kept;
    if xs == [] {
      KeptNothing(Some(us), uuid);
    } else {
      var front, last := xs[..|xs| - 1], xs[|xs| - 1];
      FilterKeepsListed(us, front, x, uuid);
      KeptSnoc(Some(us), front, last, uuid);
      assert xs == front + [last];
    }
  }

  lemma {:induction false} UnfilteredKeepsAll<T>(xs: seq<T>, uuid: T -> UUID)
    ensures Kept(None, xs, uuid) == xs
  {
    hide Kept;
    if xs == [] {
      KeptNothing(None, uuid);
    } else {
      var front, last := xs[..|xs| - 1], xs[|xs| - 1];
      UnfilteredKeepsAll(front, uuid);
      KeptSnoc(None, front, last, uuid);
      assert xs == front + [last];
    }
  }

  class Client {
    const server: Server
    /** nil until a discovery starts; then the services found so far. */
    var profile: Option<seq<Service>>
    /** The connection's transmit MTU. */
    var txMTU: int

    constructor (server: Server)
      ensures this.server == server && profile == None && txMTU == DEFAULT_MTU
    {
      this.server, profile, txMTU := server, None, DEFAULT_MTU;
    }

    ghost function Services(): seq<Service>
      reads this
    {
      if profile.Some? then profile.value else []
    }

    /** A discovery that is forced, or is the client's first, walks the services and then the members of all
        services the profile lists by then. It yields the hierarchy the server was built from if and only if
        the client held no services before: those it held stay in front, and their members are appended to
        once more. It fails if and only if one of those has a range that cannot be requested. */
    method DiscoverProfile(env: Env, force: bool, ghost ss: seq<SvcDecl>, ghost base: U16)
      returns (r: Result<seq<Service>, ClientError>)
      requires server.Valid() && server.db == DB(Table(ss, base), base) && Discoverable(ss, base)
      modifies this`profile, server, server.txBuf, Services()`characteristics
      modifies CharacteristicObjects(Services())`descriptors, CharacteristicObjects(Services())`cccd
      ensures server.Valid() && server.txBuf == old(server.txBuf) && Walkable(server.db)
      ensures old(profile).Some? && !force ==>
                && r == Ok(old(profile).value) && profile == old(profile)
                && forall s :: s in Services() ==> s.characteristics == old(s.characteristics)
      ensures old(profile) == None || force ==>
                && profile.Some? && old(Services()) <= profile.value
                && SvcViews(profile.value) == old(SvcViews(Services())) + ExpectedSvcs(ss, base)
                && (r.Ok? <==> old(Explorable(Services()))) && (r.Ok? ==> profile == Some(r.value))
                && (r.Ok? && IsHierarchy(r.value, ss, base) <==> old(Services()) == [])
                && (old(Services()) == [] ==> AllNew(profile.value))
      ensures (old(profile) == None || force) && r.Ok? && Distinct(old(Services())) ==>
                && Distinct(r.value)
                && forall k :: 0 <= k < |old(Services())| ==>
                     CharViews(r.value[k].characteristics)
                     == old(CharViews(Services()[k].characteristics)) + Exploration(server.db, r.value[k])
    {
      hide ExpectedSvcs, Table, TableSize, Discoverable, DB.Consecutive, DB.Subrange, Walkable, Exploration,
           Explorable, IsHierarchy, SvcViews, CharViews, Tidy, Distinct;
      TableIsWalkable(ss, base);
      if profile.Some? && !force {
        return Ok(profile.value);
      }
      r := Walk(env, ss, base);
      HierarchyLength(profile.value, ss, base);
      if old(Services()) == [] {
        FoundIsHierarchy(server.db, r.value, ss, base);
      }
    }

    /** DiscoverProfile behind its test for a profile it can return. */
    method Walk(env: Env, ghost ss: seq<SvcDecl>, ghost base: U16) returns (r: Result<seq<Service>, ClientError>)
      requires server.Valid() && server.db == DB(Table(ss, base), base) && Discoverable(ss, base) && Walkable(server.db)
      modifies this`profile, server, server.txBuf, Services()`characteristics
      modifies CharacteristicObjects(Services())`descriptors, CharacteristicObjects(Services())`cccd
      ensures server.Valid() && server.txBuf == old(server.txBuf)
      ensures profile.Some? && old(Services()) <= profile.value && (r.Ok? ==> profile == Some(r.value))
      ensures SvcViews(profile.value) == old(SvcViews(Services())) + ExpectedSvcs(ss, base)
      ensures r.Ok? <==> old(Explorable(Services()))
      ensures old(Services()) == [] ==> r.Ok? && AllNew(profile.value) && Tidy(server.db, r.value, |r.value|)
      ensures r.Ok? && Distinct(old(Services())) ==>
                && Distinct(r.value)
                && forall k :: 0 <= k < |old(Services())| ==>
                     CharViews(r.value[k].characteristics)
                     == old(CharViews(Services()[k].characteristics)) + Exploration(server.db, r.value[k])
    {
      hide ExpectedSvcs, Table, TableSize, Discoverable, DB.Consecutive, DB.Subrange, Walkable, Exploration,
           Explorable, SvcViews, CharViews, ViewsOfAll, Appended, Tidy, Distinct, Kept, AllNew,
           ExplorableSvc, Blank, Server.Valid;
      ghost var found;
      r, found := ListServices(env, ss, base);
      var services;
      match r {
        case Err(_) => return;
        case Ok(list) => services := list;
      }
      ghost var was := ViewsOfAll(services);
      var e := DiscoverAll(services, env);
      if old(Services()) == [] {
        FoundAreNewServices(services);
      }
      match e {
        case Some(err) => return Err(err);
        case None =>
      }
      profile := Some(services);
      AllAppended(server.db, services, was);
    }

    /** The service walk of DiscoverProfile. */
    method ListServices(env: Env, ghost ss: seq<SvcDecl>, ghost base: U16)
      returns (r: Result<seq<Service>, ClientError>, ghost found: seq<Service>)
      requires server.Valid() && server.db == DB(Table(ss, base), base) && Discoverable(ss, base)
      modifies this`profile, server, server.txBuf
      ensures server.Valid() && server.txBuf == old(server.txBuf)
      ensures r == Ok(old(Services()) + found) && profile == Some(r.value)
      ensures forall k :: 0 <= k < |r.value| ==> r.value[k] in old(Services()) || fresh(r.value[k])
      ensures CharacteristicObjects(r.value) == old(CharacteristicObjects(Services()))
      ensures SvcViews(r.value) == old(SvcViews(Services())) + ExpectedSvcs(ss, base)
      ensures Explorable(r.value) <==> old(Explorable(Services()))
      ensures Distinct(old(Services())) ==> Distinct(r.value)
      ensures forall k :: 0 <= k < |old(Services())| ==>
                ViewsOfAll(r.value)[k] == old(CharViews(Services()[k].characteristics))
      ensures old(Services()) == [] ==>
                && r.value == found && (forall s :: s in found ==> fresh(s))
                && Blank(r.value) && Distinct(r.value) && Explorable(r.value)
    {
      hide ExpectedSvcs, Table, TableSize, Discoverable, DB.Consecutive, DB.Subrange, Explorable, SvcViews, CharViews,
           ViewsOfAll, Distinct, Kept;
      ghost var before := Services();
      r, found := DiscoverServices(None, env, ss, base);
      UnfilteredKeepsAll(found, SvcUuid);
      Listed(before, found, r.value);
      FoundAreExplorable(found, ss, base);
      if before == [] {
        assert r.value == found;
      }
    }

    /** A forced discovery right after the first one: every service is listed twice, and those of the first
        discovery have every characteristic twice. */
    method DiscoverAgain(env: Env, ghost ss: seq<SvcDecl>, ghost base: U16)
      returns (r: Result<seq<Service>, ClientError>)
      requires server.Valid() && server.db == DB(Table(ss, base), base) && Discoverable(ss, base) && profile == None
      modifies this`profile, server, server.txBuf
      ensures r.Ok? && SvcViews(r.value) == ExpectedSvcs(ss, base) + ExpectedSvcs(ss, base)
      ensures forall k :: 0 <= k < |ss| ==>
                CharViews(r.value[k].characteristics) == ExpectedMembers(ss, base, k) + ExpectedMembers(ss, base, k)
      ensures ss != [] ==> !IsHierarchy(r.value, ss, base)
    {
      hide ExpectedSvcs, ExpectedMembers, Table, TableSize, Discoverable, DB.Consecutive, DB.Subrange, Walkable,
           Exploration, Explorable, IsHierarchy, SvcViews, CharViews, AllNew, Distinct;
      NoneAreDistinct();
      var first := DiscoverProfile(env, false, ss, base);
      HierarchyIs(server.db, first.value, ss, base);
      AllNewObjects(first.value);
      r := DiscoverProfile(env, true, ss, base);
      assert forall k :: 0 <= k < |ss| ==> r.value[k] == first.value[k];
      ExplorationsAre(server.db, r.value, ss, base);
    }

    /** The loop of DiscoverProfile over the services. */
    method DiscoverAll(services: seq<Service>, env: Env) returns (e: Option<ClientError>)
      requires server.Valid() && Walkable(server.db)
      modifies server, server.txBuf, services`characteristics
      modifies CharacteristicObjects(services)`descriptors, CharacteristicObjects(services)`cccd
      ensures server.Valid() && server.txBuf == old(server.txBuf)
      ensures SvcViews(services) == old(SvcViews(services))
      ensures old(Blank(services)) ==>
                forall s, c :: s in services && c in s.characteristics ==> fresh(c)
      ensures e == None <==> old(Explorable(services))
      ensures e == None && Distinct(services) ==>
                Appended(server.db, services, |services|, old(ViewsOfAll(services)))
      ensures e == None && Distinct(services) && old(Blank(services)) ==> Tidy(server.db, services, |services|)
    {
      hide Walkable, Appended, Tidy, ExplorableSvc, ViewsOfAll, Distinct, SvcViews, Blank, Explorable, Within,
           Server.Valid;
      ghost var was, blank, objects := ViewsOfAll(services), Blank(services), CharacteristicObjects(services);
      NothingAppended(server.db, services);
      ghost var good := set s | s in services && ExplorableSvc(s);
      ghost var made: set<Characteristic> := {};
      ExplorableMeans(services);
      NothingMade(services);
      for i := 0 to |services|
        invariant server.Valid() && server.txBuf == old(server.txBuf)
        invariant fresh(made) && Within(services, objects + made)
        invariant forall s :: s in services ==> (ExplorableSvc(s) <==> s in good)
        invariant forall k :: 0 <= k < i ==> services[k] in good
        invariant Distinct(services) ==> Appended(server.db, services, i, was)
        invariant Distinct(services) && blank ==> Tidy(server.db, services, i)
      {
        WithinOne(services, i, objects + made);
        ghost var added;
        e, added := DiscoverNth(services[i], env, services, i, was, objects + made);
        assert (objects + made) + added == objects + (made + added);
        made := made + added;
        if e.Some? {
          SvcViewsStay(services);
          MembersAreNew(services, objects, made);
          return;
        }
      }
      SvcViewsStay(services);
      MembersAreNew(services, objects, made);
      e := None;
    }

    /** Discovering one service's members leaves the other services as they are. */
    method DiscoverNth(s: Service, env: Env, ghost services: seq<Service>, ghost i: nat,
                       ghost was: seq<seq<FoundChar>>, ghost within: set<Characteristic>)
      returns (e: Option<ClientError>, ghost added: set<Characteristic>)
      requires server.Valid() && Walkable(server.db) && i < |services| == |was| && s == services[i]
      requires Within(services, within)
      modifies server, server.txBuf, s`characteristics
      modifies s.characteristics`descriptors, s.characteristics`cccd
      ensures server.Valid() && server.txBuf == old(server.txBuf)
      ensures fresh(added) && Within(services, within + added) && (e == None <==> old(ExplorableSvc(s)))
      ensures forall t :: t in services ==> (ExplorableSvc(t) <==> old(ExplorableSvc(t)))
      ensures e == None && Distinct(services) && old(Appended(server.db, services, i, was)) ==>
                Appended(server.db, services, i + 1, was)
      ensures e == None && Distinct(services) && old(Tidy(server.db, services, i)) ==> Tidy(server.db, services, i + 1)
    {
      hide Walkable, ExploredChar, Exploration, CharViews, OnlyFoundAdded, ExplorableSvc;
      assert ListsWithin(s, within);
      e := DiscoverMembers(s, env);
      added := set c | c in s.characteristics && c !in old(s.characteristics);
      AddedAreNew(s, added);
      MoreWithin(services, s, old(s.characteristics), within, added);
      forall t | t in services && t != s ensures ExplorableSvc(t) <==> old(ExplorableSvc(t)) {
        SameExplorable(t, []);
      }
      forall k | 0 <= k < |services| && k != i && Distinct(services)
        ensures CharViews(services[k].characteristics) == old(CharViews(services[k].characteristics))
      {
        ViewsStay(services[k].characteristics);
      }
    }

    /** The body of DiscoverProfile's loop over services. */
    method DiscoverMembers(s: Service, env: Env) returns (e: Option<ClientError>)
      requires server.Valid() && Walkable(server.db)
      modifies server, server.txBuf, s`characteristics, s.characteristics`descriptors, s.characteristics`cccd
      ensures server.Valid() && server.txBuf == old(server.txBuf)
      ensures OnlyFoundAdded(s) && (ExplorableSvc(s) <==> old(ExplorableSvc(s)))
      ensures e == None <==> old(ExplorableSvc(s))
      ensures e == None ==>
                CharViews(s.characteristics) == old(CharViews(s.characteristics)) + Exploration(server.db, s)
      ensures e == None && old(s.characteristics) == [] ==> Explored(server.db, s)
    {
      hide Walkable, Exploration, OnlyFoundAdded, ExplorableSvc, Kept, CharViews;
      ghost var found;
      var cs;
      cs, found := DiscoverCharacteristics(None, s, env);
      UnfilteredKeepsAll(found, CharUuid);
      FoundAreNew(s, found);
      FoundAreExplorableChars(s, found, server.db);
      ViewsStay(old(s.characteristics));
      ViewsAppend(old(s.characteristics), found);
      var chars;
      match cs {
        case Err(err) =>
          SameExplorable(s, found);
          return Some(err);
        case Ok(list) => chars := list;
      }
      e := DiscoverAllDescriptors(chars, env);
      FoundAreNew(s, found);
      SameExplorable(s, found);
    }

    /** The loop of DiscoverProfile over the characteristics of one service. */
    method DiscoverAllDescriptors(chars: seq<Characteristic>, env: Env) returns (e: Option<ClientError>)
      requires server.Valid() && Walkable(server.db)
      modifies server, server.txBuf, chars`descriptors, chars`cccd
      ensures server.Valid() && server.txBuf == old(server.txBuf)
      ensures CharViews(chars) == old(CharViews(chars))
      ensures e == None <==> forall c :: c in chars ==> c.valueHandle < 0xFFFF
      ensures e == None && Distinct(chars) && old(Bare(chars)) ==> forall c :: c in chars ==> ExploredChar(server.db, c)
    {
      hide Walkable, ExploredChar, CharViews;
      for j := 0 to |chars|
        invariant server.Valid() && server.txBuf == old(server.txBuf)
        invariant forall k :: 0 <= k < j ==> chars[k].valueHandle < 0xFFFF
        invariant Distinct(chars) && old(Bare(chars)) ==>
                    && (forall k :: 0 <= k < j ==> ExploredChar(server.db, chars[k]))
                    && (forall k :: j <= k < |chars| ==> chars[k].descriptors == [] && chars[k].cccd == null)
      {
        e := DiscoverOneDescriptors(chars[j], env);
        if e.Some? {
          ViewsStay(chars);
          return;
        }
      }
      ViewsStay(chars);
      e := None;
    }

    method DiscoverOneDescriptors(c: Characteristic, env: Env) returns (e: Option<ClientError>)
      requires server.Valid() && Walkable(server.db)
      modifies c`descriptors, c`cccd, server, server.txBuf
      ensures server.Valid() && server.txBuf == old(server.txBuf)
      ensures e == None <==> c.valueHandle < 0xFFFF
      ensures e == None && old(c.descriptors == [] && c.cccd == null) ==> ExploredChar(server.db, c)
    {
      hide AttrsFrom, FoundDescs, Walkable;
      var ds;
      ghost var found;
      ds, found := DiscoverDescriptors(None, c, env);
      UnfilteredKeepsAll(found, DescUuid);
      match ds {
        case Err(err) => return Some(err);
        case Ok(_) =>
      }
      if old(c.descriptors) == [] {
        assert c.descriptors == found;
      }
      e := None;
    }

    /** Every primary service is found; the profile gets those the filter wants. */
    method DiscoverServices(filter: Option<seq<UUID>>, env: Env, ghost ss: seq<SvcDecl>, ghost base: U16)
      returns (r: Result<seq<Service>, ClientError>, ghost found: seq<Service>)
      requires server.Valid() && server.db == DB(Table(ss, base), base) && Discoverable(ss, base)
      modifies this`profile, server, server.txBuf
      ensures server.Valid() && server.txBuf == old(server.txBuf)
      ensures r == Ok(old(Services()) + Kept(filter, found, SvcUuid)) && profile == Some(r.value)
      ensures SvcViews(found) == ExpectedSvcs(ss, base)
      ensures (forall s :: s in found ==> fresh(s)) && Distinct(found) && Blank(found)
    {
      hide Kept, Table, TableSize, GroupReply, ExpectedSvcs, SvcHeads, Pending, Skip, Flat, SvcSize, SvcEnd, SvcsAhead,
           DB.Consecutive, DB.Subrange, Server.Valid;
      if profile == None {
        profile := Some([]);
      }
      var start: U16 := 0x0001;
      ghost var rest: seq<SvcDecl>, h: U16 := ss, base;
      found := [];
      KeptNothing(filter, SvcUuid);
      assert old(Services()) + Kept(filter, found, SvcUuid) == old(Services());
      FirstService(server.db, ss, base);
      while true
        invariant server.Valid() && server.txBuf == old(server.txBuf)
        invariant profile == Some(old(Services()) + Kept(filter, found, SvcUuid))
        invariant (forall s :: s in found ==> fresh(s)) && Distinct(found) && Blank(found)
        invariant SvcViews(found) + ExpectedSvcs(rest, h) == ExpectedSvcs(ss, base)
        invariant SvcsAhead(server.db, start, rest, h)
        decreases |rest|
      {
        ServerLength(server);
        ghost var k := ServiceReply(server.db, server.txBuf.Length, start, rest, h, env);
        var reply := ReadByGroupType(server, start, 0xFFFF, PRIMARY_SERVICE, env);
        var length, b;
        match reply {
          case Err(e) =>
            if e == Att(ATTR_NOT_FOUND) {
              ExpectedServicesEnd(rest, h, SvcViews(found));
              return Ok(profile.value), found;
            }
            assert false;
            return Err(e), found;
          case Ok((l, list)) =>
            length, b := l, list;
        }
        if length != 6 && length != 20 {
          assert false;
          return Err(BadEntryLength), found;
        }
        var complete;
        complete, start, rest, h, found :=
          AddServices(filter, length, b, start, k, rest, h, old(Services()), found);
        if complete {
          ExpectedServicesEnd(rest, h, SvcViews(found));
          return Ok(profile.value), found;
        }
      }
    }

    /** The entry loop of DiscoverServices on one reply; `complete` when it met the last service. */
    method AddServices(filter: Option<seq<UUID>>, length: nat, data: seq<Byte>, from: U16,
                       ghost n: nat, ghost ss: seq<SvcDecl>, ghost at: U16,
                       ghost before: seq<Service>, ghost sofar: seq<Service>)
      returns (complete: bool, start: U16, ghost rest: seq<SvcDecl>, ghost h: U16, ghost found: seq<Service>)
      requires server.db.Consecutive() && SvcsAhead(server.db, from, ss, at) && ss != []
      requires length > 0 && n > 0 && Pending(data, GroupWires(SvcHeads(ss, at)), n, length)
      requires profile == Some(before + Kept(filter, sofar, SvcUuid)) && Distinct(sofar) && Blank(sofar)
      modifies this`profile
      ensures profile == Some(before + Kept(filter, found, SvcUuid)) && Blank(found) && Distinct(found)
      ensures forall s :: s in found ==> s in sofar || fresh(s)
      ensures SvcViews(found) + ExpectedSvcs(rest, h) == old(SvcViews(sofar)) + ExpectedSvcs(ss, at)
      ensures if complete then rest == [] else SvcsAhead(server.db, start, rest, h) && |rest| < |ss|
    {
      hide Kept, Table, TableSize, ExpectedSvcs, SvcHeads, Pending, Skip, Flat, SvcSize, SvcEnd, SvcsAhead,
           DB.Consecutive, DB.Subrange;
      var b := data;
      ghost var k := n;
      start, rest, h, found := from, ss, at, sofar;
      while b != []
        invariant profile == Some(before + Kept(filter, found, SvcUuid)) && Blank(found) && Distinct(found)
        invariant forall s :: s in found ==> s in sofar || fresh(s)
        invariant SvcViews(found) + ExpectedSvcs(rest, h) == old(SvcViews(sofar)) + ExpectedSvcs(ss, at)
        invariant SvcsAhead(server.db, start, rest, h) && Pending(b, GroupWires(SvcHeads(rest, h)), k, length)
        invariant |rest| <= |ss| && (|rest| == |ss| ==> k > 0)
        decreases |b|
      {
        PendingDone(b, GroupWires(SvcHeads(rest, h)), k, length);
        TakeService(rest, h, b, k, length);
        ExpectedService(rest, h, SvcViews(found));
        var endh := U16At(b, 2);
        ghost var s;
        s, found := AddService(filter, b[4..length], U16At(b, 0), endh, before, found);
        if |rest| > 1 {
          NextService(server.db, start, rest, h);
        }
        h, rest, k := Skip(h, SvcSize(rest[0])), rest[1..], k - 1;
        if endh == 0xFFFF {
          complete := true;
          return;
        }
        start := Inc(endh);
        b := b[length..];
      }
      PendingDone(b, GroupWires(SvcHeads(rest, h)), k, length);
      complete := false;
    }

    /** Appends a service, if wanted, to the profile, which holds `before` and then the wanted of `found`. */
    method AddService(filter: Option<seq<UUID>>, u: UUID, h: U16, endh: U16,
                      ghost before: seq<Service>, ghost found: seq<Service>)
      returns (ghost s: Service, ghost now: seq<Service>)
      requires profile == Some(before + Kept(filter, found, SvcUuid)) && Blank(found)
      modifies this`profile
      ensures profile == Some(before + Kept(filter, now, SvcUuid)) && Blank(now)
      ensures SvcViews(now) == old(SvcViews(found)) + [FoundSvc(u, h, endh)]
      ensures fresh(s) && now == found + [s]
    {
      hide Kept;
      var svc := new Service(u, h, endh);
      if filter == None || u in filter.value {
        profile := Some(profile.value + [svc]);
      }
      s := svc;
      now := found + [s];
      KeptSnoc(filter, found, s, SvcUuid);
      assert profile.value == before + Kept(filter, now, SvcUuid);
    }

    /** Every characteristic declared in the range of `s` is found, and ends where the next one begins, also
        when the filter does not want that one; the service gets those the filter wants. A range from 0 is
        refused by the server. */
    method DiscoverCharacteristics(filter: Option<seq<UUID>>, s: Service, env: Env)
      returns (r: Result<seq<Characteristic>, ClientError>, ghost found: seq<Characteristic>)
      requires server.Valid() && Walkable(server.db)
      modifies s`characteristics, server, server.txBuf
      ensures server.Valid() && server.txBuf == old(server.txBuf)
      ensures s.characteristics == old(s.characteristics) + Kept(filter, found, CharUuid)
      ensures (forall c :: c in found ==> fresh(c)) && Distinct(found) && Bare(found)
      ensures if s.handle == 0 then r == Err(Att(INVALID_HANDLE)) && found == []
              else r == Ok(s.characteristics) && CharViews(found) == Exploration(server.db, s)
    {
      hide Kept, TypeReply, FoundChars, Declarations, DeclsFrom, Pending, Flat, DB.Consecutive, DB.Subrange, WithEnd,
           EndBefore, Walkable, Server.Valid;
      var start: U16, end: U16 := s.handle, s.endHandle;
      var lastChar: Characteristic? := null;
      ghost var rest := DeclsFrom(server.db, start, end);
      DeclsDeclare(server.db, start, end);
      ghost var goal := FoundChars(rest, end);
      found := [];
      KeptNothing(filter, CharUuid);
      assert s.characteristics + Kept(filter, found, CharUuid) == s.characteristics;
      NoneYet(EndBefore(rest, end), goal);
      while start <= end
        invariant server.Valid() && server.txBuf == old(server.txBuf)
        invariant s.handle == 0 ==> start == 0 && found == []
        invariant s.handle > 0 ==> start > 0
        invariant s.characteristics == old(s.characteristics) + Kept(filter, found, CharUuid)
        invariant (forall c :: c in found ==> fresh(c)) && Chained(found, lastChar, end)
        invariant Declarations(rest) && rest == DeclsFrom(server.db, start, end)
        invariant WithEnd(CharViews(found), EndBefore(rest, end)) + FoundChars(rest, end) == goal
        decreases |rest|
      {
        ServerLength(server);
        ghost var k := CharacteristicReply(server.db, server.txBuf.Length, start, end, env);
        var reply := ReadByType(server, start, end, CHARACTERISTIC, env);
        var length, b;
        match reply {
          case Err(e) =>
            if e == Att(ATTR_NOT_FOUND) {
              break;
            }
            assert start == 0;
            return Err(e), found;
          case Ok((l, list)) =>
            length, b := l, list;
        }
        if length != 7 && length != 21 {
          assert false;
          return Err(BadEntryLength), found;
        }
        assert lastChar != null ==> lastChar in found;
        lastChar, start, rest, found :=
          AddCharacteristics(filter, s, length, b, lastChar, start, k, rest, old(s.characteristics), found);
      }
      if start > end {
        NothingAhead(server.db, start, end);
      }
      NoneExpected(rest, end, CharViews(found));
      assert CharViews(found) == goal;
      r := Ok(s.characteristics);
    }

    /** The entry loop of DiscoverCharacteristics on one reply. */
    method AddCharacteristics(filter: Option<seq<UUID>>, s: Service, length: nat, data: seq<Byte>,
                              last0: Characteristic?, from: U16, ghost n: nat, ghost heads: seq<Attr>,
                              ghost before: seq<Characteristic>, ghost sofar: seq<Characteristic>)
      returns (lastChar: Characteristic?, start: U16, ghost rest: seq<Attr>, ghost found: seq<Characteristic>)
      requires Walkable(server.db) && heads == DeclsFrom(server.db, from, s.endHandle) && heads != [] && 0 < from
      requires Declarations(heads) && Static(heads)
      requires length > 0 && n > 0 && Pending(data, TypeWires(heads), n, length)
      requires s.characteristics == before + Kept(filter, sofar, CharUuid) && Chained(sofar, last0, s.endHandle)
      modifies s`characteristics, if last0 == null then {} else {last0}
      ensures s.characteristics == before + Kept(filter, found, CharUuid) && Chained(found, lastChar, s.endHandle)
      ensures forall c :: c in found ==> c in sofar || fresh(c)
      ensures 0 < start && rest == DeclsFrom(server.db, start, s.endHandle) && Declarations(rest) && |rest| < |heads|
      ensures WithEnd(CharViews(found), EndBefore(rest, s.endHandle)) + FoundChars(rest, s.endHandle)
           == WithEnd(old(CharViews(sofar)), EndBefore(heads, s.endHandle)) + FoundChars(heads, s.endHandle)
    {
      hide Kept, FoundChars, Declarations, Static, DeclsFrom, Pending, Flat, DB.Consecutive, DB.Subrange, WithEnd,
           EndBefore, Walkable;
      var end := s.endHandle;
      var b := data;
      ghost var k := n;
      lastChar, start, rest, found := last0, from, heads, sofar;
      while b != []
        invariant s.characteristics == before + Kept(filter, found, CharUuid)
        invariant Chained(found, lastChar, end) && 0 < start
        invariant forall c :: c in found ==> c in sofar || fresh(c)
        invariant lastChar == last0 || fresh(lastChar)
        invariant rest == DeclsFrom(server.db, start, end) && Declarations(rest) && Static(rest)
        invariant WithEnd(CharViews(found), EndBefore(rest, end)) + FoundChars(rest, end)
               == WithEnd(old(CharViews(sofar)), EndBefore(heads, end)) + FoundChars(heads, end)
        invariant Pending(b, TypeWires(rest), k, length)
        invariant |rest| <= |heads| && (|rest| == |heads| ==> k > 0)
        decreases |b|
      {
        PendingDone(b, TypeWires(rest), k, length);
        NextCharacteristic(server.db, start, end);
        TakeCharacteristic(rest, b, k, length);
        DeclsDeclare(server.db, rest[0].h + 2, end);
        var vh := U16At(b, 3);
        ExpectedCharacteristic(rest, end, WithEnd(CharViews(found), EndBefore(rest, end)));
        EndIsBefore(rest, end);
        lastChar, found := AddCharacteristic(filter, s, b[5..length], b[2], U16At(b, 0), vh, lastChar, before, found);
        start := Inc(vh);
        b := b[length..];
        rest, k := rest[1..], k - 1;
      }
      PendingDone(b, TypeWires(rest), k, length);
    }

    /** The append of a wanted characteristic. */
    method AppendWanted(filter: Option<seq<UUID>>, s: Service, c: Characteristic, ghost was: seq<Characteristic>)
      requires s.characteristics == was
      modifies s`characteristics
      ensures s.characteristics == was + if Wanted(filter, c.uuid) then [c] else []
    {
      if filter == None || c.uuid in filter.value {
        s.characteristics := s.characteristics + [c];
      }
    }

    /** Appends a characteristic, if wanted, to the service's list, which holds `before` and then the wanted
        of `found`; wanted or not, its declaration ends the characteristic found before it. */
    method AddCharacteristic(filter: Option<seq<UUID>>, s: Service, u: UUID, property: Byte, h: U16, vh: U16,
                             lastChar: Characteristic?,
                             ghost before: seq<Characteristic>, ghost found: seq<Characteristic>)
      returns (c: Characteristic, ghost now: seq<Characteristic>)
      requires s.characteristics == before + Kept(filter, found, CharUuid) && Chained(found, lastChar, s.endHandle)
      modifies s`characteristics, if lastChar == null then {} else {lastChar}
      ensures s.characteristics == before + Kept(filter, now, CharUuid) && Chained(now, c, s.endHandle)
      ensures CharViews(now) == WithEnd(old(CharViews(found)), Dec(h)) + [FoundChar(u, property, h, vh, s.endHandle)]
      ensures fresh(c) && now == found + [c]
    {
      hide Kept, Wanted;
      c := new Characteristic(u, property, h, vh, s.endHandle);
      KeptSnoc(filter, found, c, CharUuid);
      now := found + [c];
      AppendWanted(filter, s, c, before + Kept(filter, found, CharUuid));
      assert s.characteristics == before + Kept(filter, now, CharUuid);
      EndLast(lastChar, Dec(c.handle), found, s.endHandle);
      ViewsAppend(found, [c]);
    }

    /** The update of lastChar. */
    method EndLast(lastChar: Characteristic?, to: U16, ghost found: seq<Characteristic>, ghost end: U16)
      requires Chained(found, lastChar, end)
      modifies if lastChar == null then {} else {lastChar}
      ensures CharViews(found) == WithEnd(old(CharViews(found)), to) && Distinct(found) && Bare(found)
    {
      if lastChar != null {
        lastChar.endHandle := to;
      }
    }

    /** Every attribute behind the value of `c`, up to its end handle, is found as a descriptor; the
        characteristic gets those the filter wants, and its CCCD whether wanted or not. Behind 0xFFFF the
        range would start at 0, which the request refuses. */
    method DiscoverDescriptors(filter: Option<seq<UUID>>, c: Characteristic, env: Env)
      returns (r: Result<seq<Descriptor>, ClientError>, ghost found: seq<Descriptor>)
      requires server.Valid() && Walkable(server.db)
      modifies c`descriptors, c`cccd, server, server.txBuf
      ensures server.Valid() && server.txBuf == old(server.txBuf)
      ensures c.descriptors == old(c.descriptors) + Kept(filter, found, DescUuid)
      ensures (forall d :: d in found ==> fresh(d)) && c.cccd == LastCCCD(found, old(c.cccd))
      ensures if c.valueHandle == 0xFFFF then r == Err(InvalidArgument) && found == []
              else
                && r == Ok(c.descriptors)
                && DescViews(found) == FoundDescs(AttrsFrom(server.db, c.valueHandle + 1, c.endHandle))
    {
      hide Kept, InformationReply, FoundDescs, AttrsFrom, Pending, Flat, DB.Consecutive, DB.Subrange, LastCCCD,
           Walkable, Server.Valid;
      var start: U16, end: U16 := Inc(c.valueHandle), c.endHandle;
      ghost var rest := AttrsFrom(server.db, start, end);
      ghost var goal := FoundDescs(rest);
      found := [];
      KeptNothing(filter, DescUuid);
      assert c.descriptors + Kept(filter, found, DescUuid) == c.descriptors && DescViews(found) + goal == goal;
      NoCCCDYet(c.cccd);
      while start <= end
        invariant server.Valid() && server.txBuf == old(server.txBuf)
        invariant c.valueHandle == 0xFFFF ==> start == 0 && found == []
        invariant c.valueHandle < 0xFFFF ==> start > 0
        invariant c.descriptors == old(c.descriptors) + Kept(filter, found, DescUuid)
        invariant c.cccd == LastCCCD(found, old(c.cccd))
        invariant forall d :: d in found ==> fresh(d)
        invariant rest == AttrsFrom(server.db, start, end)
        invariant DescViews(found) + FoundDescs(rest) == goal
        decreases |rest|
      {
        ServerLength(server);
        ghost var k := DescriptorReply(server.db, server.txBuf.Length, start, end);
        var reply := FindInformation(server, start, end, env);
        var format, length, b;
        match reply {
          case Err(e) =>
            if e == Att(ATTR_NOT_FOUND) {
              break;
            }
            assert start == 0;
            return Err(e), found;
          case Ok((f, list)) =>
            format, b := f, list;
        }
        length := if format == 0x02 then 18 else 4;
        start, rest, found :=
          AddDescriptors(filter, c, length, b, start, k, rest, old(c.descriptors), found, old(c.cccd));
      }
      if start > end {
        NoDescriptorAhead(server.db, start, end);
      }
      NoDescriptorExpected(rest, DescViews(found));
      r := Ok(c.descriptors);
    }

    /** The entry loop of DiscoverDescriptors on one reply. */
    method AddDescriptors(filter: Option<seq<UUID>>, c: Characteristic, length: nat, data: seq<Byte>, from: U16,
                          ghost n: nat, ghost attrs: seq<Attr>,
                          ghost before: seq<Descriptor>, ghost sofar: seq<Descriptor>, ghost was: Descriptor?)
      returns (start: U16, ghost rest: seq<Attr>, ghost found: seq<Descriptor>)
      requires Walkable(server.db) && attrs == AttrsFrom(server.db, from, c.endHandle) && attrs != []
      requires length > 0 && n > 0 && Pending(data, InfoWires(attrs), n, length)
      requires c.descriptors == before + Kept(filter, sofar, DescUuid) && c.cccd == LastCCCD(sofar, was)
      modifies c`descriptors, c`cccd
      ensures c.descriptors == before + Kept(filter, found, DescUuid) && c.cccd == LastCCCD(found, was)
      ensures forall d :: d in found ==> d in sofar || fresh(d)
      ensures 0 < start && rest == AttrsFrom(server.db, start, c.endHandle) && |rest| < |attrs|
      ensures DescViews(found) + FoundDescs(rest) == old(DescViews(sofar)) + FoundDescs(attrs)
    {
      hide Kept, FoundDescs, AttrsFrom, Pending, Flat, DB.Consecutive, DB.Subrange, LastCCCD, Walkable;
      var b := data;
      ghost var k := n;
      start, rest, found := from, attrs, sofar;
      while b != []
        invariant c.descriptors == before + Kept(filter, found, DescUuid) && c.cccd == LastCCCD(found, was)
        invariant forall d :: d in found ==> d in sofar || fresh(d)
        invariant DescViews(found) + FoundDescs(rest) == old(DescViews(sofar)) + FoundDescs(attrs)
        invariant rest == AttrsFrom(server.db, start, c.endHandle)
        invariant Pending(b, InfoWires(rest), k, length)
        invariant |rest| <= |attrs| && (|rest| == |attrs| ==> k > 0) && (k == n || 0 < start)
        decreases |b|
      {
        PendingDone(b, InfoWires(rest), k, length);
        NextDescriptor(server.db, start, c.endHandle);
        TakeAttribute(rest, b, k, length);
        ExpectedDescriptor(rest, DescViews(found));
        var h := U16At(b, 0);
        ghost var d;
        d, found := AddDescriptor(filter, c, b[2..length], h, before, found, was);
        start := Inc(h);
        b := b[length..];
        rest, k := rest[1..], k - 1;
      }
      PendingDone(b, InfoWires(rest), k, length);
    }

    /** Appends a descriptor, if wanted, to the characteristic's list, which holds `before` and then the
        wanted of `found`. */
    method AddDescriptor(filter: Option<seq<UUID>>, c: Characteristic, u: UUID, h: U16,
                         ghost before: seq<Descriptor>, ghost found: seq<Descriptor>, ghost was: Descriptor?)
      returns (ghost d: Descriptor, ghost now: seq<Descriptor>)
      requires c.descriptors == before + Kept(filter, found, DescUuid) && c.cccd == LastCCCD(found, was)
      modifies c`descriptors, c`cccd
      ensures fresh(d) && now == found + [d]
      ensures c.descriptors == before + Kept(filter, now, DescUuid) && c.cccd == LastCCCD(now, was)
      ensures DescViews(now) == old(DescViews(found)) + [FoundDesc(u, h)]
    {
      hide Kept, Wanted, LastCCCD;
      var desc := new Descriptor(u);
      desc.handle := h;
      d, now := desc, found + [desc];
      assert DescViews(now) == old(DescViews(found)) + [FoundDesc(u, h)];
      KeptSnoc(filter, found, desc, DescUuid);
      LastSnoc(found, desc, was);
      KeepDescriptor(filter, c, desc, before + Kept(filter, found, DescUuid));
      assert c.descriptors == before + Kept(filter, now, DescUuid);
    }

    /** The append of a wanted descriptor, and the CCCD. */
    method KeepDescriptor(filter: Option<seq<UUID>>, c: Characteristic, desc: Descriptor,
                          ghost was: seq<Descriptor>)
      requires c.descriptors == was
      modifies c`descriptors, c`cccd
      ensures c.descriptors == was + if Wanted(filter, desc.uuid) then [desc] else []
      ensures c.cccd == if desc.uuid == CLIENT_CHARACTERISTIC_CONFIG then desc else old(c.cccd)
    {
      if filter == None || desc.uuid in filter.value {
        c.descriptors := c.descriptors + [desc];
      }
      if desc.uuid == CLIENT_CHARACTERISTIC_CONFIG {
        c.cccd := desc;
      }
    }

    /** Reads a static value of at most 65535 bytes piece by piece. The result is the whole value
        exactly when the server's transmit length reaches the client's MTU or one response holds the
        value; otherwise the first, short, response is taken for the last. */
    method ReadLongCharacteristic(c: Characteristic, env: Env) returns (r: Result<seq<Byte>, ClientError>)
      requires server.Valid() && txMTU >= DEFAULT_MTU
      requires match server.db.At(c.valueHandle)
               case Some(a) => a.v.Some? && |a.v.value| <= 0xFFFF
               case None => true
      modifies c`value, server, server.txBuf
      ensures server.Valid() && server.txBuf == old(server.txBuf)
      ensures match server.db.At(c.valueHandle)
              case None => r == Err(Att(INVALID_HANDLE)) && c.value == old(c.value)
              case Some(a) =>
                && c.value == Some(LongReadResult(a.v.value, txMTU, server.txBuf.Length))
                && r == Ok(c.value.value)
    {
      hide ReadReply, ReadBlobReply, Server.Valid;
      ServerLength(server);
      ReadReplyIs(server.db, server.txBuf.Length, c.valueHandle, env);
      r := Read(server, c.valueHandle, env);
      var part;
      match r {
        case Err(_) => return;
        case Ok(p) => part := p;
      }
      ghost var v := server.db.At(c.valueHandle).value.v.value;
      var buffer := part;
      while |part| >= txMTU - 1
        invariant server.Valid() && server.txBuf == old(server.txBuf) && c.value == old(c.value)
        invariant |buffer| <= |v| && buffer == v[..|buffer|]
        invariant |part| < server.txBuf.Length - 1 ==> buffer == v
        invariant |part| >= server.txBuf.Length - 1 ==> |part| == server.txBuf.Length - 1 && |buffer| >= |part|
        invariant server.txBuf.Length < txMTU ==> buffer == v[..Min(|v|, server.txBuf.Length - 1)]
        decreases |v| - |buffer|, |part|
      {
        ReadBlobReplyIs(server.db, server.txBuf.Length, c.valueHandle, |buffer|, env);
        r := ReadBlob(server, c.valueHandle, Wrap(|buffer|), env);
        match r {
          case Err(_) => return;
          case Ok(p) => part := p;
        }
        SliceSplit(v, |buffer|, |buffer| + |part|);
        buffer := buffer + part;
      }
      c.value := Some(buffer);
      r := Ok(buffer);
    }
  }

  lemma ServerLength(server: Server)
    requires server.Valid()
    ensures server.txBuf.Length >= DEFAULT_MTU
  {
  }

  /** What a long read of v yields at client MTU m against a server that sends t bytes at a time. */
  function LongReadResult(v: seq<Byte>, m: int, t: nat): (r: seq<Byte>)
    requires t >= 1
    ensures r == v <==> t >= m || |v| < t
  {
    if t >= m then v else v[..Min(|v|, t - 1)]
  }

  /** `c` carries exactly the descriptors of `decl`, in handle order behind its value, and its CCCD. */
  ghost predicate CompleteChar(c: Characteristic, decl: CharDecl)
    reads c, c.descriptors
  {
    && DescViews(c.descriptors) == ExpectedDescs(Descs(decl), Inc(c.valueHandle))
    && c.cccd == LastCCCD(c.descriptors, null)
  }

  /** `s` carries exactly the characteristics of `decl`, each of them complete. */
  ghost predicate Complete(s: Service, decl: SvcDecl)
    reads s, s.characteristics, DescriptorObjects(s.characteristics)
  {
    && CharViews(s.characteristics) == ExpectedChars(decl.chars, Inc(s.handle), s.endHandle)
    && |s.characteristics| == |decl.chars|
    && forall j :: 0 <= j < |decl.chars| ==> CompleteChar(s.characteristics[j], decl.chars[j])
  }

  /** What a walk over the range of `s` finds. */
  ghost function Exploration(db: DB, s: Service): seq<FoundChar>
    requires Walkable(db)
    reads s
  {
    DeclsDeclare(db, s.handle, s.endHandle);
    FoundChars(DeclsFrom(db, s.handle, s.endHandle), s.endHandle)
  }

  /** Whether the ranges of a service and of its characteristics can be requested. */
  ghost predicate ExplorableSvc(s: Service)
    reads s, s.characteristics
  {
    s.handle > 0 && forall c :: c in s.characteristics ==> c.valueHandle < 0xFFFF
  }

  ghost predicate Explorable(ss: seq<Service>)
    reads ss, CharacteristicObjects(ss)
  {
    forall s :: s in ss ==> ExplorableSvc(s)
  }

  /** Only found characteristics have been added. */
  twostate predicate OnlyFoundAdded(s: Service)
    reads s
  {
    forall k :: 0 <= k < |s.characteristics| ==>
      s.characteristics[k] in old(s.characteristics) || fresh(s.characteristics[k])
  }

  twostate lemma FoundAreNew(s: Service, new found: seq<Characteristic>)
    requires s.characteristics == old(s.characteristics) + found && forall c :: c in found ==> fresh(c)
    ensures OnlyFoundAdded(s)
    ensures forall k :: 0 <= k < |s.characteristics| ==>
              s.characteristics[k] in old(s.characteristics) || fresh(s.characteristics[k])
  {
    forall k | 0 <= k < |s.characteristics|
      ensures s.characteristics[k] in old(s.characteristics) || fresh(s.characteristics[k])
    {
      var n := |old(s.characteristics)|;
      if k >= n {
        assert s.characteristics[k] == found[k - n] && found[k - n] in found;
      }
    }
  }

  lemma FoundAreExplorableChars(s: Service, found: seq<Characteristic>, db: DB)
    requires Walkable(db) && (found == [] || CharViews(found) == Exploration(db, s))
    ensures forall c :: c in found ==> c.valueHandle < 0xFFFF
  {
    hide Walkable, Exploration;
    ExplorationIsExplorable(db, s);
    forall c | c in found ensures c.valueHandle < 0xFFFF {
      var k :| 0 <= k < |found| && found[k] == c;
      assert CharView(c) == CharViews(found)[k];
    }
  }

  twostate lemma SameExplorable(s: Service, new found: seq<Characteristic>)
    requires s.characteristics == old(s.characteristics) + found && s.handle == old(s.handle)
    requires forall c :: c in found ==> c.valueHandle < 0xFFFF
    requires forall c :: c in old(s.characteristics) ==> c.valueHandle == old(c.valueHandle)
    ensures ExplorableSvc(s) <==> old(ExplorableSvc(s))
    ensures ExplorableSvc(s) <==> s.handle > 0 && forall c :: c in s.characteristics ==> c.valueHandle < 0xFFFF
  {
  }

  /** What is found of a characteristic does not change with its descriptors. */
  twostate lemma ViewsStay(cs: seq<Characteristic>)
    requires forall c :: c in cs ==>
               && c.property == old(c.property) && c.handle == old(c.handle)
               && c.valueHandle == old(c.valueHandle) && c.endHandle == old(c.endHandle)
    ensures CharViews(cs) == old(CharViews(cs))
  {
  }

  lemma ViewsAppend(xs: seq<Characteristic>, ys: seq<Characteristic>)
    ensures CharViews(xs + ys) == CharViews(xs) + CharViews(ys)
  {
  }

  ghost function ViewsOfAll(services: seq<Service>): (r: seq<seq<FoundChar>>)
    reads services, CharacteristicObjects(services)
    ensures |r| == |services|
  {
    seq(|services|, k requires 0 <= k < |services| reads services, CharacteristicObjects(services) =>
      CharViews(services[k].characteristics))
  }

  /** The first i services have had their characteristics appended to what they had, the others not. */
  ghost predicate Appended(db: DB, services: seq<Service>, i: nat, was: seq<seq<FoundChar>>)
    requires Walkable(db) && i <= |services| == |was|
    reads services, CharacteristicObjects(services)
  {
    forall k :: 0 <= k < |services| ==>
      CharViews(services[k].characteristics) == was[k] + if k < i then Exploration(db, services[k]) else []
  }

  /** The first i services are explored, the others blank. */
  ghost predicate Tidy(db: DB, services: seq<Service>, i: nat)
    requires Walkable(db) && i <= |services|
    reads services, CharacteristicObjects(services)
    reads set c, d | c in CharacteristicObjects(services) && d in c.descriptors :: d
  {
    forall k :: 0 <= k < |services| ==>
      if k < i then Explored(db, services[k]) else services[k].characteristics == []
  }

  lemma NothingAppended(db: DB, services: seq<Service>)
    requires Walkable(db)
    ensures Appended(db, services, 0, ViewsOfAll(services)) && (Blank(services) ==> Tidy(db, services, 0))
    ensures forall k :: 0 <= k < |services| ==> ViewsOfAll(services)[k] == CharViews(services[k].characteristics)
  {
    hide Walkable;
  }

  lemma AllAppended(db: DB, services: seq<Service>, was: seq<seq<FoundChar>>)
    requires Walkable(db) && |was| == |services|
    ensures Appended(db, services, |services|, was) ==>
              forall k :: 0 <= k < |services| ==>
                CharViews(services[k].characteristics) == was[k] + Exploration(db, services[k])
    ensures Tidy(db, services, |services|) ==> forall k :: 0 <= k < |services| ==> Explored(db, services[k])
  {
    hide Walkable, Explored, Exploration, CharViews;
  }

  lemma ExplorableMeans(services: seq<Service>)
    ensures Explorable(services) <==> forall k :: 0 <= k < |services| ==> ExplorableSvc(services[k])
  {
    hide ExplorableSvc;
    assert forall k :: 0 <= k < |services| ==> services[k] in services;
  }

  lemma ExplorationIsExplorable(db: DB, s: Service)
    requires Walkable(db)
    ensures forall j :: 0 <= j < |Exploration(db, s)| ==> Exploration(db, s)[j].valueHandle < 0xFFFF
  {
    hide Walkable, DeclsFrom;
    DeclsDeclare(db, s.handle, s.endHandle);
    FoundCharsAreExplorable(DeclsFrom(db, s.handle, s.endHandle), s.endHandle);
  }

  lemma {:induction false} FoundCharsAreExplorable(heads: seq<Attr>, end: U16)
    requires Declarations(heads)
    ensures forall j :: 0 <= j < |heads| ==> FoundChars(heads, end)[j].valueHandle < 0xFFFF
  {
    if heads != [] {
      FoundCharsAreExplorable(heads[1..], end);
    }
  }

  /** `c` carries exactly the attributes behind its value, up to its end, and its CCCD. */
  ghost predicate ExploredChar(db: DB, c: Characteristic)
    reads c, c.descriptors
  {
    && DescViews(c.descriptors) == FoundDescs(AttrsFrom(db, Inc(c.valueHandle), c.endHandle))
    && c.cccd == LastCCCD(c.descriptors, null)
  }

  /** `s` carries exactly the characteristics in its range, each of them explored. */
  ghost predicate Explored(db: DB, s: Service)
    requires Walkable(db)
    reads s, s.characteristics, DescriptorObjects(s.characteristics)
  {
    && CharViews(s.characteristics) == Exploration(db, s)
    && forall c :: c in s.characteristics ==> ExploredChar(db, c)
  }

  /** A service explored over the range that holds exactly its attributes is complete. */
  lemma ExploredIsComplete(db: DB, s: Service, decl: SvcDecl, last: bool)
    requires Walkable(db) && Explored(db, s) && DiscoverableChars(decl.chars)
    requires 0 < s.handle <= s.endHandle && s.handle + SvcSize(decl) <= 0xFFFF
    requires db.Subrange(s.handle, s.endHandle) == SvcAttrs(decl, s.handle, last)
    ensures Complete(s, decl)
  {
    hide DB.Subrange, SvcAttrs, FoundChars, ExpectedChars, CharHeads, DeclsFrom, AttrsFrom, FoundDescs, ExpectedDescs,
         DescAttrs, LastCCCD, Regular, SvcSize;
    ExplorationIsExpected(db, s, decl, last);
    var views := ExpectedChars(decl.chars, Inc(s.handle), s.endHandle);
    forall j | 0 <= j < |decl.chars| ensures CompleteChar(s.characteristics[j], decl.chars[j]) {
      var c := s.characteristics[j];
      assert CharView(c) == CharViews(s.characteristics)[j] == views[j];
      DescsOfCharacteristic(db, decl, s.handle, s.endHandle, last, j);
      DescsAreExpected(Descs(decl.chars[j]), c.valueHandle + 1);
      assert ExploredChar(db, c);
    }
  }

  lemma ExplorationIsExpected(db: DB, s: Service, decl: SvcDecl, last: bool)
    requires Walkable(db) && DiscoverableChars(decl.chars)
    requires 0 < s.handle <= s.endHandle && s.handle + SvcSize(decl) <= 0xFFFF
    requires db.Subrange(s.handle, s.endHandle) == SvcAttrs(decl, s.handle, last)
    ensures Exploration(db, s) == ExpectedChars(decl.chars, Inc(s.handle), s.endHandle)
  {
    hide DB.Subrange, SvcAttrs, FoundChars, ExpectedChars, CharHeads, DeclsFrom, Regular, CharsSize;
    DeclsOfService(db, decl, s.handle, s.endHandle, last);
    HeadsAreExpected(decl.chars, Inc(s.handle), s.endHandle);
  }

  /** The services of the server's database, each complete. */
  ghost predicate IsHierarchy(services: seq<Service>, ss: seq<SvcDecl>, base: U16)
    reads services, CharacteristicObjects(services)
    reads set c, d | c in CharacteristicObjects(services) && d in c.descriptors :: d
  {
    SvcViews(services) == ExpectedSvcs(ss, base) && forall k :: 0 <= k < |ss| ==> Complete(services[k], ss[k])
  }

  /** What is found of a service does not change with its characteristics. */
  twostate lemma SvcViewsStay(ss: seq<Service>)
    requires forall s :: s in ss ==> s.handle == old(s.handle) && s.endHandle == old(s.endHandle)
    ensures SvcViews(ss) == old(SvcViews(ss))
  {
  }

  /** The list behind the service walk: the services there were, unchanged, and the found ones. */
  twostate predicate Behind(before: seq<Service>, new found: seq<Service>, new services: seq<Service>)
    reads before, found, CharacteristicObjects(before)
  {
    && services == before + found && Blank(found) && Distinct(found) && (forall s :: s in found ==> fresh(s))
    && (forall s :: s in before ==>
          && s.handle == old(s.handle) && s.endHandle == old(s.endHandle)
          && s.characteristics == old(s.characteristics))
    && (forall c :: c in old(CharacteristicObjects(before)) ==>
          && c.property == old(c.property) && c.handle == old(c.handle)
          && c.valueHandle == old(c.valueHandle) && c.endHandle == old(c.endHandle))
  }

  twostate lemma Listed(before: seq<Service>, new found: seq<Service>, new services: seq<Service>)
    requires Behind(before, found, services)
    ensures forall k :: 0 <= k < |services| ==> services[k] in before || fresh(services[k])
    ensures CharacteristicObjects(services) == old(CharacteristicObjects(before))
    ensures SvcViews(services) == old(SvcViews(before)) + SvcViews(found)
    ensures Explorable(services) <==> old(Explorable(before)) && Explorable(found)
    ensures Distinct(before) ==> Distinct(services)
    ensures forall k :: 0 <= k < |before| ==> ViewsOfAll(services)[k] == old(CharViews(before[k].characteristics))
    ensures before == [] ==> Blank(services) && old(Explorable(before)) && Distinct(before)
  {
    hide Explorable, ViewsOfAll, CharViews;
    ListedObjects(before, found, services);
    ListedViews(before, found, services);
    ListedExplorable(before, found, services);
  }

  twostate lemma ListedObjects(before: seq<Service>, new found: seq<Service>, new services: seq<Service>)
    requires Behind(before, found, services)
    ensures forall k :: 0 <= k < |services| ==> services[k] in before || fresh(services[k])
    ensures CharacteristicObjects(services) == old(CharacteristicObjects(before))
    ensures Distinct(before) ==> Distinct(services)
  {
    var n := |before|;
    forall k | n <= k < |services| ensures services[k] in found && fresh(services[k]) {
      assert services[k] == found[k - n];
    }
    assert CharacteristicObjects(services) == CharacteristicObjects(before);
  }

  twostate lemma ListedViews(before: seq<Service>, new found: seq<Service>, new services: seq<Service>)
    requires Behind(before, found, services)
    ensures SvcViews(services) == old(SvcViews(before)) + SvcViews(found)
    ensures forall k :: 0 <= k < |before| ==> ViewsOfAll(services)[k] == old(CharViews(before[k].characteristics))
  {
    hide CharViews;
    SvcViewsStay(before);
    forall k | 0 <= k < |before|
      ensures ViewsOfAll(services)[k] == old(CharViews(before[k].characteristics))
    {
      ViewsStay(before[k].characteristics);
    }
  }

  twostate lemma ListedExplorable(before: seq<Service>, new found: seq<Service>, new services: seq<Service>)
    requires Behind(before, found, services)
    ensures Explorable(services) <==> old(Explorable(before)) && Explorable(found)
    ensures before == [] ==> old(Explorable(before))
  {
    hide ExplorableSvc;
    forall s | s in before ensures ExplorableSvc(s) <==> old(ExplorableSvc(s)) {
      SameExplorable(s, []);
    }
  }

  lemma NoneAreDistinct()
    ensures Distinct<Service>([])
  {
  }

  lemma HierarchyLength(services: seq<Service>, ss: seq<SvcDecl>, base: U16)
    ensures IsHierarchy(services, ss, base) ==> |services| == |ss|
  {
    hide ExpectedSvcs;
  }

  /** All characteristics the services list are among `cs`. */
  ghost predicate Within(services: seq<Service>, cs: set<Characteristic>)
    reads services
  {
    forall s :: s in services ==> ListsWithin(s, cs)
  }

  ghost predicate ListsWithin(s: Service, cs: set<Characteristic>)
    reads s
  {
    forall k :: 0 <= k < |s.characteristics| ==> s.characteristics[k] in cs
  }

  lemma NothingMade(services: seq<Service>)
    ensures Within(services, CharacteristicObjects(services) + {})
    ensures Blank(services) ==> CharacteristicObjects(services) == {}
  {
  }

  lemma WithinOne(services: seq<Service>, i: nat, cs: set<Characteristic>)
    requires Within(services, cs) && i < |services|
    ensures forall k :: 0 <= k < |services[i].characteristics| ==> services[i].characteristics[k] in cs
  {
    assert ListsWithin(services[i], cs);
  }

  /** The characteristics a service has got are new. */
  twostate lemma AddedAreNew(s: Service, new added: set<Characteristic>)
    requires OnlyFoundAdded(s)
    requires added == set c | c in s.characteristics && c !in old(s.characteristics)
    ensures fresh(added)
    ensures forall k :: 0 <= k < |s.characteristics| ==>
              s.characteristics[k] in old(s.characteristics) || s.characteristics[k] in added
  {
  }

  lemma MoreWithin(services: seq<Service>, s: Service, was: seq<Characteristic>, within: set<Characteristic>,
                   added: set<Characteristic>)
    requires forall t :: t in services && t != s ==> ListsWithin(t, within)
    requires forall k :: 0 <= k < |was| ==> was[k] in within
    requires forall k :: 0 <= k < |s.characteristics| ==> s.characteristics[k] in was || s.characteristics[k] in added
    ensures Within(services, within + added)
  {
  }

  twostate lemma MembersAreNew(services: seq<Service>, new objects: set<Characteristic>,
                               new made: set<Characteristic>)
    requires Within(services, objects + made) && fresh(made)
    ensures objects == {} ==> forall s, c :: s in services && c in s.characteristics ==> fresh(c)
  {
    if objects == {} {
      forall s, c | s in services && c in s.characteristics ensures fresh(c) {
        assert ListsWithin(s, objects + made);
        var k :| 0 <= k < |s.characteristics| && s.characteristics[k] == c;
      }
    }
  }

  /** Services, and characteristics in them, that a discovery has made. */
  twostate predicate AllNew(new services: seq<Service>)
    reads services
  {
    forall k :: 0 <= k < |services| ==>
      fresh(services[k]) && forall c :: c in services[k].characteristics ==> fresh(c)
  }

  twostate lemma FoundAreNewServices(new services: seq<Service>)
    requires forall s :: s in services ==> fresh(s)
    requires forall s, c :: s in services && c in s.characteristics ==> fresh(c)
    ensures AllNew(services)
  {
    assert forall k :: 0 <= k < |services| ==> services[k] in services;
  }

  twostate lemma AllNewObjects(new services: seq<Service>)
    requires AllNew(services)
    ensures forall k :: 0 <= k < |services| ==> fresh(services[k])
    ensures forall c :: c in CharacteristicObjects(services) ==> fresh(c)
  {
  }

  /** What is found of the members of service k. */
  ghost function ExpectedMembers(ss: seq<SvcDecl>, base: U16, k: nat): seq<FoundChar>
    requires k < |ss|
  {
    ExpectedChars(ss[k].chars, Inc(ExpectedSvcs(ss, base)[k].handle), ExpectedSvcs(ss, base)[k].endHandle)
  }

  /** Services found under the ranges of the database are explored with the same outcome each time. */
  lemma ExplorationsAre(db: DB, services: seq<Service>, ss: seq<SvcDecl>, base: U16)
    requires Walkable(db) && db == DB(Table(ss, base), base) && Discoverable(ss, base)
    requires |services| >= |ss| && SvcViews(services)[..|ss|] == ExpectedSvcs(ss, base)
    ensures forall k :: 0 <= k < |ss| ==>
              services[k].handle > 0 && Exploration(db, services[k]) == ExpectedMembers(ss, base, k)
  {
    hide ExpectedSvcs, ExpectedChars, Walkable, Table, Discoverable, DB.Subrange, DB.Consecutive, SvcAttrs,
         SvcSize, DiscoverableChars, Exploration;
    forall k | 0 <= k < |ss|
      ensures services[k].handle > 0 && Exploration(db, services[k]) == ExpectedMembers(ss, base, k)
    {
      assert SvcView(services[k]) == SvcViews(services)[..|ss|][k] == ExpectedSvcs(ss, base)[k];
      ServiceRange(db, ss, base, k);
      ExplorationIsExpected(db, services[k], ss[k], k == |ss| - 1);
    }
  }

  /** A discovered hierarchy can be discovered again. */
  lemma HierarchyIs(db: DB, services: seq<Service>, ss: seq<SvcDecl>, base: U16)
    requires Walkable(db) && db == DB(Table(ss, base), base) && Discoverable(ss, base)
    requires IsHierarchy(services, ss, base)
    ensures Explorable(services) && |services| == |ss| && SvcViews(services) == ExpectedSvcs(ss, base)
    ensures forall k :: 0 <= k < |ss| ==> CharViews(services[k].characteristics) == ExpectedMembers(ss, base, k)
  {
    hide ExpectedSvcs, ExpectedChars, Walkable, Table, Discoverable, ExplorableSvc, Exploration, CharViews;
    assert SvcViews(services)[..|ss|] == SvcViews(services);
    ExplorationsAre(db, services, ss, base);
    forall k | 0 <= k < |ss|
      ensures ExplorableSvc(services[k])
      ensures CharViews(services[k].characteristics) == ExpectedMembers(ss, base, k)
    {
      assert Complete(services[k], ss[k]);
      assert SvcView(services[k]) == SvcViews(services)[k];
      CompleteIsExplorable(db, services[k]);
    }
  }

  lemma CompleteIsExplorable(db: DB, s: Service)
    requires Walkable(db) && s.handle > 0 && CharViews(s.characteristics) == Exploration(db, s)
    ensures ExplorableSvc(s)
  {
    hide Walkable, Exploration;
    FoundAreExplorableChars(s, s.characteristics, db);
  }

  lemma FoundAreExplorable(found: seq<Service>, ss: seq<SvcDecl>, base: U16)
    requires SvcViews(found) == ExpectedSvcs(ss, base) && Discoverable(ss, base) && Blank(found)
    ensures Explorable(found)
  {
    hide ExpectedSvcs, SvcEnd;
    forall k | 0 <= k < |found| ensures ExplorableSvc(found[k]) {
      assert SvcView(found[k]) == SvcViews(found)[k];
      ExpectedSvcAt(ss, base, k);
    }
  }

  lemma FoundIsHierarchy(db: DB, found: seq<Service>, ss: seq<SvcDecl>, base: U16)
    requires Walkable(db) && db == DB(Table(ss, base), base) && Discoverable(ss, base)
    requires SvcViews(found) == ExpectedSvcs(ss, base) && Tidy(db, found, |found|)
    ensures IsHierarchy(found, ss, base)
  {
    hide ExpectedSvcs, Explored, Complete, Walkable, Table, Discoverable, DB.Subrange, DB.Consecutive, SvcAttrs,
         SvcSize, DiscoverableChars;
    forall k | 0 <= k < |ss| ensures Complete(found[k], ss[k]) {
      assert SvcView(found[k]) == SvcViews(found)[k];
      ServiceRange(db, ss, base, k);
      ExploredIsComplete(db, found[k], ss[k], k == |ss| - 1);
    }
  }

  /** Service k is found with the range that holds exactly its attributes. */
  lemma ServiceRange(db: DB, ss: seq<SvcDecl>, base: U16, k: nat)
    requires db == DB(Table(ss, base), base) && Discoverable(ss, base) && k < |ss|
    ensures var v := ExpectedSvcs(ss, base)[k];
            && db.Consecutive() && DiscoverableChars(ss[k].chars)
            && 0 < v.handle <= v.endHandle && v.handle + SvcSize(ss[k]) <= 0xFFFF
            && db.Subrange(v.handle, v.endHandle) == SvcAttrs(ss[k], v.handle, k == |ss| - 1)
  {
    hide ExpectedSvcs, SvcSize, SvcAttrs, DB.Subrange, Table, SvcOffset;
    TableIsConsecutive(ss, base);
    ServicesPartitionTable(ss, base, k);
    ExpectedSvcAt(ss, base, k);
    ServiceSlice(ss, base, k);
  }

  /** The CCCD a walk leaves: the last configuration descriptor it found, or the one known before. */
  ghost function LastCCCD(ds: seq<Descriptor>, was: Descriptor?): Descriptor? {
    if ds == [] then was
    else if ds[|ds| - 1].uuid == CLIENT_CHARACTERISTIC_CONFIG then ds[|ds| - 1]
    else LastCCCD(ds[..|ds| - 1], was)
  }

  lemma LastSnoc(ds: seq<Descriptor>, d: Descriptor, was: Descriptor?)
    ensures LastCCCD(ds + [d], was) == if d.uuid == CLIENT_CHARACTERISTIC_CONFIG then d else LastCCCD(ds, was)
  {
    assert (ds + [d])[..|ds|] == ds;
  }

  lemma NoCCCDYet(was: Descriptor?)
    ensures LastCCCD([], was) == was
  {
  }

  lemma ExpectedDescriptor(attrs: seq<Attr>, before: seq<FoundDesc>)
    requires attrs != []
    ensures before + FoundDescs(attrs) == before + [FoundDesc(attrs[0].typ, attrs[0].h)] + FoundDescs(attrs[1..])
  {
  }

  lemma NoDescriptorExpected(attrs: seq<Attr>, views: seq<FoundDesc>)
    requires attrs == []
    ensures views + FoundDescs(attrs) == views
  {
  }

  lemma NoDescriptorAhead(db: DB, start: U16, end: U16)
    requires start > end
    ensures AttrsFrom(db, start, end) == []
  {
  }

  /** The reply to a Find Information request over a range. */
  lemma DescriptorReply(db: DB, mtu: nat, start: U16, end: U16) returns (k: nat)
    requires mtu >= 23 && start <= end && Walkable(db)
    ensures var r, attrs := InformationReply(db, mtu, start, end), AttrsFrom(db, start, end);
            if start == 0 then r == Err(InvalidArgument)
            else if attrs == [] then r == Err(Att(ATTR_NOT_FOUND))
            else
              && r.Ok? && k > 0 && r.value.1 != []
              && Pending(r.value.1, InfoWires(attrs), k, if r.value.0 == 2 then 18 else 4)
  {
    hide Flat, Matching, DB.Subrange, FindInformationRsp, InformationList, Walkable, DB.Consecutive;
    var attrs := AttrsFrom(db, start, end);
    k := 0;
    if start > 0 {
      if attrs != [] {
        NextDescriptor(db, start, end);
      }
      k := InformationReplyHolds(db, mtu, start, end, attrs);
      if attrs != [] {
        var r := InformationReply(db, mtu, start, end);
        PendingDone(r.value.1, InfoWires(attrs), k, if r.value.0 == 2 then 18 else 4);
      }
    }
  }

  /** The reply to a Read By Group Type request for the services from `ss` on. */
  lemma ServiceReply(db: DB, mtu: nat, start: U16, ss: seq<SvcDecl>, h: U16, env: Env) returns (k: nat)
    requires mtu >= 23 && SvcsAhead(db, start, ss, h)
    ensures var r := GroupReply(db, mtu, start, 0xFFFF, PRIMARY_SERVICE, env);
            if ss == [] then r == Err(Att(ATTR_NOT_FOUND))
            else
              && r.Ok? && (r.value.0 == 6 || r.value.0 == 20) && k > 0 && r.value.1 != []
              && Pending(r.value.1, GroupWires(SvcHeads(ss, h)), k, r.value.0)
  {
    hide GroupReply, Table, Flat, Matching;
    ServicesMatch(ss, h);
    k := GroupReplyHolds(db, mtu, start, 0xFFFF, PRIMARY_SERVICE, env, SvcHeads(ss, h));
    if ss != [] {
      var r := GroupReply(db, mtu, start, 0xFFFF, PRIMARY_SERVICE, env);
      PendingDone(r.value.1, GroupWires(SvcHeads(ss, h)), k, r.value.0);
    }
  }

  lemma ExpectedService(ss: seq<SvcDecl>, h: U16, before: seq<FoundSvc>)
    requires ss != []
    ensures before + ExpectedSvcs(ss, h)
         == before + [FoundSvc(ss[0].uuid, h, SvcEnd(ss[0], h, |ss| == 1))]
            + ExpectedSvcs(ss[1..], Skip(h, SvcSize(ss[0])))
    ensures |ss| == 1 ==> SvcEnd(ss[0], h, true) == 0xFFFF
  {
  }

  lemma ExpectedServicesEnd(ss: seq<SvcDecl>, h: U16, before: seq<FoundSvc>)
    requires ss == []
    ensures before + ExpectedSvcs(ss, h) == before
  {
  }

  /** Services without characteristics, and characteristics without descriptors. */
  ghost predicate Blank(ss: seq<Service>)
    reads ss
  {
    forall s :: s in ss ==> s.characteristics == []
  }

  ghost predicate Bare(cs: seq<Characteristic>)
    reads cs
  {
    forall c :: c in cs ==> c.descriptors == [] && c.cccd == null
  }

  /** lastChar is the last of `found`, and still ends where the service ends. */
  ghost predicate Chained(found: seq<Characteristic>, lastChar: Characteristic?, end: U16)
    reads found, lastChar
  {
    && Distinct(found) && Bare(found)
    && (if found == [] then lastChar == null else lastChar == found[|found| - 1] && lastChar.endHandle == end)
  }

  function WithEnd(views: seq<FoundChar>, e: U16): (r: seq<FoundChar>)
    ensures |r| == |views|
  {
    if views == [] then [] else views[..|views| - 1] + [views[|views| - 1].(endHandle := e)]
  }

  lemma NoneYet(e: U16, goal: seq<FoundChar>)
    ensures WithEnd([], e) + goal == goal && CharViews([]) == []
  {
  }

  lemma EndIsBefore(heads: seq<Attr>, end: U16)
    requires heads != []
    ensures EndBefore(heads, end) == Dec(heads[0].h)
  {
  }

  lemma ExpectedCharacteristic(heads: seq<Attr>, end: U16, before: seq<FoundChar>)
    requires Declarations(heads) && heads != []
    ensures Declarations(heads[1..])
    ensures before + FoundChars(heads, end)
         == WithEnd(before + [CharOf(heads[0], end)], EndBefore(heads[1..], end)) + FoundChars(heads[1..], end)
  {
    hide WithEnd, EndBefore, FoundChars, CharOf;
    var e := EndBefore(heads[1..], end);
    FirstFound(heads, end);
    WithEndSnoc(before, CharOf(heads[0], end), e);
    CharOfEnds(heads[0], end, e);
    assert before + ([CharOf(heads[0], e)] + FoundChars(heads[1..], end))
        == before + [CharOf(heads[0], e)] + FoundChars(heads[1..], end);
  }

  lemma FirstFound(heads: seq<Attr>, end: U16)
    requires Declarations(heads) && heads != []
    ensures FoundChars(heads, end) == [CharOf(heads[0], EndBefore(heads[1..], end))] + FoundChars(heads[1..], end)
  {
    hide CharOf, EndBefore;
  }

  lemma CharOfEnds(a: Attr, end: U16, e: U16)
    requires Declares(a)
    ensures CharOf(a, end).(endHandle := e) == CharOf(a, e)
  {
  }

  lemma WithEndSnoc(views: seq<FoundChar>, v: FoundChar, e: U16)
    ensures WithEnd(views + [v], e) == views + [v.(endHandle := e)]
  {
  }

  lemma NothingAhead(db: DB, start: U16, end: U16)
    requires start > end
    ensures DeclsFrom(db, start, end) == []
  {
  }

  lemma NoneExpected(heads: seq<Attr>, end: U16, views: seq<FoundChar>)
    requires heads == [] && (views != [] ==> views[|views| - 1].endHandle == end)
    ensures WithEnd(views, EndBefore(heads, end)) + FoundChars(heads, end) == views
  {
  }

  /** The reply to a Read By Type request for the characteristic declarations in a range. */
  lemma CharacteristicReply(db: DB, mtu: nat, start: U16, end: U16, env: Env) returns (k: nat)
    requires mtu >= 23 && start <= end && Walkable(db)
    ensures Static(DeclsFrom(db, start, end))
    ensures var r, heads := TypeReply(db, mtu, start, end, CHARACTERISTIC, env), DeclsFrom(db, start, end);
            if start == 0 then r == Err(Att(INVALID_HANDLE))
            else if heads == [] then r == Err(Att(ATTR_NOT_FOUND))
            else
              && r.Ok? && (r.value.0 == 7 || r.value.0 == 21) && k > 0 && r.value.1 != []
              && Pending(r.value.1, TypeWires(heads), k, r.value.0)
  {
    hide Fill, TypeEntries, Flat, Matching, DB.Subrange, Walkable, DB.Consecutive;
    var heads := DeclsFrom(db, start, end);
    DeclsDeclare(db, start, end);
    k := 0;
    if start > 0 {
      k := TypeReplyHolds(db, mtu, start, end, CHARACTERISTIC, env, heads);
      if heads != [] {
        var r := TypeReply(db, mtu, start, end, CHARACTERISTIC, env);
        PendingDone(r.value.1, TypeWires(heads), k, r.value.0);
      }
    }
  }
}
