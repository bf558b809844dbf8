/** What discovery leaves in the client's objects, field by field, against what the server declared. */
module DiscoveredProfile {
  import opened Bytes
  import opened Profile
  import opened AttDb
  import opened AttLayout
  import opened Discovery
  import opened GattClient

  lemma {:induction false} ExpectedDescAt(ds: seq<DescDecl>, h: U16, i: nat)
    requires i < |ds| && h + i <= 0xFFFF
    ensures ExpectedDescs(ds, h)[i] == FoundDesc(ds[i].uuid, h + i)
  {
    if i > 0 {
      ExpectedDescAt(ds[1..], Inc(h), i - 1);
    }
  }

  /** Every service is there, in order, with its UUID and its range: up to the next service, and to 0xFFFF
      for the last. */
  lemma ServiceIsFound(services: seq<Service>, ss: seq<SvcDecl>, base: U16, k: nat)
    requires Discoverable(ss, base) && IsHierarchy(services, ss, base) && k < |ss|
    ensures |services| == |ss| && |services[k].characteristics| == |ss[k].chars|
    ensures var s, h := services[k], base + SvcOffset(ss, k);
            && s.uuid == ss[k].uuid && s.handle == h
            && s.endHandle == if k == |ss| - 1 then 0xFFFF else base + SvcOffset(ss, k + 1) - 1
  {
    hide SvcOffset, TableSize, SvcSize, SvcEnd, ExpectedSvcs, DiscoverableSvcs;
    assert Complete(services[k], ss[k]);
    ExpectedSvcAt(ss, base, k);
    assert SvcView(services[k]) == SvcViews(services)[k];
    SvcOffsetStep(ss, k);
    if k < |ss| - 1 {
      assert TableSize(ss[k..]) >= SvcSize(ss[k]) by { assert ss[k..][0] == ss[k]; FirstOfTable(ss[k..], base); }
      SvcEndIsBeforeNext(ss[k], base + SvcOffset(ss, k));
    } else {
      assert SvcEnd(ss[k], base + SvcOffset(ss, k), true) == 0xFFFF by { LastEnds(ss[k], base + SvcOffset(ss, k)); }
    }
  }

  lemma LastEnds(s: SvcDecl, h: U16)
    ensures SvcEnd(s, h, true) == 0xFFFF
  {
  }

  /** So is every characteristic of a service, with its UUID, its properties and the handles of its
      declaration and value; it ends right before the next one, and the last where its service ends. */
  lemma CharacteristicIsFound(services: seq<Service>, ss: seq<SvcDecl>, base: U16, k: nat, j: nat)
    requires Discoverable(ss, base) && IsHierarchy(services, ss, base) && k < |ss| && j < |ss[k].chars|
    ensures |services| == |ss| && |services[k].characteristics| == |ss[k].chars|
    ensures var s, c, d, h := services[k], services[k].characteristics[j], ss[k].chars[j], CharHandle(ss, base, k, j);
            && c.uuid == d.uuid && c.property == d.property % 0x100
            && c.handle == h && c.valueHandle == h + 1
            && c.endHandle == if j == |ss[k].chars| - 1 then s.endHandle else CharHandle(ss, base, k, j + 1) - 1
  {
    hide SvcOffset, CharOffset, TableSize, ExpectedSvcs, ExpectedChars, CharsSize, DiscoverableSvcs;
    ServiceIsFound(services, ss, base, k);
    var s, cs := services[k], ss[k].chars;
    assert Complete(s, ss[k]);
    CharsOfService(ss, base, k);
    ExpectedCharAt(cs, s.handle + 1, s.endHandle, j);
    assert CharView(s.characteristics[j]) == CharViews(s.characteristics)[j];
  }

  lemma DescriptorOf(c: Characteristic, decl: CharDecl, i: nat)
    requires CompleteChar(c, decl) && i < |Descs(decl)| && c.valueHandle + 1 + i <= 0xFFFF
    ensures var ds := Descs(decl);
            && |c.descriptors| == |ds| && c.descriptors[i].uuid == ds[i].uuid
            && c.descriptors[i].handle == c.valueHandle + 1 + i
            && (i == |ds| - 1 && ds[i].uuid == [0x02, 0x29] ==> c.cccd == c.descriptors[i])
  {
    hide Descs, ExpectedDescs;
    ExpectedDescAt(Descs(decl), c.valueHandle + 1, i);
    assert DescView(c.descriptors[i]) == DescViews(c.descriptors)[i];
  }

  lemma DescriptorFits(ss: seq<SvcDecl>, base: U16, k: nat, j: nat, i: nat)
    requires Discoverable(ss, base) && k < |ss| && j < |ss[k].chars| && i < |Descs(ss[k].chars[j])|
    ensures CharHandle(ss, base, k, j) + 2 + i <= 0xFFFF
  {
    hide Table, TableSize, SvcOffset, CharOffset, CharAttrs, DB.At, CharHandle, DiscoverableSvcs;
    CharAttributeAt(ss, base, k, j, 2 + i);
  }

  /** And every descriptor of a characteristic, behind its value, the CCCD among them, which the
      characteristic knows for its own. */
  lemma DescriptorIsFound(services: seq<Service>, ss: seq<SvcDecl>, base: U16, k: nat, j: nat, i: nat)
    requires Discoverable(ss, base) && IsHierarchy(services, ss, base) && k < |ss| && j < |ss[k].chars|
    requires i < |Descs(ss[k].chars[j])|
    ensures |services| == |ss| && |services[k].characteristics| == |ss[k].chars|
    ensures var c, d := services[k].characteristics[j], Descs(ss[k].chars[j]);
            && |c.descriptors| == |d| && c.descriptors[i].uuid == d[i].uuid
            && c.descriptors[i].handle == CharHandle(ss, base, k, j) + 2 + i
            && (i == |d| - 1 && d[i].uuid == [0x02, 0x29] ==> c.cccd == c.descriptors[i])
  {
    hide CharHandle, Discoverable, CompleteChar, Descs, SvcViews, CharViews, ExpectedSvcs, ExpectedChars;
    CharacteristicIsFound(services, ss, base, k, j);
    DescriptorFits(ss, base, k, j, i);
    assert Complete(services[k], ss[k]);
    DescriptorOf(services[k].characteristics[j], ss[k].chars[j], i);
  }
}
