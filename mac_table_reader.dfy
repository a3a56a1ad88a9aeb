/** The port/VLAN classifier and the MAC table reader of one switch: an
    allow-list of access ports from the interface status, then the per-VLAN
    MAC tables filtered against it, sorted. */
module MacTableReader {
  import opened Types
  import opened PairOrder

  /** The allow-list: ports whose interface-status VLAN is a user VLAN, in
      interface-status order. */
  function AccessPorts(statuses: seq<InterfaceStatus>, vlans: seq<VlanId>): seq<Port>
  {
    if statuses == [] then []
    else
      var last := statuses[|statuses| - 1];
      AccessPorts(statuses[..|statuses| - 1], vlans) + if last.vlan in vlans then [last.port] else []
  }

  /** An entry on which the filter's `destination_port[0]` raises: a record of
      a user VLAN whose destination-port list is empty. */
  predicate Faulty(e: MacEntry, vlans: seq<VlanId>)
  {
    e.MacRecord? && e.vlan in vlans && |e.destinationPorts| == 0
  }

  predicate AnyFaulty(responses: seq<seq<MacEntry>>, vlans: seq<VlanId>)
  {
    exists i, j :: 0 <= i < |responses| && 0 <= j < |responses[i]| && Faulty(responses[i][j], vlans)
  }

  /** Entry `e` contributes pair `p`: a well-formed record of a user VLAN whose
      first destination port is allow-listed and is `p`'s port. */
  predicate Produces(e: MacEntry, vlans: seq<VlanId>, allow: seq<Port>, p: PortMac)
  {
    && e.MacRecord?
    && e.vlan in vlans
    && |e.destinationPorts| > 0
    && e.destinationPorts[0] == p.port
    && p.port in allow
    && e.destinationAddress == p.mac
  }

  /** What one entry contributes to the collected list. */
  function EntryPairs(e: MacEntry, vlans: seq<VlanId>, allow: seq<Port>): seq<PortMac>
  {
    match e
    case Malformed(_) => []
    case MacRecord(vlan, ports, address) =>
      if vlan in vlans && |ports| > 0 && ports[0] in allow then [PortMac(ports[0], address)] else []
  }

  /** The pairs collected from one VLAN's MAC table. */
  function Kept(entries: seq<MacEntry>, vlans: seq<VlanId>, allow: seq<Port>): seq<PortMac>
  {
    if entries == [] then []
    else Kept(entries[..|entries| - 1], vlans, allow) + EntryPairs(entries[|entries| - 1], vlans, allow)
  }

  /** The pairs collected from all VLANs' MAC tables, VLAN by VLAN. */
  function Gathered(responses: seq<seq<MacEntry>>, vlans: seq<VlanId>, allow: seq<Port>): seq<PortMac>
  {
    if responses == [] then []
    else Gathered(responses[..|responses| - 1], vlans, allow) + Kept(responses[|responses| - 1], vlans, allow)
  }

  /** What `mac_table` returns for a switch: `statuses` is its interface
      status, `responses[i]` its MAC table for `vlans[i]`. */
  function SwitchPairs(statuses: seq<InterfaceStatus>, vlans: seq<VlanId>, responses: seq<seq<MacEntry>>): seq<PortMac>
  {
    SortPairs(Gathered(responses, vlans, AccessPorts(statuses, vlans)))
  }

  /** First half of `mac_table`: the allow-list from the interface status. */
  method AllowList(statuses: seq<InterfaceStatus>, vlans: seq<VlanId>) returns (accessPorts: seq<Port>)
    ensures accessPorts == AccessPorts(statuses, vlans)
  {
    accessPorts := [];
    for k := 0 to |statuses|
      invariant accessPorts == AccessPorts(statuses[..k], vlans)
    {
      assert statuses[..k + 1][..k] == statuses[..k];
      if statuses[k].vlan in vlans {
        accessPorts := accessPorts + [statuses[k].port];
      }
    }
    assert statuses[..|statuses|] == statuses;
  }

  /** The filter over one VLAN's MAC table (the inner loop of `mac_table`). */
  method FilterTable(entries: seq<MacEntry>, vlans: seq<VlanId>, accessPorts: seq<Port>)
    returns (r: Result<seq<PortMac>>)
    ensures r.Err? <==> exists j :: 0 <= j < |entries| && Faulty(entries[j], vlans)
    ensures r.Ok? ==> r.value == Kept(entries, vlans, accessPorts)
  {
    var kept: seq<PortMac> := [];
    for j := 0 to |entries|
      invariant kept == Kept(entries[..j], vlans, accessPorts)
      invariant forall jj :: 0 <= jj < j ==> !Faulty(entries[jj], vlans)
    {
      assert entries[..j + 1][..j] == entries[..j];
      var entry := entries[j];
      // with this check parser failures are skipped
      if entry.Malformed? {
        continue;
      }
      if entry.vlan in vlans {
        if |entry.destinationPorts| == 0 {
          assert Faulty(entries[j], vlans);
          return Err(MissingDestinationPort);
        }
        if entry.destinationPorts[0] in accessPorts {
          kept := kept + [PortMac(entry.destinationPorts[0], entry.destinationAddress)];
        }
      }
    }
    assert entries[..|entries|] == entries;
    r := Ok(kept);
  }

  /** Second half of `mac_table`, before sorting: the filter over each
      VLAN's MAC table in turn. */
  method FilterEntries(vlans: seq<VlanId>, responses: seq<seq<MacEntry>>, accessPorts: seq<Port>)
    returns (r: Result<seq<PortMac>>)
    requires |responses| == |vlans|
    ensures r.Err? <==> AnyFaulty(responses, vlans)
    ensures r.Ok? ==> r.value == Gathered(responses, vlans, accessPorts)
  {
    var collected: seq<PortMac> := [];
    for i := 0 to |vlans|
      invariant collected == Gathered(responses[..i], vlans, accessPorts)
      invariant forall ii, jj :: 0 <= ii < i && 0 <= jj < |responses[ii]| ==> !Faulty(responses[ii][jj], vlans)
    {
      assert responses[..i + 1][..i] == responses[..i];
      var kept := FilterTable(responses[i], vlans, accessPorts);
      if kept.Err? {
        return Err(kept.error);
      }
      collected := collected + kept.value;
    }
    assert responses[..|responses|] == responses;
    r := Ok(collected);
  }

  /** `mac_table`, with the device queries replaced by their parsed output:
      `responses[i]` is the answer to the MAC-table query for `vlans[i]`. */
  method MacTable(statuses: seq<InterfaceStatus>, vlans: seq<VlanId>, responses: seq<seq<MacEntry>>)
    returns (r: Result<seq<PortMac>>)
    requires |responses| == |vlans|
    ensures r.Err? <==> AnyFaulty(responses, vlans)
    ensures r.Ok? ==> r.value == SwitchPairs(statuses, vlans, responses)
  {
    var accessPorts := AllowList(statuses, vlans);
    var collected := FilterEntries(vlans, responses, accessPorts);
    if collected.Err? {
      return Err(collected.error);
    }
    r := Ok(SortPairs(collected.value));
  }

  /** The allow-list holds exactly the ports whose status VLAN is a user VLAN. */
  lemma {:induction false} AccessPortsMembers(statuses: seq<InterfaceStatus>, vlans: seq<VlanId>, port: Port)
    ensures port in AccessPorts(statuses, vlans)
        <==> exists k :: 0 <= k < |statuses| && statuses[k].port == port && statuses[k].vlan in vlans
  {
    if statuses != [] {
      var n := |statuses|;
      var init := statuses[..n - 1];
      AccessPortsMembers(init, vlans, port);
      if exists k :: 0 <= k < n - 1 && init[k].port == port && init[k].vlan in vlans {
        var k :| 0 <= k < n - 1 && init[k].port == port && init[k].vlan in vlans;
        assert statuses[k] == init[k];
      }
      if exists k :: 0 <= k < n && statuses[k].port == port && statuses[k].vlan in vlans {
        var k :| 0 <= k < n && statuses[k].port == port && statuses[k].vlan in vlans;
        if k < n - 1 {
          assert init[k] == statuses[k];
        }
      }
    }
  }

  lemma EntryPairsMembers(e: MacEntry, vlans: seq<VlanId>, allow: seq<Port>, p: PortMac)
    ensures p in EntryPairs(e, vlans, allow) <==> Produces(e, vlans, allow, p)
  {
  }

  /** A table's kept pairs are exactly those some entry of it produces. */
  lemma {:induction false} KeptMembers(entries: seq<MacEntry>, vlans: seq<VlanId>, allow: seq<Port>, p: PortMac)
    ensures p in Kept(entries, vlans, allow)
        <==> exists j :: 0 <= j < |entries| && Produces(entries[j], vlans, allow, p)
  {
    if entries != [] {
      var n := |entries|;
      var init := entries[..n - 1];
      KeptMembers(init, vlans, allow, p);
      EntryPairsMembers(entries[n - 1], vlans, allow, p);
      if exists j :: 0 <= j < n - 1 && Produces(init[j], vlans, allow, p) {
        var j :| 0 <= j < n - 1 && Produces(init[j], vlans, allow, p);
        assert entries[j] == init[j];
      }
      if exists j :: 0 <= j < n && Produces(entries[j], vlans, allow, p) {
        var j :| 0 <= j < n && Produces(entries[j], vlans, allow, p);
        if j < n - 1 {
          assert init[j] == entries[j];
        }
      }
    }
  }

  /** The collected pairs are exactly those some entry of some VLAN's table
      produces: nothing is lost and nothing is invented. */
  lemma {:induction false} GatheredMembers(responses: seq<seq<MacEntry>>, vlans: seq<VlanId>, allow: seq<Port>, p: PortMac)
    ensures p in Gathered(responses, vlans, allow)
        <==> exists i, j :: 0 <= i < |responses| && 0 <= j < |responses[i]| && Produces(responses[i][j], vlans, allow, p)
  {
    if responses != [] {
      var n := |responses|;
      var init := responses[..n - 1];
      GatheredMembers(init, vlans, allow, p);
      KeptMembers(responses[n - 1], vlans, allow, p);
      if exists i, j :: 0 <= i < n - 1 && 0 <= j < |init[i]| && Produces(init[i][j], vlans, allow, p) {
        var i, j :| 0 <= i < n - 1 && 0 <= j < |init[i]| && Produces(init[i][j], vlans, allow, p);
        assert responses[i] == init[i];
      }
      if exists i, j :: 0 <= i < n && 0 <= j < |responses[i]| && Produces(responses[i][j], vlans, allow, p) {
        var i, j :| 0 <= i < n && 0 <= j < |responses[i]| && Produces(responses[i][j], vlans, allow, p);
        if i < n - 1 {
          assert init[i] == responses[i];
        }
      }
    }
  }

  lemma {:induction false} KeptAppend(a: seq<MacEntry>, b: seq<MacEntry>, vlans: seq<VlanId>, allow: seq<Port>)
    ensures Kept(a + b, vlans, allow) == Kept(a, vlans, allow) + Kept(b, vlans, allow)
    decreases |b|
  {
    if b == [] {
      assert a + b == a;
    } else {
      var n := |b|;
      var ab := a + b;
      var init := b[..n - 1];
      assert ab[..|ab| - 1] == a + init;
      assert ab[|ab| - 1] == b[n - 1];
      KeptAppend(a, init, vlans, allow);
      var own := EntryPairs(b[n - 1], vlans, allow);
      var x := Kept(a, vlans, allow);
      var y := Kept(init, vlans, allow);
      assert Kept(b, vlans, allow) == y + own;
      assert Kept(ab, vlans, allow) == (x + y) + own;
      assert (x + y) + own == x + (y + own);
    }
  }

  /** A malformed entry contributes nothing and does not stop the entries
      after it from being processed. */
  lemma KeptSkipsMalformed(a: seq<MacEntry>, text: string, b: seq<MacEntry>, vlans: seq<VlanId>, allow: seq<Port>)
    ensures Kept(a + [Malformed(text)] + b, vlans, allow) == Kept(a + b, vlans, allow)
  {
    var m: seq<MacEntry> := [Malformed(text)];
    assert m[..0] == [];
    assert Kept(m, vlans, allow) == [];
    KeptAppend(a + m, b, vlans, allow);
    KeptAppend(a, m, vlans, allow);
    KeptAppend(a, b, vlans, allow);
  }

  /** Access-port restriction: every pair `mac_table` returns has a port whose
      interface-status VLAN is a user VLAN, and comes from a MAC record of a
      user VLAN whose first destination port is that port; conversely every
      such record on an allow-listed port yields its pair. */
  lemma SwitchPairsMembers(statuses: seq<InterfaceStatus>, vlans: seq<VlanId>, responses: seq<seq<MacEntry>>, p: PortMac)
    ensures p in SwitchPairs(statuses, vlans, responses)
        <==> (exists i, j :: 0 <= i < |responses| && 0 <= j < |responses[i]|
                && Produces(responses[i][j], vlans, AccessPorts(statuses, vlans), p))
    ensures p in SwitchPairs(statuses, vlans, responses)
        ==> exists k :: 0 <= k < |statuses| && statuses[k].port == p.port && statuses[k].vlan in vlans
  {
    var allow := AccessPorts(statuses, vlans);
    SortPairsMembers(Gathered(responses, vlans, allow), p);
    GatheredMembers(responses, vlans, allow, p);
    AccessPortsMembers(statuses, vlans, p.port);
  }
  /** Only membership in the allow-list matters, not its order or repeats. */
  lemma {:induction false} KeptSameAllow(entries: seq<MacEntry>, vlans: seq<VlanId>, allow1: seq<Port>, allow2: seq<Port>)
    requires forall port :: port in allow1 <==> port in allow2
    ensures Kept(entries, vlans, allow1) == Kept(entries, vlans, allow2)
  {
    if entries != [] {
      KeptSameAllow(entries[..|entries| - 1], vlans, allow1, allow2);
    }
  }

  lemma {:induction false} GatheredSameAllow(responses: seq<seq<MacEntry>>, vlans: seq<VlanId>, allow1: seq<Port>, allow2: seq<Port>)
    requires forall port :: port in allow1 <==> port in allow2
    ensures Gathered(responses, vlans, allow1) == Gathered(responses, vlans, allow2)
  {
    if responses != [] {
      GatheredSameAllow(responses[..|responses| - 1], vlans, allow1, allow2);
      KeptSameAllow(responses[|responses| - 1], vlans, allow1, allow2);
    }
  }

  lemma KeptSplit(b1: seq<MacEntry>, x: MacEntry, b2: seq<MacEntry>, vlans: seq<VlanId>, allow: seq<Port>)
    ensures Kept(b1 + [x] + b2, vlans, allow)
         == Kept(b1, vlans, allow) + EntryPairs(x, vlans, allow) + Kept(b2, vlans, allow)
  {
    KeptAppend(b1 + [x], b2, vlans, allow);
    assert (b1 + [x])[..|b1 + [x]| - 1] == b1;
  }

  lemma MultisetCancel<T>(a: seq<T>, x: T, b1: seq<T>, b2: seq<T>)
    requires multiset(a + [x]) == multiset(b1 + [x] + b2)
    ensures multiset(a) == multiset(b1 + b2)
  {
    assert multiset(a) == multiset(a + [x]) - multiset{x} by {
      assert multiset(a + [x]) == multiset(a) + multiset{x};
    }
    assert multiset(b1 + b2) == multiset(b1 + [x] + b2) - multiset{x} by {
      assert multiset(b1 + [x]) == multiset(b1) + multiset{x};
      assert multiset(b1 + [x] + b2) == multiset(b1 + [x]) + multiset(b2);
      assert multiset(b1 + b2) == multiset(b1) + multiset(b2);
    }
  }

  lemma MultisetInsert<T>(d: seq<T>, e: seq<T>, k1: seq<T>, k2: seq<T>)
    requires multiset(d) == multiset(k1 + k2)
    ensures multiset(d + e) == multiset(k1 + e + k2)
  {
    assert multiset(d + e) == multiset(d) + multiset(e);
    assert multiset(k1 + e + k2) == multiset(k1) + multiset(e) + multiset(k2);
  }

  /** Reordering a MAC table reorders the pairs kept from it and nothing else. */
  lemma {:induction false} KeptPermutation(a: seq<MacEntry>, b: seq<MacEntry>, vlans: seq<VlanId>, allow: seq<Port>)
    requires multiset(a) == multiset(b)
    ensures multiset(Kept(a, vlans, allow)) == multiset(Kept(b, vlans, allow))
    decreases |a|
  {
    if a == [] {
      assert |b| == |multiset(b)| == 0;
    } else {
      var n := |a|;
      var x := a[n - 1];
      var init := a[..n - 1];
      assert a == init + [x];
      assert x in multiset(b);
      var k :| 0 <= k < |b| && b[k] == x;
      var b1, b2 := b[..k], b[k + 1..];
      assert b == b1 + [x] + b2;
      MultisetCancel(init, x, b1, b2);
      KeptPermutation(init, b1 + b2, vlans, allow);
      KeptAppend(b1, b2, vlans, allow);
      KeptSplit(b1, x, b2, vlans, allow);
      MultisetInsert(Kept(init, vlans, allow), EntryPairs(x, vlans, allow), Kept(b1, vlans, allow), Kept(b2, vlans, allow));
    }
  }

  lemma {:induction false} GatheredPermutation(rs1: seq<seq<MacEntry>>, rs2: seq<seq<MacEntry>>, vlans: seq<VlanId>, allow: seq<Port>)
    requires |rs1| == |rs2|
    requires forall i :: 0 <= i < |rs1| ==> multiset(rs1[i]) == multiset(rs2[i])
    ensures multiset(Gathered(rs1, vlans, allow)) == multiset(Gathered(rs2, vlans, allow))
  {
    if rs1 != [] {
      var n := |rs1|;
      var init1, init2 := rs1[..n - 1], rs2[..n - 1];
      assert forall i :: 0 <= i < n - 1 ==> init1[i] == rs1[i] && init2[i] == rs2[i];
      GatheredPermutation(init1, init2, vlans, allow);
      KeptPermutation(rs1[n - 1], rs2[n - 1], vlans, allow);
      var g1, k1 := Gathered(init1, vlans, allow), Kept(rs1[n - 1], vlans, allow);
      var g2, k2 := Gathered(init2, vlans, allow), Kept(rs2[n - 1], vlans, allow);
      assert Gathered(rs1, vlans, allow) == g1 + k1;
      assert Gathered(rs2, vlans, allow) == g2 + k2;
      assert multiset(g1 + k1) == multiset(g1) + multiset(k1);
      assert multiset(g2 + k2) == multiset(g2) + multiset(k2);
    }
  }

  /** Sort determinism: the same interface status and the same MAC tables,
      each reported in any order, give the same `mac_table` result. */
  lemma SwitchPairsOrderIndependent(st1: seq<InterfaceStatus>, st2: seq<InterfaceStatus>, vlans: seq<VlanId>,
                                    rs1: seq<seq<MacEntry>>, rs2: seq<seq<MacEntry>>)
    requires multiset(st1) == multiset(st2)
    requires |rs1| == |rs2|
    requires forall i :: 0 <= i < |rs1| ==> multiset(rs1[i]) == multiset(rs2[i])
    ensures SwitchPairs(st1, vlans, rs1) == SwitchPairs(st2, vlans, rs2)
  {
    var allow1, allow2 := AccessPorts(st1, vlans), AccessPorts(st2, vlans);
    forall port
      ensures port in allow1 <==> port in allow2
    {
      AccessPortsMembers(st1, vlans, port);
      AccessPortsMembers(st2, vlans, port);
      if exists k :: 0 <= k < |st1| && st1[k].port == port && st1[k].vlan in vlans {
        var k :| 0 <= k < |st1| && st1[k].port == port && st1[k].vlan in vlans;
        assert st1[k] in multiset(st2);
        var l :| 0 <= l < |st2| && st2[l] == st1[k];
      }
      if exists k :: 0 <= k < |st2| && st2[k].port == port && st2[k].vlan in vlans {
        var k :| 0 <= k < |st2| && st2[k].port == port && st2[k].vlan in vlans;
        assert st2[k] in multiset(st1);
        var l :| 0 <= l < |st1| && st1[l] == st2[k];
      }
    }
    GatheredSameAllow(rs2, vlans, allow1, allow2);
    GatheredPermutation(rs1, rs2, vlans, allow1);
    SortDeterministic(Gathered(rs1, vlans, allow1), Gathered(rs2, vlans, allow1));
  }
}
