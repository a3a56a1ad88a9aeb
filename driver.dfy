/** The main program's correlation passes: the router's ARP table once, then
    three passes over the switches that overwrite each switch's entry of the
    per-switch mapping in place (MAC table, ARP join, DNS names). */
module Driver {
  import opened Types
  import opened ArpReader
  import opened PairOrder
  import opened MacTableReader
  import opened Correlator
  import opened HostnameResolver

  /** What one switch answers: its interface status and, for the i-th user
      VLAN, its MAC table for that VLAN. */
  datatype SwitchCapture = SwitchCapture(switch: Switch, interfaces: seq<InterfaceStatus>, macTables: seq<seq<MacEntry>>)

  /** The shapes a switch's entry takes across the three passes. */
  datatype Stage = Pairs(pairs: seq<PortMac>) | Triples(triples: seq<PortMacIp>) | Records(records: seq<PortRecord>)

  predicate WellShaped(captures: seq<SwitchCapture>, vlans: seq<VlanId>)
  {
    forall k :: 0 <= k < |captures| ==> |captures[k].macTables| == |vlans|
  }

  /** Some switch, in configured order, answers with a MAC table that makes
      `mac_table` raise. */
  predicate AnyCaptureFaulty(captures: seq<SwitchCapture>, vlans: seq<VlanId>)
  {
    captures != []
    && (AnyCaptureFaulty(captures[..|captures| - 1], vlans) || AnyFaulty(captures[|captures| - 1].macTables, vlans))
  }

  /** The run fails exactly when one of the switches has a faulty MAC table. */
  lemma {:induction false} AnyCaptureFaultyAt(captures: seq<SwitchCapture>, vlans: seq<VlanId>)
    ensures AnyCaptureFaulty(captures, vlans) <==> exists k :: 0 <= k < |captures| && AnyFaulty(captures[k].macTables, vlans)
  {
    if captures != [] {
      var init := captures[..|captures| - 1];
      AnyCaptureFaultyAt(init, vlans);
      assert forall k :: 0 <= k < |init| ==> init[k] == captures[k];
    }
  }

  /** One faulty switch is enough to end the run. */
  lemma FaultEndsRun(captures: seq<SwitchCapture>, vlans: seq<VlanId>, k: nat)
    requires k < |captures| && AnyFaulty(captures[k].macTables, vlans)
    ensures AnyCaptureFaulty(captures, vlans)
  {
    AnyCaptureFaultyAt(captures, vlans);
  }

  lemma FaultFreeStep(captures: seq<SwitchCapture>, vlans: seq<VlanId>, k: nat)
    requires k < |captures|
    requires !AnyCaptureFaulty(captures[..k], vlans) && !AnyFaulty(captures[k].macTables, vlans)
    ensures !AnyCaptureFaulty(captures[..k + 1], vlans)
  {
    assert captures[..k + 1][..k] == captures[..k];
  }

  /** The switches of the first `k` captures. */
  ghost function FirstSwitches(captures: seq<SwitchCapture>, k: nat): set<Switch>
    requires k <= |captures|
  {
    set l | 0 <= l < k :: captures[l].switch
  }

  /** One more capture adds its switch to the key set. */
  lemma FirstSwitchesStep(captures: seq<SwitchCapture>, k: nat)
    requires k < |captures|
    ensures FirstSwitches(captures, k + 1) == FirstSwitches(captures, k) + {captures[k].switch}
  {
    assert captures[k].switch in FirstSwitches(captures, k + 1);
  }

  /** A switch's entry after the first pass. */
  function PairsOf(c: SwitchCapture, vlans: seq<VlanId>): seq<PortMac>
  {
    SwitchPairs(c.interfaces, vlans, c.macTables)
  }

  /** A switch's entry after the second pass. */
  function TriplesOf(c: SwitchCapture, vlans: seq<VlanId>, arp: map<Mac, Ip>): seq<PortMacIp>
  {
    Join(PairsOf(c, vlans), arp)
  }

  /** A switch's final rows: its MAC table pairs, joined with the ARP map,
      with names attached. */
  function SwitchRecords(c: SwitchCapture, vlans: seq<VlanId>, arp: map<Mac, Ip>, lookup: Ip -> PtrAnswer): seq<PortRecord>
  {
    Resolve(TriplesOf(c, vlans, arp), lookup)
  }

  predicate Distinct(switches: seq<Switch>)
  {
    forall k, l :: 0 <= k < l < |switches| ==> switches[k] != switches[l]
  }

  /** The configured switches, in order. */
  function SwitchesOf(captures: seq<SwitchCapture>): seq<Switch>
  {
    seq(|captures|, k requires 0 <= k < |captures| => captures[k].switch)
  }

  lemma SwitchesOfAt(captures: seq<SwitchCapture>)
    ensures |SwitchesOf(captures)| == |captures|
    ensures forall k :: 0 <= k < |captures| ==> SwitchesOf(captures)[k] == captures[k].switch
  {
  }

  /** Every switch's entry after the first pass, in configured order. */
  ghost function AllPairs(captures: seq<SwitchCapture>, vlans: seq<VlanId>): seq<seq<PortMac>>
  {
    seq(|captures|, l requires 0 <= l < |captures| => PairsOf(captures[l], vlans))
  }

  lemma AllPairsAt(captures: seq<SwitchCapture>, vlans: seq<VlanId>)
    ensures |AllPairs(captures, vlans)| == |captures|
    ensures forall l :: 0 <= l < |captures| ==> AllPairs(captures, vlans)[l] == PairsOf(captures[l], vlans)
  {
  }

  /** Every switch's entry after the second pass. */
  ghost function AllTriples(pairs: seq<seq<PortMac>>, arp: map<Mac, Ip>): seq<seq<PortMacIp>>
  {
    seq(|pairs|, l requires 0 <= l < |pairs| => Join(pairs[l], arp))
  }

  lemma AllTriplesAt(pairs: seq<seq<PortMac>>, arp: map<Mac, Ip>)
    ensures |AllTriples(pairs, arp)| == |pairs|
    ensures forall l :: 0 <= l < |pairs| ==> AllTriples(pairs, arp)[l] == Join(pairs[l], arp)
  {
  }

  /** A mapping keyed by the configured switches has no other keys. */
  lemma KeysAreSwitches(data: map<Switch, Stage>, captures: seq<SwitchCapture>)
    requires data.Keys == FirstSwitches(captures, |captures|)
    ensures forall s :: s in data ==> s in SwitchesOf(captures)
  {
    SwitchesOfAt(captures);
    forall s | s in data ensures s in SwitchesOf(captures) {
      var l :| 0 <= l < |captures| && captures[l].switch == s;
      assert SwitchesOf(captures)[l] == s;
    }
  }

  /** After the first pass has stored the first `k` switches: the mapping's
      keys are exactly those switches, each holding its `mac_table` result. */
  ghost predicate Learned(data: map<Switch, Stage>, captures: seq<SwitchCapture>, vlans: seq<VlanId>, k: nat)
    requires k <= |captures|
  {
    && data.Keys == FirstSwitches(captures, k)
    && forall l :: 0 <= l < k ==>
         captures[l].switch in data && data[captures[l].switch] == Pairs(PairsOf(captures[l], vlans))
  }

  /** Storing switch `k`'s entry keeps the entries of the switches before it,
      because the switches are distinct. */
  lemma LearnStep(data: map<Switch, Stage>, captures: seq<SwitchCapture>, vlans: seq<VlanId>, k: nat)
    requires k < |captures| && Distinct(SwitchesOf(captures))
    requires Learned(data, captures, vlans, k)
    ensures Learned(data[captures[k].switch := Pairs(PairsOf(captures[k], vlans))], captures, vlans, k + 1)
  {
    var sw := captures[k].switch;
    var stored := data[sw := Pairs(PairsOf(captures[k], vlans))];
    FirstSwitchesStep(captures, k);
    assert stored.Keys == data.Keys + {sw};
    SwitchesOfAt(captures);
    forall l | 0 <= l < k + 1
      ensures captures[l].switch in stored && stored[captures[l].switch] == Pairs(PairsOf(captures[l], vlans))
    {
      if l < k {
        assert SwitchesOf(captures)[l] != SwitchesOf(captures)[k];
      }
    }
  }

  /** First pass of the main program: `switch_data[switch] = mac_table(...)`
      for each switch. An IndexError raised for any switch ends the run. */
  method LearnPass(captures: seq<SwitchCapture>, vlans: seq<VlanId>) returns (r: Result<map<Switch, Stage>>)
    requires WellShaped(captures, vlans)
    requires Distinct(SwitchesOf(captures))
    ensures r.Err? <==> AnyCaptureFaulty(captures, vlans)
    ensures r.Ok? ==> forall s :: s in r.value ==> s in SwitchesOf(captures)
    ensures r.Ok? ==> forall l :: 0 <= l < |captures| ==>
              captures[l].switch in r.value && r.value[captures[l].switch] == Pairs(PairsOf(captures[l], vlans))
  {
    var data: map<Switch, Stage> := map[];
    for k := 0 to |captures|
      invariant Learned(data, captures, vlans, k)
      invariant !AnyCaptureFaulty(captures[..k], vlans)
    {
      var c := captures[k];
      var pairs := MacTable(c.interfaces, vlans, c.macTables);
      if pairs.Err? {
        FaultEndsRun(captures, vlans, k);
        return Err(pairs.error);
      }
      FaultFreeStep(captures, vlans, k);
      LearnStep(data, captures, vlans, k);
      data := data[c.switch := Pairs(pairs.value)];
    }
    assert captures[..|captures|] == captures;
    KeysAreSwitches(data, captures);
    r := Ok(data);
  }

  /** Second pass: `switch_data[switch] = ip_table(switch_data[switch], ARP)`;
      `pairs[l]` is what the first pass stored for `switches[l]`. */
  method JoinPass(switches: seq<Switch>, arp: map<Mac, Ip>, data0: map<Switch, Stage>, ghost pairs: seq<seq<PortMac>>)
    returns (data: map<Switch, Stage>)
    requires Distinct(switches) && |pairs| == |switches|
    requires forall l :: 0 <= l < |switches| ==> switches[l] in data0 && data0[switches[l]] == Pairs(pairs[l])
    ensures data.Keys == data0.Keys
    ensures forall l :: 0 <= l < |switches| ==> switches[l] in data && data[switches[l]] == Triples(Join(pairs[l], arp))
    ensures forall s :: s in data0 && s !in switches ==> data[s] == data0[s]
  {
    data := data0;
    for k := 0 to |switches|
      invariant data.Keys == data0.Keys
      invariant forall l :: 0 <= l < k ==> data[switches[l]] == Triples(Join(pairs[l], arp))
      invariant forall l :: k <= l < |switches| ==> data[switches[l]] == Pairs(pairs[l])
      invariant forall s :: s in data0 && s !in switches ==> data[s] == data0[s]
    {
      var sw := switches[k];
      var triples := IpTable(data[sw].pairs, arp);
      data := data[sw := Triples(triples)];
    }
  }

  /** Third pass: `switch_data[switch] = dns_query(switch_data[switch], ...)`;
      `triples[l]` is what the second pass stored for `switches[l]`. */
  method ResolvePass(switches: seq<Switch>, lookup: Ip -> PtrAnswer, data0: map<Switch, Stage>, ghost triples: seq<seq<PortMacIp>>)
    returns (data: map<Switch, Stage>)
    requires Distinct(switches) && |triples| == |switches|
    requires forall l :: 0 <= l < |switches| ==> switches[l] in data0 && data0[switches[l]] == Triples(triples[l])
    ensures data.Keys == data0.Keys
    ensures forall l :: 0 <= l < |switches| ==> switches[l] in data && data[switches[l]] == Records(Resolve(triples[l], lookup))
    ensures forall s :: s in data0 && s !in switches ==> data[s] == data0[s]
  {
    data := data0;
    for k := 0 to |switches|
      invariant data.Keys == data0.Keys
      invariant forall l :: 0 <= l < k ==> data[switches[l]] == Records(Resolve(triples[l], lookup))
      invariant forall l :: k <= l < |switches| ==> data[switches[l]] == Triples(triples[l])
      invariant forall s :: s in data0 && s !in switches ==> data[s] == data0[s]
    {
      var sw := switches[k];
      var records := DnsQuery(data[sw].triples, lookup);
      data := data[sw := Records(records)];
    }
  }

  /** The finished mapping read back in insertion order, one report entry
      per configured switch; `triples[l]` is what the second pass stored for
      `switches[l]`. The mapping's keys are the configured switches, so
      every key gets its entry. */
  method ReadBack(switches: seq<Switch>, data: map<Switch, Stage>, ghost triples: seq<seq<PortMacIp>>, lookup: Ip -> PtrAnswer)
    returns (report: Report)
    requires |triples| == |switches|
    requires forall s :: s in data ==> s in switches
    requires forall l :: 0 <= l < |switches| ==> switches[l] in data && data[switches[l]] == Records(Resolve(triples[l], lookup))
    ensures |report| == |switches|
    ensures forall l :: 0 <= l < |switches| ==> report[l] == SwitchReport(switches[l], Resolve(triples[l], lookup))
    ensures forall s :: s in data ==> exists l :: 0 <= l < |report| && report[l].switch == s && Records(report[l].records) == data[s]
  {
    report := [];
    for k := 0 to |switches|
      invariant |report| == k
      invariant forall l :: 0 <= l < k ==> report[l] == SwitchReport(switches[l], Resolve(triples[l], lookup))
    {
      report := report + [SwitchReport(switches[k], data[switches[k]].records)];
    }
  }

  /** The second and third passes and the read-back, over the mapping the
      first pass filled. */
  method Correlate(captures: seq<SwitchCapture>, vlans: seq<VlanId>, arp: map<Mac, Ip>, lookup: Ip -> PtrAnswer, learned: map<Switch, Stage>)
    returns (report: Report)
    requires Distinct(SwitchesOf(captures))
    requires forall s :: s in learned ==> s in SwitchesOf(captures)
    requires forall l :: 0 <= l < |captures| ==>
               captures[l].switch in learned && learned[captures[l].switch] == Pairs(PairsOf(captures[l], vlans))
    ensures |report| == |captures|
    ensures forall k :: 0 <= k < |captures| ==>
              report[k] == SwitchReport(captures[k].switch, SwitchRecords(captures[k], vlans, arp, lookup))
  {
    var switches := SwitchesOf(captures);
    SwitchesOfAt(captures);
    ghost var pairs := AllPairs(captures, vlans);
    AllPairsAt(captures, vlans);
    var data := JoinPass(switches, arp, learned, pairs);
    ghost var triples := AllTriples(pairs, arp);
    AllTriplesAt(pairs, arp);
    data := ResolvePass(switches, lookup, data, triples);
    report := ReadBack(switches, data, triples, lookup);
  }

  /** The main program from the ARP query up to the finished mapping, read
      back in insertion (configured switch) order. */
  method Collect(arpEntries: seq<ArpEntry>, captures: seq<SwitchCapture>, vlans: seq<VlanId>, lookup: Ip -> PtrAnswer)
    returns (r: Result<Report>)
    requires WellShaped(captures, vlans)
    requires Distinct(SwitchesOf(captures))
    ensures r.Err? <==> AnyCaptureFaulty(captures, vlans)
    ensures r.Ok? ==> |r.value| == |captures|
    ensures r.Ok? ==> forall k :: 0 <= k < |captures| ==>
              r.value[k] == SwitchReport(captures[k].switch, SwitchRecords(captures[k], vlans, ArpMap(arpEntries), lookup))
  {
    var arp := ArpTable(arpEntries);
    var learned := LearnPass(captures, vlans);
    if learned.Err? {
      return Err(learned.error);
    }
    var report := Correlate(captures, vlans, arp, lookup, learned.value);
    r := Ok(report);
  }

  /** What the report promises about each of its rows: the port is an access
      port of a user VLAN, the switch learned the MAC address on that port in
      a user VLAN, the router reported that MAC address and the row's IP
      address is the one the ARP map holds for it, and the host name is what
      the PTR lookup of that IP address yields (the sentinel on NXDOMAIN,
      otherwise the first label of the name). */
  lemma RecordProvenance(c: SwitchCapture, vlans: seq<VlanId>, arpEntries: seq<ArpEntry>, lookup: Ip -> PtrAnswer, rec: PortRecord)
    requires rec in SwitchRecords(c, vlans, ArpMap(arpEntries), lookup)
    ensures exists k :: 0 <= k < |c.interfaces| && c.interfaces[k].port == rec.port && c.interfaces[k].vlan in vlans
    ensures exists i, j :: 0 <= i < |c.macTables| && 0 <= j < |c.macTables[i]|
              && Produces(c.macTables[i][j], vlans, AccessPorts(c.interfaces, vlans), PortMac(rec.port, rec.mac))
    ensures exists e :: e in arpEntries && e.mac == rec.mac
    ensures rec.mac in ArpMap(arpEntries) && rec.ip == ArpMap(arpEntries)[rec.mac]
    ensures rec.hostname == Hostname(lookup(rec.ip))
  {
    var arp := ArpMap(arpEntries);
    var pairs := PairsOf(c, vlans);
    var triples := TriplesOf(c, vlans, arp);
    ResolveAt(triples, lookup);
    var idx :| 0 <= idx < |triples| && Resolve(triples, lookup)[idx] == rec;
    var t := triples[idx];
    JoinMembers(pairs, arp, t);
    var i :| 0 <= i < |pairs| && pairs[i].mac in arp && t == PortMacIp(pairs[i].port, pairs[i].mac, arp[pairs[i].mac]);
    assert pairs[i] == PortMac(rec.port, rec.mac);
    SwitchPairsMembers(c.interfaces, vlans, c.macTables, pairs[i]);
    ArpMapKeys(arpEntries);
    assert rec.mac in set e | e in arpEntries :: e.mac;
  }

  /** A concrete run: one learned MAC address on an access port, known to the
      router, whose address has a PTR name in a domain. */
  const ScenarioCapture: SwitchCapture :=
    SwitchCapture("10.1.1.1", [InterfaceStatus("Gi1/0/1", "10")],
                  [[MacRecord("10", ["Gi1/0/1"], "aa:bb:cc:00:00:01")]])
  const ScenarioArp: seq<ArpEntry> := [ArpEntry("10.0.0.5", "aa:bb:cc:00:00:01")]

  function ScenarioLookup(ip: Ip): PtrAnswer
  {
    if ip == "10.0.0.5" then Answer("host1.example.com") else NxDomain
  }

  lemma ScenarioPairs()
    ensures PairsOf(ScenarioCapture, ["10"]) == [PortMac("Gi1/0/1", "aa:bb:cc:00:00:01")]
  {
    var c := ScenarioCapture;
    var pair := PortMac("Gi1/0/1", "aa:bb:cc:00:00:01");
    assert c.interfaces[..0] == [] && c.macTables[..0] == [] && c.macTables[0][..0] == [];
    assert AccessPorts(c.interfaces, ["10"]) == ["Gi1/0/1"];
    assert Gathered(c.macTables, ["10"], ["Gi1/0/1"]) == [pair];
    assert SortPairs([pair]) == [pair];
  }

  lemma ScenarioTriples()
    ensures TriplesOf(ScenarioCapture, ["10"], ArpMap(ScenarioArp))
            == [PortMacIp("Gi1/0/1", "aa:bb:cc:00:00:01", "10.0.0.5")]
  {
    var pair := PortMac("Gi1/0/1", "aa:bb:cc:00:00:01");
    ScenarioPairs();
    assert ScenarioArp[..0] == [];
    var arp := ArpMap(ScenarioArp);
    assert arp == map["aa:bb:cc:00:00:01" := "10.0.0.5"];
    assert [pair][..0] == [];
    assert Join([pair], arp) == [PortMacIp("Gi1/0/1", "aa:bb:cc:00:00:01", "10.0.0.5")];
  }

  lemma ScenarioHostname()
    ensures Hostname(Answer("host1.example.com")) == "host1"
  {
    ShortNameUnique("host1.example.com", "host1");
  }

  lemma ScenarioResolvedHost()
    ensures SwitchRecords(ScenarioCapture, ["10"], ArpMap(ScenarioArp), ScenarioLookup)
            == [PortRecord("Gi1/0/1", "aa:bb:cc:00:00:01", "10.0.0.5", "host1")]
  {
    var triple := PortMacIp("Gi1/0/1", "aa:bb:cc:00:00:01", "10.0.0.5");
    ScenarioTriples();
    ScenarioHostname();
    assert ScenarioLookup(triple.ip) == Answer("host1.example.com");
    assert [triple][..0] == [];
    assert Resolve([triple], ScenarioLookup) == [Attach(triple, ScenarioLookup)];
  }
}
