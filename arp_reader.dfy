/** The ARP table reader: the router's parsed `show ip arp` rows become a
    mapping from MAC address to IP address, built in one pass. */
module ArpReader {
  import opened Types

  /** The mapping after processing `entries` in order: each row overwrites
      whatever an earlier row with the same MAC address stored. */
  function ArpMap(entries: seq<ArpEntry>): map<Mac, Ip>
  {
    if entries == [] then map[]
    else
      var last := entries[|entries| - 1];
      ArpMap(entries[..|entries| - 1])[last.mac := last.address]
  }

  /** `arp_table`: fills the dictionary row by row. */
  method ArpTable(entries: seq<ArpEntry>) returns (result: map<Mac, Ip>)
    ensures result == ArpMap(entries)
  {
    result := map[];
    for i := 0 to |entries|
      invariant result == ArpMap(entries[..i])
    {
      assert entries[..i + 1][..i] == entries[..i];
      result := result[entries[i].mac := entries[i].address];
    }
    assert entries[..|entries|] == entries;
  }

  /** The keys are exactly the MAC addresses the router reported. */
  lemma {:induction false} ArpMapKeys(entries: seq<ArpEntry>)
    ensures ArpMap(entries).Keys == set e | e in entries :: e.mac
  {
    if entries != [] {
      var init := entries[..|entries| - 1];
      ArpMapKeys(init);
      assert entries == init + [entries[|entries| - 1]];
      assert (set e | e in entries :: e.mac)
          == (set e | e in init :: e.mac) + {entries[|entries| - 1].mac};
    }
  }

  /** Last write wins: a row that no later row shares its MAC address with
      decides the IP address stored for that MAC. */
  lemma {:induction false} ArpMapLastWins(entries: seq<ArpEntry>, i: nat)
    requires i < |entries|
    requires forall j :: i < j < |entries| ==> entries[j].mac != entries[i].mac
    ensures entries[i].mac in ArpMap(entries)
    ensures ArpMap(entries)[entries[i].mac] == entries[i].address
  {
    var n := |entries|;
    if i < n - 1 {
      var init := entries[..n - 1];
      assert init[i] == entries[i];
      ArpMapLastWins(init, i);
    }
  }
}
