/** The correlator's join: every (port, mac) pair whose MAC address the
    router knows gets the router's IP address attached; the others are
    dropped. */
module Correlator {
  import opened Types

  /** The triple a matched pair becomes, and nothing for an unmatched one. */
  function Matched(p: PortMac, arp: map<Mac, Ip>): seq<PortMacIp>
  {
    if p.mac in arp then [PortMacIp(p.port, p.mac, arp[p.mac])] else []
  }

  /** The joined list, in the order of the pairs. */
  function Join(pairs: seq<PortMac>, arp: map<Mac, Ip>): seq<PortMacIp>
  {
    if pairs == [] then []
    else Join(pairs[..|pairs| - 1], arp) + Matched(pairs[|pairs| - 1], arp)
  }

  /** `ip_table`: for each pair, scans every ARP key and appends a triple
      for the key equal to the pair's MAC address. The dictionary's
      iteration order is not fixed here: any order gives the same result. */
  method IpTable(pairs: seq<PortMac>, arp: map<Mac, Ip>) returns (result: seq<PortMacIp>)
    ensures result == Join(pairs, arp)
  {
    result := [];
    for i := 0 to |pairs|
      invariant result == Join(pairs[..i], arp)
    {
      assert pairs[..i + 1][..i] == pairs[..i];
      var pair := pairs[i];
      var remaining := arp.Keys;
      while remaining != {}
        invariant remaining <= arp.Keys
        invariant result == Join(pairs[..i], arp)
                            + if pair.mac in arp && pair.mac !in remaining then Matched(pair, arp) else []
        decreases remaining
      {
        var key :| key in remaining;
        if pair.mac == key {
          result := result + [PortMacIp(pair.port, pair.mac, arp[key])];
        }
        remaining := remaining - {key};
      }
    }
    assert pairs[..|pairs|] == pairs;
  }

  /** The join distributes over concatenation: it is stable, each pair's
      contribution lands where the pair was. */
  lemma {:induction false} JoinAppend(a: seq<PortMac>, b: seq<PortMac>, arp: map<Mac, Ip>)
    ensures Join(a + b, arp) == Join(a, arp) + Join(b, arp)
    decreases |b|
  {
    if b == [] {
      assert a + b == a;
    } else {
      var n := |b|;
      var ab := a + b;
      var init := b[..n - 1];
      assert ab[..|ab| - 1] == a + init;
      assert ab[|ab| - 1] == b[n - 1];
      JoinAppend(a, init, arp);
      var own := Matched(b[n - 1], arp);
      var x := Join(a, arp);
      var y := Join(init, arp);
      assert Join(b, arp) == y + own;
      assert Join(ab, arp) == (x + y) + own;
      assert (x + y) + own == x + (y + own);
    }
  }

  /** The output is never longer than the input. */
  lemma {:induction false} JoinLength(pairs: seq<PortMac>, arp: map<Mac, Ip>)
    ensures |Join(pairs, arp)| <= |pairs|
  {
    if pairs != [] {
      JoinLength(pairs[..|pairs| - 1], arp);
    }
  }

  /** A triple is in the output exactly when some pair has an ARP entry and
      the triple is that pair extended by the entry's IP address. */
  lemma {:induction false} JoinMembers(pairs: seq<PortMac>, arp: map<Mac, Ip>, t: PortMacIp)
    ensures t in Join(pairs, arp)
        <==> exists i :: 0 <= i < |pairs| && pairs[i].mac in arp
                         && t == PortMacIp(pairs[i].port, pairs[i].mac, arp[pairs[i].mac])
  {
    if pairs != [] {
      var n := |pairs|;
      var init := pairs[..n - 1];
      JoinMembers(init, arp, t);
      if exists i :: 0 <= i < n - 1 && init[i].mac in arp && t == PortMacIp(init[i].port, init[i].mac, arp[init[i].mac]) {
        var i :| 0 <= i < n - 1 && init[i].mac in arp && t == PortMacIp(init[i].port, init[i].mac, arp[init[i].mac]);
        assert pairs[i] == init[i];
      }
      if exists i :: 0 <= i < n && pairs[i].mac in arp && t == PortMacIp(pairs[i].port, pairs[i].mac, arp[pairs[i].mac]) {
        var i :| 0 <= i < n && pairs[i].mac in arp && t == PortMacIp(pairs[i].port, pairs[i].mac, arp[pairs[i].mac]);
        if i < n - 1 {
          assert init[i] == pairs[i];
        }
      }
    }
  }

  /** When every MAC address has an ARP entry nothing is dropped: the i-th
      triple extends the i-th pair. */
  lemma {:induction false} JoinAllMatched(pairs: seq<PortMac>, arp: map<Mac, Ip>)
    requires forall i :: 0 <= i < |pairs| ==> pairs[i].mac in arp
    ensures |Join(pairs, arp)| == |pairs|
    ensures forall i :: 0 <= i < |pairs| ==>
              Join(pairs, arp)[i] == PortMacIp(pairs[i].port, pairs[i].mac, arp[pairs[i].mac])
  {
    if pairs != [] {
      var init := pairs[..|pairs| - 1];
      assert forall i :: 0 <= i < |init| ==> init[i] == pairs[i];
      JoinAllMatched(init, arp);
    }
  }

  /** With no ARP entries at all every pair is dropped. */
  lemma {:induction false} JoinEmptyArp(pairs: seq<PortMac>)
    ensures Join(pairs, map[]) == []
  {
    if pairs != [] {
      JoinEmptyArp(pairs[..|pairs| - 1]);
    }
  }
}
