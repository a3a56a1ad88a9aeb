/** Python's `sorted` applied to a list of (port, mac) tuples: tuples are
    compared field by field, and the result is the ascending permutation of
    its argument. */
module PairOrder {
  import opened Types
  import opened StringOrder

  /** Tuple comparison `p <= q` on (port, mac). */
  predicate PairLe(p: PortMac, q: PortMac)
  {
    if p.port == q.port then StrLe(p.mac, q.mac) else StrLe(p.port, q.port)
  }

  lemma PairLeReflexive(p: PortMac)
    ensures PairLe(p, p)
  {
    StrLeReflexive(p.mac);
  }

  lemma PairLeTotal(p: PortMac, q: PortMac)
    ensures PairLe(p, q) || PairLe(q, p)
  {
    StrLeTotal(p.port, q.port);
    StrLeTotal(p.mac, q.mac);
  }

  lemma PairLeAntisymmetric(p: PortMac, q: PortMac)
    requires PairLe(p, q) && PairLe(q, p)
    ensures p == q
  {
    if p.port == q.port {
      StrLeAntisymmetric(p.mac, q.mac);
    } else {
      StrLeAntisymmetric(p.port, q.port);
    }
  }

  lemma PairLeTransitive(p: PortMac, q: PortMac, r: PortMac)
    requires PairLe(p, q) && PairLe(q, r)
    ensures PairLe(p, r)
  {
    if p.port == q.port && q.port == r.port {
      StrLeTransitive(p.mac, q.mac, r.mac);
    } else if p.port != q.port && q.port != r.port {
      StrLeTransitive(p.port, q.port, r.port);
      if p.port == r.port {
        StrLeAntisymmetric(p.port, q.port);
      }
    }
  }

  /** Ascending in tuple order. */
  predicate Sorted(s: seq<PortMac>)
  {
    forall i, j :: 0 <= i < j < |s| ==> PairLe(s[i], s[j])
  }

  /** An element below every element of a sorted sequence may go in front. */
  lemma SortedCons(x: PortMac, t: seq<PortMac>)
    requires Sorted(t)
    requires forall k :: 0 <= k < |t| ==> PairLe(x, t[k])
    ensures Sorted([x] + t)
  {
    forall i, j | 0 <= i < j < |[x] + t|
      ensures PairLe(([x] + t)[i], ([x] + t)[j])
    {
      if i > 0 {
        assert ([x] + t)[i] == t[i - 1];
      }
      assert ([x] + t)[j] == t[j - 1];
    }
  }

  /** When `p` goes after the head of the sorted `s`, the head is below
      everything the insertion into the tail yields. */
  lemma HeadBelowRest(p: PortMac, s: seq<PortMac>, rest: seq<PortMac>)
    requires Sorted(s) && s != [] && !PairLe(p, s[0])
    requires multiset(rest) == multiset(s[1..]) + multiset{p}
    ensures forall k :: 0 <= k < |rest| ==> PairLe(s[0], rest[k])
  {
    forall k | 0 <= k < |rest| ensures PairLe(s[0], rest[k]) {
      assert rest[k] in multiset(rest);
      if rest[k] == p {
        PairLeTotal(p, s[0]);
      } else {
        assert rest[k] in multiset(s[1..]);
        var idx :| 0 <= idx < |s[1..]| && s[1..][idx] == rest[k];
        assert s[idx + 1] == rest[k];
      }
    }
  }

  /** Inserts `p` into the sorted `s` in front of the first element it does
      not exceed. */
  function Insert(p: PortMac, s: seq<PortMac>): (r: seq<PortMac>)
    requires Sorted(s)
    ensures Sorted(r)
    ensures multiset(r) == multiset(s) + multiset{p}
  {
    if s == [] then [p]
    else if PairLe(p, s[0]) then
      assert forall k :: 0 <= k < |s| ==> PairLe(p, s[k]) by {
        forall k | 0 <= k < |s| ensures PairLe(p, s[k]) {
          if k > 0 { PairLeTransitive(p, s[0], s[k]); }
        }
      }
      SortedCons(p, s);
      [p] + s
    else
      var rest := Insert(p, s[1..]);
      HeadBelowRest(p, s, rest);
      SortedCons(s[0], rest);
      assert s == [s[0]] + s[1..];
      [s[0]] + rest
  }

  /** `sorted(pairs)`. */
  function SortPairs(s: seq<PortMac>): (r: seq<PortMac>)
    ensures Sorted(r)
    ensures multiset(r) == multiset(s)
  {
    if s == [] then []
    else
      assert s == s[..|s| - 1] + [s[|s| - 1]];
      Insert(s[|s| - 1], SortPairs(s[..|s| - 1]))
  }

  /** A sorted sequence is determined by its elements: two sorted
      permutations of one multiset are equal. */
  lemma {:induction false} SortedUnique(s: seq<PortMac>, t: seq<PortMac>)
    requires Sorted(s) && Sorted(t)
    requires multiset(s) == multiset(t)
    ensures s == t
    decreases |s|
  {
    if s == [] {
      assert |t| == |multiset(t)| == 0;
    } else {
      assert |t| == |multiset(t)| == |s| > 0;
      assert s[0] in multiset(t) && t[0] in multiset(s);
      var j :| 0 <= j < |t| && t[j] == s[0];
      var i :| 0 <= i < |s| && s[i] == t[0];
      PairLeReflexive(s[0]);
      PairLeReflexive(t[0]);
      assert PairLe(t[0], s[0]) && PairLe(s[0], t[0]);
      PairLeAntisymmetric(s[0], t[0]);
      assert s == [s[0]] + s[1..];
      assert t == [t[0]] + t[1..];
      assert multiset(s) == multiset{s[0]} + multiset(s[1..]);
      assert multiset(t) == multiset{t[0]} + multiset(t[1..]);
      assert multiset(s[1..]) == multiset(s) - multiset{s[0]};
      assert multiset(t[1..]) == multiset(t) - multiset{t[0]};
      SortedUnique(s[1..], t[1..]);
    }
  }

  /** The order of the device's output does not matter: permuted input gives
      the same sorted list. */
  lemma SortDeterministic(a: seq<PortMac>, b: seq<PortMac>)
    requires multiset(a) == multiset(b)
    ensures SortPairs(a) == SortPairs(b)
  {
    SortedUnique(SortPairs(a), SortPairs(b));
  }

  /** Sorting keeps exactly the members of its input. */
  lemma SortPairsMembers(s: seq<PortMac>, p: PortMac)
    ensures p in SortPairs(s) <==> p in s
  {
    assert p in SortPairs(s) <==> p in multiset(SortPairs(s));
  }
}
