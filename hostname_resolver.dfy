/** The correlator's name step: a reverse (PTR) lookup per joined triple,
    attaching the short host name or a fixed sentinel. */
module HostnameResolver {
  import opened Types

  /** The host name written when the resolver says the name does not exist. */
  const NotFoundSentinel: string := "DNS Not Found"

  /** The outcome of a PTR lookup against the configured DNS servers: the
      first name of the answer, or the resolver's NXDOMAIN. */
  datatype PtrAnswer = Answer(name: string) | NxDomain

  /** `name.partition('.')[0]`: the text before the first dot. */
  function ShortName(name: string): (r: string)
    ensures '.' !in r
    ensures r <= name
    ensures |r| < |name| ==> name[|r|] == '.'
  {
    if name == [] || name[0] == '.' then []
    else [name[0]] + ShortName(name[1..])
  }

  /** The three properties above leave no choice: they determine the label. */
  lemma {:induction false} ShortNameUnique(name: string, r: string)
    requires '.' !in r && r <= name
    requires |r| < |name| ==> name[|r|] == '.'
    ensures r == ShortName(name)
  {
    if r != [] {
      assert r[0] == name[0] && r[0] != '.';
      assert r[1..] <= name[1..];
      assert r == [r[0]] + r[1..];
      ShortNameUnique(name[1..], r[1..]);
    }
  }

  /** The host name attached for a lookup outcome. */
  function Hostname(answer: PtrAnswer): (h: string)
    ensures answer.NxDomain? ==> h == NotFoundSentinel
    ensures answer.Answer? ==> '.' !in h && h <= answer.name
    ensures answer.Answer? && |h| < |answer.name| ==> answer.name[|h|] == '.'
  {
    match answer
    case NxDomain => NotFoundSentinel
    case Answer(name) => ShortName(name)
  }

  /** The record a triple becomes. */
  function Attach(t: PortMacIp, lookup: Ip -> PtrAnswer): PortRecord
  {
    PortRecord(t.port, t.mac, t.ip, Hostname(lookup(t.ip)))
  }

  /** The resolved list, in the order of the triples. */
  function Resolve(triples: seq<PortMacIp>, lookup: Ip -> PtrAnswer): seq<PortRecord>
  {
    if triples == [] then []
    else Resolve(triples[..|triples| - 1], lookup) + [Attach(triples[|triples| - 1], lookup)]
  }

  /** `dns_query`: `lookup` stands for the resolver configured with the DNS
      servers and queried for the PTR record of an address. */
  method DnsQuery(triples: seq<PortMacIp>, lookup: Ip -> PtrAnswer) returns (result: seq<PortRecord>)
    ensures result == Resolve(triples, lookup)
  {
    result := [];
    for i := 0 to |triples|
      invariant result == Resolve(triples[..i], lookup)
    {
      assert triples[..i + 1][..i] == triples[..i];
      var triple := triples[i];
      var answer := lookup(triple.ip);
      match answer {
        case NxDomain =>
          result := result + [PortRecord(triple.port, triple.mac, triple.ip, NotFoundSentinel)];
        case Answer(name) =>
          var stripped := ShortName(name);
          result := result + [PortRecord(triple.port, triple.mac, triple.ip, stripped)];
      }
    }
    assert triples[..|triples|] == triples;
  }

  /** Hostname totality: same length and order as the input, and each record
      is its triple extended by exactly one host name. */
  lemma {:induction false} ResolveAt(triples: seq<PortMacIp>, lookup: Ip -> PtrAnswer)
    ensures |Resolve(triples, lookup)| == |triples|
    ensures forall i :: 0 <= i < |triples| ==>
              Resolve(triples, lookup)[i] == Attach(triples[i], lookup)
  {
    if triples != [] {
      var init := triples[..|triples| - 1];
      assert forall i :: 0 <= i < |init| ==> init[i] == triples[i];
      ResolveAt(init, lookup);
    }
  }
}
