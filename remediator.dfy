/** The remediator: for each switch a backup of its running configuration,
    then one two-line configuration set per record, and, after a second
    confirmation, `write memory` on every switch. The device sessions are
    replaced by the trace of commands they receive. */
module Remediator {
  import opened Types

  /** A command sent to a switch. */
  datatype Event =
    | Backup(switch: Switch)                        // `show running-config`, saved to a file
    | ConfigSet(switch: Switch, lines: seq<string>) // one configuration set
    | WriteMemory(switch: Switch)                   // running-config to startup-config

  /** The configuration set that puts a record's host name on its port. */
  function DescriptionLines(rec: PortRecord): seq<string>
  {
    ["interface " + rec.port, "description " + rec.hostname]
  }

  /** One configuration set per record, in record order. */
  function ConfigEvents(sw: Switch, records: seq<PortRecord>): seq<Event>
  {
    seq(|records|, j requires 0 <= j < |records| => ConfigSet(sw, DescriptionLines(records[j])))
  }

  function SwitchEvents(sr: SwitchReport): seq<Event>
  {
    [Backup(sr.switch)] + ConfigEvents(sr.switch, sr.records)
  }

  /** The commands `write_descriptions` sends, switch by switch. */
  function DescribeEvents(report: Report): seq<Event>
  {
    if |report| == 0 then []
    else DescribeEvents(report[..|report| - 1]) + SwitchEvents(report[|report| - 1])
  }

  /** `write memory` for every switch of the report, in report order. */
  function SaveEvents(report: Report): seq<Event>
  {
    if |report| == 0 then []
    else SaveEvents(report[..|report| - 1]) + [WriteMemory(report[|report| - 1].switch)]
  }

  /** Everything the main program sends once the report exists, given the
      operator's two answers. */
  function RemediationEvents(report: Report, describe: bool, save: bool): seq<Event>
  {
    if !describe then []
    else DescribeEvents(report) + if save then SaveEvents(report) else []
  }

  /** `write_descriptions`. */
  method WriteDescriptions(report: Report) returns (events: seq<Event>)
    ensures events == DescribeEvents(report)
  {
    events := [];
    for i := 0 to |report|
      invariant events == DescribeEvents(report[..i])
    {
      assert report[..i + 1][..i] == report[..i];
      var sw := report[i].switch;
      var records := report[i].records;
      events := events + [Backup(sw)];
      for j := 0 to |records|
        invariant events == DescribeEvents(report[..i]) + [Backup(sw)] + ConfigEvents(sw, records[..j])
      {
        assert records[..j + 1][..j] == records[..j];
        events := events + [ConfigSet(sw, ["interface " + records[j].port, "description " + records[j].hostname])];
      }
      assert records[..|records|] == records;
    }
    assert report[..|report|] == report;
  }

  /** The confirmation block of the main program: describe only when the
      first answer is yes, persist only when the second one is yes too. */
  method Remediate(report: Report, describe: bool, save: bool) returns (events: seq<Event>)
    ensures events == RemediationEvents(report, describe, save)
  {
    events := [];
    if describe {
      events := WriteDescriptions(report);
      if save {
        ghost var described := events;
        for i := 0 to |report|
          invariant events == described + SaveEvents(report[..i])
        {
          assert report[..i + 1][..i] == report[..i];
          events := events + [WriteMemory(report[i].switch)];
        }
        assert report[..|report|] == report;
      }
    }
  }

  /** A switch's commands: its backup, then one configuration set per
      record. */
  lemma SwitchEventsAt(sr: SwitchReport)
    ensures |SwitchEvents(sr)| == 1 + |sr.records|
    ensures SwitchEvents(sr)[0] == Backup(sr.switch)
    ensures forall j :: 0 <= j < |sr.records| ==>
              SwitchEvents(sr)[1 + j] == ConfigSet(sr.switch, DescriptionLines(sr.records[j]))
  {
  }

  /** One backup per switch and one configuration set per record. */
  lemma {:induction false} DescribeLength(report: Report)
    ensures |DescribeEvents(report)| == |report| + TotalRecords(report)
  {
    if report != [] {
      var last := report[|report| - 1];
      DescribeLength(report[..|report| - 1]);
    }
  }

  /** The description trace of a concatenation is the concatenation of the
      traces: each switch's commands stay where the switch was. */
  lemma {:induction false} DescribeAppend(a: Report, b: Report)
    ensures DescribeEvents(a + b) == DescribeEvents(a) + DescribeEvents(b)
    decreases |b|
  {
    if |b| == 0 {
      assert a + b == a;
    } else {
      var n := |b|;
      var c := a + b;
      var init := b[..n - 1];
      assert c[..|c| - 1] == a + init;
      assert c[|c| - 1] == b[n - 1];
      DescribeAppend(a, init);
      var own := SwitchEvents(b[n - 1]);
      var x := DescribeEvents(a);
      var y := DescribeEvents(init);
      assert DescribeEvents(b) == y + own;
      assert DescribeEvents(c) == (x + y) + own;
      assert (x + y) + own == x + (y + own);
    }
  }

  /** Layout of the description trace: whatever comes before and after it,
      a switch's commands (its backup, then its records' configuration sets
      in record order) form one contiguous block, placed after everything
      sent to the switches before it. */
  lemma DescribeLayout(before: Report, sr: SwitchReport, after: Report)
    ensures DescribeEvents(before + [sr] + after)
            == DescribeEvents(before) + SwitchEvents(sr) + DescribeEvents(after)
  {
    var upto := before + [sr];
    assert upto[..|upto| - 1] == before;
    DescribeAppend(upto, after);
  }

  /** Every configuration set for a switch comes after a backup of that
      switch. */
  lemma {:induction false} BackupPrecedesConfig(report: Report, k: nat)
    requires k < |DescribeEvents(report)| && DescribeEvents(report)[k].ConfigSet?
    ensures exists b :: 0 <= b < k && DescribeEvents(report)[b] == Backup(DescribeEvents(report)[k].switch)
  {
    var n := |report|;
    var init := report[..n - 1];
    var last := report[n - 1];
    var before := DescribeEvents(init);
    var events := DescribeEvents(report);
    if k < |before| {
      BackupPrecedesConfig(init, k);
      var b :| 0 <= b < k && before[b] == Backup(before[k].switch);
      assert events[b] == before[b];
    } else {
      SwitchEventsAt(last);
      assert events[|before|] == Backup(last.switch);
      if k > |before| {
        assert events[k] == SwitchEvents(last)[k - |before|];
      }
    }
  }

  /** Describing never persists anything. */
  lemma {:induction false} DescribeNeverSaves(report: Report)
    ensures forall k :: 0 <= k < |DescribeEvents(report)| ==> !DescribeEvents(report)[k].WriteMemory?
  {
    if report != [] {
      var last := report[|report| - 1];
      DescribeNeverSaves(report[..|report| - 1]);
      SwitchEventsAt(last);
    }
  }

  lemma {:induction false} SaveEventsAt(report: Report)
    ensures |SaveEvents(report)| == |report|
    ensures forall i :: 0 <= i < |report| ==> SaveEvents(report)[i] == WriteMemory(report[i].switch)
  {
    if report != [] {
      var init := report[..|report| - 1];
      assert forall i :: 0 <= i < |init| ==> init[i] == report[i];
      SaveEventsAt(init);
    }
  }

  /** With both confirmations, `write memory` is sent last: after every
      configuration set, once per switch of the report (switches without
      records included), in report order, and to no other device. */
  lemma PersistAfterDescribe(report: Report)
    ensures var events := RemediationEvents(report, true, true);
            var d := |DescribeEvents(report)|;
            && |events| == d + |report|
            && (forall k :: 0 <= k < d ==> !events[k].WriteMemory?)
            && (forall i :: 0 <= i < |report| ==> events[d + i] == WriteMemory(report[i].switch))
  {
    DescribeNeverSaves(report);
    SaveEventsAt(report);
  }

  /** Nothing is sent without the first confirmation, and `write memory`
      only with both. */
  lemma PersistOnlyOnConfirmation(report: Report, describe: bool, save: bool, k: nat)
    requires k < |RemediationEvents(report, describe, save)|
    ensures describe
    ensures RemediationEvents(report, describe, save)[k].WriteMemory? ==> save
  {
    DescribeNeverSaves(report);
  }
}
