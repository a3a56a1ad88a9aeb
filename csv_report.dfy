/** The rows of the flat (CSV) report: a header, then one row per record
    with the switch identity in front, switch by switch. Writing the rows to
    a timestamped file is not part of this model. */
module CsvReport {
  import opened Types

  const CsvHeader: seq<string> := ["Switch IP", "Interface", "MAC address", "IP address", "User"]

  /** `[key, *value]` for one record of switch `sw`. */
  function Row(sw: Switch, rec: PortRecord): seq<string>
  {
    [sw, rec.port, rec.mac, rec.ip, rec.hostname]
  }

  function SwitchRows(sw: Switch, records: seq<PortRecord>): seq<seq<string>>
  {
    if records == [] then []
    else SwitchRows(sw, records[..|records| - 1]) + [Row(sw, records[|records| - 1])]
  }

  /** The data rows, switch by switch in report order. */
  function FlatRows(report: Report): seq<seq<string>>
  {
    if report == [] then []
    else
      var last := report[|report| - 1];
      FlatRows(report[..|report| - 1]) + SwitchRows(last.switch, last.records)
  }

  /** `csv_report`: the rows handed to the CSV writer, in writing order. */
  method CsvRows(report: Report) returns (rows: seq<seq<string>>)
    ensures rows == [CsvHeader] + FlatRows(report)
  {
    rows := [CsvHeader];
    for i := 0 to |report|
      invariant rows == [CsvHeader] + FlatRows(report[..i])
    {
      assert report[..i + 1][..i] == report[..i];
      var sw := report[i].switch;
      var records := report[i].records;
      for j := 0 to |records|
        invariant rows == [CsvHeader] + FlatRows(report[..i]) + SwitchRows(sw, records[..j])
      {
        assert records[..j + 1][..j] == records[..j];
        rows := rows + [Row(sw, records[j])];
      }
      assert records[..|records|] == records;
    }
    assert report[..|report|] == report;
  }

  lemma {:induction false} SwitchRowsAt(sw: Switch, records: seq<PortRecord>)
    ensures |SwitchRows(sw, records)| == |records|
    ensures forall j :: 0 <= j < |records| ==> SwitchRows(sw, records)[j] == Row(sw, records[j])
  {
    if records != [] {
      var init := records[..|records| - 1];
      assert forall j :: 0 <= j < |init| ==> init[j] == records[j];
      SwitchRowsAt(sw, init);
    }
  }

  /** One row per record over the whole report. */
  lemma {:induction false} FlatRowsLength(report: Report)
    ensures |FlatRows(report)| == TotalRecords(report)
  {
    if report != [] {
      var last := report[|report| - 1];
      FlatRowsLength(report[..|report| - 1]);
      SwitchRowsAt(last.switch, last.records);
    }
  }

  /** Record `j` of switch `i` is the row right after the rows of the
      switches before `i` and of its own earlier records, and that row is the
      switch identity followed by the record's four fields. */
  lemma {:induction false} FlatRowsAt(report: Report, i: nat, j: nat)
    requires i < |report| && j < |report[i].records|
    ensures TotalRecords(report[..i]) + j < |FlatRows(report)|
    ensures FlatRows(report)[TotalRecords(report[..i]) + j] == Row(report[i].switch, report[i].records[j])
  {
    var n := |report|;
    var init := report[..n - 1];
    var last := report[n - 1];
    FlatRowsLength(init);
    SwitchRowsAt(last.switch, last.records);
    if i == n - 1 {
      assert report[..i] == init;
    } else {
      assert init[..i] == report[..i];
      assert init[i] == report[i];
      FlatRowsAt(init, i, j);
    }
  }
}
