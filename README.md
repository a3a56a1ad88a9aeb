# Switch-port user inventory and description writer — Dafny model

The program reads the ARP table of a router and, for each configured access
switch, its interface status and its MAC address table for every user VLAN.
It keeps the (port, MAC address) pairs learned on access ports of user VLANs,
sorts them, joins them with the router's ARP table to get an IP address,
and looks up each IP address's PTR record to get a short host name.
The result is a per-switch list of (port, MAC, IP, host name) records.
It is written as a CSV or Excel report; optionally each record's host name
is then written as the description of its switch port, and after a second
confirmation `write memory` is sent to every switch.

This project models that core and proves properties of it:

- `Types` holds the entities: ARP entries, interface-status entries, MAC-table
  entries (parser failures included, as `Malformed`), the pair/triple/record
  tuples, the per-switch report, and a `Result` for the one error the MAC
  table filter raises (`destination_port[0]` on an empty list).
- `StringOrder` and `PairOrder` model Python's string and tuple comparison
  and `sorted` on (port, MAC) tuples: a total order, an insertion sort proved
  sorted and a permutation, and uniqueness of the sorted permutation.
- `ArpReader`: `arp_table`'s dictionary build (later entries win).
- `MacTableReader`: `mac_table`'s allow-list, filter loop and sort, with the
  IndexError path.
- `Correlator`: `ip_table`'s nested loop over the pairs and the ARP dictionary.
- `HostnameResolver`: `dns_query` with the resolver replaced by a lookup
  function that returns the first PTR name or NXDOMAIN.
- `CsvReport`: the rows `csv_report` hands to the CSV writer.
- `Remediator`: `write_descriptions` and the confirmation block, as the trace
  of commands the switches receive.
- `Driver`: the main program's three passes over the switch mapping.

Each imperative loop of the source is a Dafny `method` with a loop and its
invariants, proved equal to a recursive specification function; the
properties are lemmas about those functions.

## Model

| member | source | states |
|---|---|---|
| ArpReader.ArpTable | user_interface_decription.py:52-57 | the loop's dictionary equals `ArpMap`, the map in which each MAC address holds the address of its last entry |
| ArpReader.ArpMapKeys | user_interface_decription.py:55-56 | the dictionary's keys are exactly the MAC addresses of the entries |
| ArpReader.ArpMapLastWins | user_interface_decription.py:55-56 | an entry with no later entry for the same MAC address determines that MAC address's value |
| MacTableReader.AllowList | user_interface_decription.py:82-84 | the allow-list is `AccessPorts`: the ports whose VLAN is a user VLAN, in interface-status order |
| MacTableReader.AccessPortsMembers | user_interface_decription.py:82-84 | a port is allow-listed exactly when some interface-status entry has that port and a user VLAN |
| MacTableReader.FilterTable | user_interface_decription.py:88-94 | one VLAN's filter fails exactly when some entry is a record of a user VLAN with no destination port, and otherwise returns `Kept`; malformed entries are skipped |
| MacTableReader.FilterEntries | user_interface_decription.py:85-94 | the filter over all VLAN tables fails exactly when some table has such an entry, and otherwise returns the tables' kept pairs concatenated in VLAN order |
| MacTableReader.MacTable | user_interface_decription.py:71-95 | `mac_table` fails exactly when some table has a faulty entry, and otherwise returns `SwitchPairs`, the sorted collected pairs |
| MacTableReader.KeptMembers | user_interface_decription.py:88-94 | a pair is kept from a table exactly when some entry of that table produces it |
| MacTableReader.GatheredMembers | user_interface_decription.py:85-94 | a pair is collected exactly when some entry of some VLAN's table produces it |
| MacTableReader.KeptAppend | user_interface_decription.py:88-94 | the filter is stable: the pairs kept from `a + b` are those from `a` followed by those from `b` |
| MacTableReader.KeptSkipsMalformed | user_interface_decription.py:89-91 | a parser-failure entry contributes nothing and the entries after it are still processed |
| MacTableReader.SwitchPairsMembers | user_interface_decription.py:82-95 | a pair is in the result exactly when some MAC record of a user VLAN has it (first destination port allow-listed); such a port has a user VLAN in the interface status |
| MacTableReader.KeptSameAllow | user_interface_decription.py:92 | only membership in the allow-list matters, not its order or repeats |
| MacTableReader.KeptPermutation | user_interface_decription.py:88-94 | reordering a MAC table permutes the kept pairs |
| MacTableReader.GatheredPermutation | user_interface_decription.py:85-94 | reordering each VLAN's table permutes the collected pairs |
| MacTableReader.SwitchPairsOrderIndependent | user_interface_decription.py:82-95 | the result does not depend on the order in which the switch reports its interface status or its MAC table entries |
| PairOrder.PairLeTotal | user_interface_decription.py:95 | tuple comparison is total |
| PairOrder.PairLeAntisymmetric | user_interface_decription.py:95 | tuple comparison is antisymmetric |
| PairOrder.PairLeTransitive | user_interface_decription.py:95 | tuple comparison is transitive |
| PairOrder.Insert | user_interface_decription.py:95 | insertion into a sorted list keeps it sorted and adds exactly the element |
| PairOrder.SortPairs | user_interface_decription.py:95 | `sorted` returns an ascending permutation of its argument |
| PairOrder.SortedUnique | user_interface_decription.py:95 | two ascending permutations of the same elements are equal |
| PairOrder.SortDeterministic | user_interface_decription.py:95 | permuted input gives the same sorted list |
| PairOrder.SortPairsMembers | user_interface_decription.py:95 | sorting keeps exactly the members of its input |
| StringOrder.StrLeTotal | user_interface_decription.py:95 | string comparison is total |
| StringOrder.StrLeAntisymmetric | user_interface_decription.py:95 | string comparison is antisymmetric |
| StringOrder.StrLeTransitive | user_interface_decription.py:95 | string comparison is transitive |
| Correlator.IpTable | user_interface_decription.py:110-117 | the nested loop returns `Join`, whatever order the dictionary is scanned in |
| Correlator.JoinMembers | user_interface_decription.py:110-117 | a triple is produced exactly when some pair's MAC address has an ARP entry and the triple is that pair extended by the entry's IP address |
| Correlator.JoinAppend | user_interface_decription.py:111-114 | the join is stable: each pair's triple lands where the pair was |
| Correlator.JoinLength | user_interface_decription.py:111-114 | the output is never longer than the input (ARP keys are distinct) |
| Correlator.JoinAllMatched | user_interface_decription.py:111-114 | when every MAC address has an ARP entry nothing is dropped and the i-th triple extends the i-th pair |
| Correlator.JoinEmptyArp | user_interface_decription.py:111-114 | with an empty ARP table every pair is dropped |
| HostnameResolver.ShortName | user_interface_decription.py:143 | the short name has no dot, is a prefix of the name, and is followed in the name by a dot or by nothing |
| HostnameResolver.ShortNameUnique | user_interface_decription.py:143 | those three properties determine the short name |
| HostnameResolver.Hostname | user_interface_decription.py:137-144 | NXDOMAIN gives "DNS Not Found"; an answer gives its short name |
| HostnameResolver.DnsQuery | user_interface_decription.py:131-145 | the loop returns `Resolve`: one record per triple, in order |
| HostnameResolver.ResolveAt | user_interface_decription.py:135-144 | same length as the input, and record i is triple i extended by the host name of its IP address |
| CsvReport.CsvRows | user_interface_decription.py:199-206 | the rows written are the header followed by `FlatRows`, switch by switch and record by record |
| CsvReport.FlatRowsLength | user_interface_decription.py:203-206 | one row per record over the whole report |
| CsvReport.FlatRowsAt | user_interface_decription.py:203-206 | record j of switch i is the row after all rows of earlier switches and earlier records, and that row is the switch followed by the record's fields |
| Remediator.WriteDescriptions | user_interface_decription.py:241-255 | the trace sent is `DescribeEvents`: per switch a backup, then one two-line configuration set per record |
| Remediator.SwitchEventsAt | user_interface_decription.py:242-254 | a switch's block starts with its backup, and its j-th configuration set is `interface <port>`, `description <host name>` of record j |
| Remediator.DescribeLength | user_interface_decription.py:241-254 | one backup per switch and one configuration set per record |
| Remediator.DescribeAppend | user_interface_decription.py:241-254 | the switches are processed one after the other, none interleaved |
| Remediator.DescribeLayout | user_interface_decription.py:241-254 | a switch's block sits between the blocks of the switches before and after it |
| Remediator.BackupPrecedesConfig | user_interface_decription.py:242-254 | every configuration set is preceded by a backup of the same switch |
| Remediator.DescribeNeverSaves | user_interface_decription.py:241-255 | describing alone never writes the startup configuration |
| Remediator.SaveEventsAt | user_interface_decription.py:302-303 | one `write memory` per switch, in mapping order |
| Remediator.Remediate | user_interface_decription.py:295-303 | the confirmation block sends `RemediationEvents`: nothing without the first yes, descriptions only without the second, descriptions then saves with both |
| Remediator.PersistAfterDescribe | user_interface_decription.py:297-303 | with both confirmations every `write memory` comes after all description commands, once per switch in order |
| Remediator.PersistOnlyOnConfirmation | user_interface_decription.py:297-303 | any command implies the first confirmation, and a `write memory` implies the second |
| Driver.AnyCaptureFaultyAt | user_interface_decription.py:280-281 | the first pass fails exactly when some switch has a faulty MAC table |
| Driver.LearnPass | user_interface_decription.py:278-281 | the first pass fails exactly when some switch has a faulty table, and otherwise maps each switch to its `mac_table` result; the mapping's keys are exactly the configured switches |
| Driver.JoinPass | user_interface_decription.py:283-284 | the second pass replaces each switch's pairs by their join with the ARP map, keeps the mapping's key set, and leaves every other entry as it was |
| Driver.ResolvePass | user_interface_decription.py:286-288 | the third pass replaces each switch's triples by their resolved records, keeps the mapping's key set, and leaves every other entry as it was |
| Driver.ReadBack | user_interface_decription.py:301-302 | reading the finished mapping in insertion order gives one entry per configured switch holding its records, and every key of the mapping gets its entry |
| Driver.Correlate | user_interface_decription.py:283-288 | after the first pass, the second and third passes and the read-back yield, per configured switch in order, its pairs joined and resolved |
| Driver.Collect | user_interface_decription.py:276-288 | the main program's data phase fails exactly when some switch's table is faulty, and otherwise yields, per configured switch in order, the switch's records (table pairs, joined, resolved) |
| Driver.RecordProvenance | user_interface_decription.py:276-288 | every final record's port is allow-listed, its pair comes from a MAC record, its MAC address is in the router's ARP table, its IP is the ARP map's value, and its host name is the lookup's |
| Driver.ScenarioResolvedHost | user_interface_decription.py:276-288 | a concrete switch with one learned MAC address known to the router and with a PTR name yields one record with the short host name |

## Left out

- Device sessions (netmiko `ConnectHandler`, `send_command`, `send_config_set`) and TextFSM parsing are not modelled. Parsed command output is an input, and each command sent is an `Event` in a trace.
- DNS: the resolver configured with the DNS servers is a lookup function. It returns the first name of the PTR answer or NXDOMAIN. Other resolver errors (timeouts, no nameservers) would abort the source; they are not modelled. Neither is the ValueError `reversename.from_address` raises on an address that is not an IP literal: addresses are taken as the router reports them.
- File output is not modelled: the backup files, the CSV file and its timestamped name, and `csv.writer` quoting. `CsvReport.CsvRows` stops at the rows handed to the writer.
- `xls_report` (openpyxl) is not modelled, and neither is choosing CSV from the report-type answer.
- `load_configuration` (YAML loading and its sorting) is not modelled. The switch list, user VLANs and ARP entries are inputs, already in configured order. The router used is the first one in the list.
- Prompts, credentials and `print` output are not modelled. The two confirmations are booleans, and `.strip()` and the `[0]` index on an empty answer (an IndexError) are not modelled.
- Driver.LearnPass requires the configured switches to be distinct. With a repeated switch the source stores the same dictionary entry again, which the model does not follow.
- Driver.JoinPass requires distinct switches. With a repeated switch the source applies `ip_table` to the same entry twice, which the model does not follow.
- Driver.ResolvePass requires distinct switches. With a repeated switch the source applies `dns_query` to the same entry twice, which the model does not follow.
- Driver.Correlate requires distinct switches, for the same reason as the second and third passes.
- Driver.Collect requires distinct switches, for the same reason as the three passes.
- Interface-status entries and ARP entries are assumed well-formed, because the source indexes them without a guard (`item['vlan']`, `item['port']` in `mac_table`, `entry['mac']`, `entry['address']` in `arp_table`); a missing field would raise a KeyError, which is not modelled. VLAN ids are compared as strings, as the parsed output gives them.
- Correlator.IpTable: the dictionary scan order is chosen nondeterministically (`:|`), not in Python's insertion order. Since the keys are distinct, every order gives the same result.
- The device-side effect of a description (idempotence on a re-run) is not modelled. Only the commands sent are.
