/** Values shared by the port-presence correlation pipeline and the
    remediation sequence: parsed device output, the records the pipeline
    builds from it, and the failure the pipeline can end with. */
module Types {

  type Port = string
  type Mac = string
  type Ip = string
  type VlanId = string
  /** A switch (or router) identity: its management address. */
  type Switch = string

  /** One parsed row of the router's `show ip arp` output. */
  datatype ArpEntry = ArpEntry(address: Ip, mac: Mac)

  /** One parsed row of a switch's `show interfaces status` output. */
  datatype InterfaceStatus = InterfaceStatus(port: Port, vlan: VlanId)

  /** One item of a switch's `show mac address-table vlan V` output: either a
      record the parser recognised, or something it could not turn into a
      record (the text it left behind). */
  datatype MacEntry =
    | Malformed(text: string)
    | MacRecord(vlan: VlanId, destinationPorts: seq<Port>, destinationAddress: Mac)

  /** A MAC address learned on a port. */
  datatype PortMac = PortMac(port: Port, mac: Mac)

  /** A learned MAC address joined with the router's IP address for it. */
  datatype PortMacIp = PortMacIp(port: Port, mac: Mac, ip: Ip)

  /** The final row: port, MAC address, IP address and the short host name. */
  datatype PortRecord = PortRecord(port: Port, mac: Mac, ip: Ip, hostname: string)

  /** One switch's rows, in the order the pipeline produced them. */
  datatype SwitchReport = SwitchReport(switch: Switch, records: seq<PortRecord>)

  /** The per-switch mapping, in configured switch order. */
  type Report = seq<SwitchReport>

  /** The only failure the modelled code raises itself: a MAC record of a user
      VLAN whose destination-port list is empty, indexed at position 0. */
  datatype Error = MissingDestinationPort

  datatype Result<T> = Ok(value: T) | Err(error: Error)

  /** Number of rows over all switches of a report. */
  function TotalRecords(report: Report): nat
  {
    if report == [] then 0
    else TotalRecords(report[..|report| - 1]) + |report[|report| - 1].records|
  }
}
