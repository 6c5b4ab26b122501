/** broker/src/types.rs: the captured traffic record, with its nullable columns. */
module TrafficRows {
  import opened Common

  datatype TrafficRow = TrafficRow(
    uuid: string, podName: Option<string>, podNs: Option<string>, podIp: Option<string>, podPort: Option<string>,
    ipProtocol: Option<string>, trafficType: Option<string>, ioIp: Option<string>, ioPort: Option<string>,
    decision: Option<string>)
}
