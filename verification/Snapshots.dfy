/** What an agent sends to the aggregator. */
module Snapshots {
  import opened Machine
  import opened Addresses
  import opened RttValues

  datatype ThroughputEntry = ThroughputEntry(
    srcIp: Ip, dstIp: Ip, srcPort: u32, dstPort: u32, txBytes: u64, rxBytes: u64)

  /** A latency entry; on the wire its histogram can have any length. */
  datatype RttEntry = RttEntry(
    srcIp: Ip, dstIp: Ip, srcPort: u32, dstPort: u32,
    sumUs: u64, count: u64, minUs: u32, maxUs: u32, hist: seq<u32>)

  datatype Snapshot = Snapshot(nodeName: string, throughput: seq<ThroughputEntry>, rtt: seq<RttEntry>)

  type Nodes = map<string, Snapshot>

  /** Missing cells are zero, surplus cells are ignored. */
  function Padded(hist: seq<u32>): Hist {
    seq(27, i requires 0 <= i < 27 => if i < |hist| then hist[i] else 0)
  }

  /** The latency value an entry stands for. */
  function ValueOf(e: RttEntry): RttVal {
    RttVal(e.sumUs, e.count, e.minUs, e.maxUs, Padded(e.hist))
  }
}
