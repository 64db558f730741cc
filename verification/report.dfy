/** The gas report the renderer consumes: one record per contract, in input
    order, each with its deployment cost and its per-method call statistics. */
module GasReport {
  import opened Values

  /** Statistics over all recorded calls of one method. */
  datatype CallStats = CallStats(min: Value, mean: Value, median: Value, max: Value, calls: Value)

  /** Gas spent deploying a contract, and the size of its bytecode. */
  datatype DeploymentStats = DeploymentStats(gas: Value, size: Value)

  /** A method name with its statistics; a contract lists these in the order
      its `functions` object enumerates them. */
  type MethodEntry = (string, CallStats)

  datatype ContractEntry = ContractEntry(contract: string, deployment: DeploymentStats, functions: seq<MethodEntry>)

  type Report = seq<ContractEntry>

  /** Text that holds no `<`: once embedded in the table it cannot be mistaken
      for markup. The renderer does not require it; it escapes nothing. */
  predicate MarkupFree(s: string) {
    '<' !in s
  }

  predicate EntryMarkupFree(c: ContractEntry) {
    && MarkupFree(c.contract)
    && forall k :: 0 <= k < |c.functions| ==> MarkupFree(c.functions[k].0)
  }

  predicate ReportMarkupFree(r: Report) {
    forall i :: 0 <= i < |r| ==> EntryMarkupFree(r[i])
  }
}
