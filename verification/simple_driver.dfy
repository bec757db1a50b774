/** The single-record submission driver: each CSV row becomes one
    `storeBatchedData` write, issued in row order, stopping at the first write
    that is not confirmed. */
module SimpleDriver {
  import opened Ledger
  import opened FailFast
  import opened Ownership

  /** One CSV row; the value column keeps whatever type the CSV reader gave it. */
  datatype SimpleRow<V> = SimpleRow(sensorId: string, dataType: string, value: V, unit: string)

  /** The struct passed to `storeBatchedData`, in field order. */
  datatype BatchedData = BatchedData(sensorId: string, dataType: string, value: string, unit: string)

  /** The write a row becomes; `render` is the string conversion `str(...)` applied
      to the value column. */
  function ToTuple<V>(row: SimpleRow<V>, render: V -> string): BatchedData {
    BatchedData(row.sensorId, row.dataType, render(row.value), row.unit)
  }

  /** The writes of a run: one per row, in row order, each carrying the row's
      sensor id, data type, rendered value and unit. */
  function Calls<V>(rows: seq<SimpleRow<V>>, render: V -> string): (calls: seq<BatchedData>)
    ensures |calls| == |rows|
    ensures forall i :: 0 <= i < |rows| ==>
      && calls[i].sensorId == rows[i].sensorId
      && calls[i].dataType == rows[i].dataType
      && calls[i].value == render(rows[i].value)
      && calls[i].unit == rows[i].unit
  {
    if |rows| == 0 then [] else [ToTuple(rows[0], render)] + Calls(rows[1..], render)
  }

  /** The driver script: the owner check, then one write per row with the success
      counter and the fail-fast exit. */
  method StoreSimpleData<V>(
    contractOwner: string, configured: string, rows: seq<SimpleRow<V>>, render: V -> string,
    fate: nat -> Attempt, ledger0: seq<Entry<BatchedData>>)
    returns (r: Report<BatchedData>)
    ensures r == Expected(SameAddress(contractOwner, configured), Calls(rows, render), fate, ledger0)
    ensures r.exit != OwnerRejected ==> r.total == |rows|
  {
    if !SameAddress(contractOwner, configured) {
      return Report(OwnerRejected, 0, 0, [], ledger0);
    }
    r := SubmitAll(Calls(rows, render), fate, ledger0);
  }
}
