/** The reconciliation reader: reads the record count once, fetches every record
    by index, maps its fields, extracts the numeric value and repairs gaps. */
module Reconciliation {
  import opened Base
  import opened Text
  import opened Extraction
  import opened Imputation
  import opened Statistics

  /** What `getRecord(i)` returns, by position: timestamp, device id, data type and
      the stored value string. */
  datatype StoredRecord = StoredRecord(timestamp: nat, deviceId: string, dataType: string, dataValue: string)

  /** One row of the cleaned data set. */
  datatype CleanRow = CleanRow(
    timestamp: nat, deviceId: string, dataType: string, dataValue: string, numericValue: Option<real>)

  /** An empty ledger yields a frame without a `timestamp` column, and the timestamp
      conversion raises. */
  datatype ReadError = NoRecords

  /** Count-then-scan: the total is read once, then `getRecord(i)` is called for
      i = 0, 1, ..., total - 1, in that order. Returns the records and the indices
      queried. */
  method FetchAll(ledger: seq<StoredRecord>) returns (records: seq<StoredRecord>, queried: seq<nat>)
    ensures |queried| == |ledger|
    ensures forall i :: 0 <= i < |queried| ==> queried[i] == i
    ensures records == ledger
  {
    var total := |ledger|;
    records, queried := [], [];
    var i := 0;
    while i < total
      invariant i <= total
      invariant |queried| == i && forall k :: 0 <= k < i ==> queried[k] == k
      invariant records == ledger[..i]
    {
      records := records + [ledger[i]];
      queried := queried + [i];
      i := i + 1;
    }
  }

  /** The numeric column before imputation: the extraction applied to each value
      string. Nothing is missing exactly when every value string holds a digit. */
  function Extracted(records: seq<StoredRecord>): (col: Column)
    ensures |col| == |records|
    ensures forall i :: 0 <= i < |records| ==> col[i] == ExtractNumber(records[i].dataValue)
    ensures MissingCount(col) == 0 <==> forall i :: 0 <= i < |records| ==> HasDigit(records[i].dataValue)
  {
    var col := seq(|records|, i requires 0 <= i < |records| => ExtractNumber(records[i].dataValue));
    MissingCountZeroIff(col);
    col
  }

  /** The processing of `retrieve_and_process_data` after the fetch: field mapping,
      numeric extraction and the two-tier imputation. */
  function Process(records: seq<StoredRecord>): (r: Result<seq<CleanRow>, ReadError>)
    ensures r.Failure? <==> |records| == 0
    ensures r.Success? ==> |r.value| == |records|
    ensures r.Success? ==> forall i :: 0 <= i < |records| ==>
      && r.value[i].timestamp == records[i].timestamp
      && r.value[i].deviceId == records[i].deviceId
      && r.value[i].dataType == records[i].dataType
      && r.value[i].dataValue == records[i].dataValue
    ensures r.Success? ==> forall i :: 0 <= i < |records| && ExtractNumber(records[i].dataValue).Some? ==>
      r.value[i].numericValue == ExtractNumber(records[i].dataValue)
    ensures r.Success? && FewMissing(Extracted(records)) ==>
      forall i :: 0 <= i < |records| && ExtractNumber(records[i].dataValue).None? ==>
        r.value[i].numericValue == Some(0.0)
    ensures r.Success? && !FewMissing(Extracted(records)) && |Present(Extracted(records))| > 0 ==>
      forall i :: 0 <= i < |records| && ExtractNumber(records[i].dataValue).None? ==>
        r.value[i].numericValue == Some(Median(Present(Extracted(records))))
  {
    if |records| == 0 then Failure(NoRecords)
    else
      var numeric := Impute(Extracted(records));
      Success(seq(|records|, i requires 0 <= i < |records| =>
        CleanRow(records[i].timestamp, records[i].deviceId, records[i].dataType, records[i].dataValue, numeric[i])))
  }

  /** `retrieve_and_process_data`: the fetch followed by the processing. */
  method RetrieveAndProcess(ledger: seq<StoredRecord>) returns (r: Result<seq<CleanRow>, ReadError>, queried: seq<nat>)
    ensures |queried| == |ledger| && forall i :: 0 <= i < |queried| ==> queried[i] == i
    ensures r == Process(ledger)
  {
    var records;
    records, queried := FetchAll(ledger);
    r := Process(records);
  }

  /** A ledger whose every value holds a digit comes back with each row's number as
      extracted, in index order, and the imputation leaves it untouched. */
  lemma ProcessCompleteLedger(ledger: seq<StoredRecord>)
    requires |ledger| > 0
    requires forall i :: 0 <= i < |ledger| ==> ExtractNumber(ledger[i].dataValue).Some?
    ensures Process(ledger).Success?
    ensures forall i :: 0 <= i < |ledger| ==>
      Process(ledger).value[i].numericValue == ExtractNumber(ledger[i].dataValue)
    ensures Impute(Extracted(ledger)) == Extracted(ledger)
  {
    ImputeCompleteUnchanged(Extracted(ledger));
  }

  /** A ledger whose every value reads as a number comes back row for row: each
      row keeps its record's fields and holds the number its value reads as. */
  lemma ProcessReadsBack(records: seq<StoredRecord>, rows: seq<CleanRow>)
    requires |records| > 0 && |rows| == |records|
    requires forall k :: 0 <= k < |records| ==> ExtractNumber(records[k].dataValue).Some?
    requires forall k :: 0 <= k < |records| ==> rows[k] == CleanRow(
      records[k].timestamp, records[k].deviceId, records[k].dataType, records[k].dataValue,
      ExtractNumber(records[k].dataValue))
    ensures Process(records) == Success(rows)
  {
    ProcessCompleteLedger(records);
    var out := Process(records).value;
    forall k | 0 <= k < |records|
      ensures out[k] == rows[k]
    {
    }
    assert out == rows;
  }
}
