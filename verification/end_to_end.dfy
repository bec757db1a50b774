/** How the submission side and the reconciliation reader fit together: a value
    written by the per-parameter driver reads back as the number it renders. */
module EndToEnd {
  import opened Base
  import opened Text
  import opened Ledger
  import opened FailFast
  import opened FormatValue
  import opened SensorDriver
  import opened Extraction
  import opened Imputation
  import opened Reconciliation

  /** The magnitude of a reading given in hundredths. */
  function Magnitude(h: int): real {
    (if h < 0 then -h else h) as real / 100.0
  }

  /** Hundredths split into whole and fraction digits denote the same number. */
  lemma HundredthsDecimal(a: nat)
    ensures Decimal(a / 100, a % 100, 2) == a as real / 100.0
  {
    assert Pow10(2) == 100;
    assert (a / 100) * 100 + a % 100 == a;
    assert (a / 100) as real + (a % 100) as real / 100.0 == ((a / 100) * 100 + a % 100) as real / 100.0;
  }

  /** A two-decimal rendering reads back as the reading's magnitude: the pattern
      skips a leading minus sign. */
  lemma FormattedValueReadsBack(h: int)
    ensures ExtractNumber(FormatHundredths(h)) == Some(Magnitude(h))
  {
    var a := if h < 0 then -h else h;
    var w := NatDigits(a / 100);
    var f := [DigitChar(a % 100 / 10), DigitChar(a % 10)];
    var pre := if h < 0 then "-" else "";
    var v := Decimal(DigitsValue(w), DigitsValue(f), 2);
    assert ExtractNumber(FormatHundredths(h)) == Some(v) by {
      var t := pre + (w + "." + f);
      assert FormatHundredths(h) == t;
      assert t + "" == t;
      ExtractFraction(pre, w, f, "");
    }
    assert v == Magnitude(h) by {
      assert DigitsValue(w) == a / 100 by {
        NatDigitsRoundTrip(a / 100);
      }
      assert DigitsValue(f) == a % 100 by {
        TwoDigitsValue(a % 100 / 10, a % 10);
        LastTwoDigits(a);
      }
      HundredthsDecimal(a);
    }
  }

  /** Readings of 400, 22.46, 7.1 and -3.5 are written as "400.00", "22.46", "7.10"
      and "-3.50", and read back as 400, 22.46, 7.1 and 3.5: the minus sign is
      skipped. */
  lemma ScenarioValues()
    ensures FormatHundredths(40000) == "400.00" && ExtractNumber("400.00") == Some(400.0)
    ensures FormatHundredths(2246) == "22.46" && ExtractNumber("22.46") == Some(22.46)
    ensures FormatHundredths(710) == "7.10" && ExtractNumber("7.10") == Some(7.1)
    ensures FormatHundredths(-350) == "-3.50" && ExtractNumber("-3.50") == Some(3.5)
  {
    Format400();
    FormattedValueReadsBack(40000);
    Format2246();
    FormattedValueReadsBack(2246);
    Format710();
    FormattedValueReadsBack(710);
    FormatNegative();
    FormattedValueReadsBack(-350);
  }

  lemma LastTwoDigits(a: nat)
    ensures 10 * (a % 100 / 10) + a % 10 == a % 100
  {
    var q, r := a / 100, a % 100;
    assert a == 100 * q + r;
    assert a == 10 * (10 * q + r / 10) + r % 10;
  }

  lemma TwoDigitsValue(x: nat, y: nat)
    requires x < 10 && y < 10
    ensures DigitsValue([DigitChar(x), DigitChar(y)]) == 10 * x + y
  {
    var f := [DigitChar(x), DigitChar(y)];
    assert f[..1] == [DigitChar(x)] && f[..1][..0] == [];
    assert DigitsValue(f[..1]) == x;
    assert DigitsValue(f) == DigitsValue(f[..1]) * 10 + DigitValue(f[1]);
  }

  /** A stored per-parameter record as the reader's four-field `getRecord`
      decodes it: block time, device id, parameter type and value. The model
      takes the reader to read the store the driver writes. */
  function ReaderView(e: Entry<StoreData>): StoredRecord {
    StoredRecord(e.blockTime, e.call.sensorId, e.call.parameterType, e.call.value)
  }

  /** The reader's fetch of a whole ledger: one record per entry, in ledger order. */
  function Views(ledger: seq<Entry<StoreData>>): (records: seq<StoredRecord>)
    ensures |records| == |ledger|
    ensures forall i :: 0 <= i < |ledger| ==> records[i] == ReaderView(ledger[i])
  {
    seq(|ledger|, i requires 0 <= i < |ledger| => ReaderView(ledger[i]))
  }

  /** Appending to the ledger appends to what the reader sees, and leaves the
      records already there as they were. */
  lemma ViewsAppend(a: seq<Entry<StoreData>>, b: seq<Entry<StoreData>>)
    ensures Views(a + b) == Views(a) + Views(b)
  {
  }

  /** After a run, the reader sees the records of the ledger the run started
      from, then one record per confirmed write, in write order. */
  lemma RunAppendsViews(calls: seq<StoreData>, fate: nat -> Attempt, ledger0: seq<Entry<StoreData>>)
    ensures var r := Expected(true, calls, fate, ledger0);
      Views(r.ledger) == Views(ledger0) + Views(Confirmations(calls, fate, r.stored))
  {
    var k := FirstFailure(fate, |calls|);
    assert Expected(true, calls, fate, ledger0).ledger == ledger0 + Confirmations(calls, fate, k);
    ViewsAppend(ledger0, Confirmations(calls, fate, k));
  }

  /** What the reader should return after a run in which every write is mined,
      stated without the machinery of either side: one row per write, in write
      order, carrying its block time, the device id, parameter k % 7, the
      rendered reading and the reading's magnitude. */
  function Readback(kept: seq<SensorRow>, fate: nat -> Attempt): (rows: seq<CleanRow>)
    ensures |rows| == 7 * |kept|
  {
    seq(7 * |kept|, k requires 0 <= k < 7 * |kept| =>
      CleanRow(TimeOf(fate(k)), SENSOR_ID, PARAMETERS[k % 7], FormatHundredths(ReadingAt(kept, k)),
               Some(Magnitude(ReadingAt(kept, k)))))
  }

  /** Row k of the reference is what the reader makes of record k of a
      completed run. */
  lemma ReadbackRow(kept: seq<SensorRow>, fate: nat -> Attempt, r: StoredRecord, k: nat)
    requires k < 7 * |kept|
    requires r == StoredRecord(TimeOf(fate(k)), SENSOR_ID, PARAMETERS[k % 7], FormatHundredths(ReadingAt(kept, k)))
    ensures ExtractNumber(r.dataValue).Some?
    ensures Readback(kept, fate)[k] == CleanRow(r.timestamp, r.deviceId, r.dataType, r.dataValue, ExtractNumber(r.dataValue))
  {
    FormattedValueReadsBack(ReadingAt(kept, k));
  }

  /** Records laid out as a completed run lays them out are processed into the
      reference rows. */
  lemma RecordsReadBack(kept: seq<SensorRow>, fate: nat -> Attempt, records: seq<StoredRecord>)
    requires |kept| > 0 && |records| == 7 * |kept|
    requires forall k :: 0 <= k < |records| ==>
      records[k] == StoredRecord(TimeOf(fate(k)), SENSOR_ID, PARAMETERS[k % 7], FormatHundredths(ReadingAt(kept, k)))
    ensures Process(records) == Success(Readback(kept, fate))
  {
    var expected := Readback(kept, fate);
    forall k | 0 <= k < |records|
      ensures ExtractNumber(records[k].dataValue).Some?
      ensures expected[k] == CleanRow(
        records[k].timestamp, records[k].deviceId, records[k].dataType, records[k].dataValue,
        ExtractNumber(records[k].dataValue))
    {
      ReadbackRow(kept, fate, records[k], k);
    }
    ProcessReadsBack(records, expected);
  }

  /** A ledger holding, at each position k, write k of a run over the kept rows
      stamped with attempt k's block time is read back as the reference rows. */
  lemma LedgerReadsBack(kept: seq<SensorRow>, fate: nat -> Attempt, ledger: seq<Entry<StoreData>>)
    requires |kept| > 0 && |ledger| == 7 * |kept|
    requires forall k :: 0 <= k < |ledger| ==> ledger[k] == Entry(TimeOf(fate(k)), Calls(kept)[k])
    ensures Process(Views(ledger)) == Success(Readback(kept, fate))
  {
    var records := Views(ledger);
    forall k | 0 <= k < |records|
      ensures records[k] == StoredRecord(TimeOf(fate(k)), SENSOR_ID, PARAMETERS[k % 7], FormatHundredths(ReadingAt(kept, k)))
    {
      CallContent(kept, k);
    }
    RecordsReadBack(kept, fate, records);
  }

  /** The reader's view of the confirmations of every write of a run over the
      kept rows is processed into the reference rows. */
  lemma ConfirmedRunReadsBack(kept: seq<SensorRow>, fate: nat -> Attempt)
    requires |kept| > 0
    ensures Process(Views(Confirmations(Calls(kept), fate, |Calls(kept)|))) == Success(Readback(kept, fate))
  {
    LedgerReadsBack(kept, fate, Confirmations(Calls(kept), fate, |Calls(kept)|));
  }

  /** The end-to-end scenario: a run of the per-parameter driver from an empty
      ledger in which every write is mined, read back by the reconciliation
      reader, yields exactly the reference rows: one per write, in write order,
      each with the reading it was written from; no value is missing, so nothing
      is imputed. */
  lemma CompletedRunReadsBack(kept: seq<SensorRow>, fate: nat -> Attempt)
    requires |kept| > 0
    requires forall j :: 0 <= j < 7 * |kept| ==> fate(j).Confirmed?
    ensures Process(Views(Expected(true, Calls(kept), fate, []).ledger)) == Success(Readback(kept, fate))
  {
    var calls := Calls(kept);
    assert |calls| == 7 * |kept|;
    CompletedLedger(calls, fate);
    ConfirmedRunReadsBack(kept, fate);
  }
}
