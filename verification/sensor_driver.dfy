/** The per-parameter submission driver: every third CSV row is kept, and each
    kept row becomes seven `storeData` writes, issued row by row and parameter by
    parameter, stopping at the first write that is not confirmed. */
module SensorDriver {
  import opened Ledger
  import opened FailFast
  import opened Ownership
  import opened FormatValue

  /** The device id every write of this driver carries. */
  const SENSOR_ID: string := "ENV_MONITOR_01"

  /** The parameter names, in the order each row's writes are issued. */
  const PARAMETERS: seq<string> :=
    ["CO2", "PM2.5", "Temperature", "Humidity", "SoilMoisture", "WaterPH", "WaterTurbidity"]

  /** One CSV row: the seven readings it contributes, as fixed-point hundredths. */
  datatype SensorRow = SensorRow(
    co2: int, pm25: int, temperature: int, humidity: int,
    soilMoisture: int, waterPh: int, waterTurbidity: int)

  /** The arguments of one `storeData` call. */
  datatype StoreData = StoreData(sensorId: string, parameterType: string, value: string)

  /** A row's readings, in parameter order. */
  function Readings(row: SensorRow): seq<int> {
    [row.co2, row.pm25, row.temperature, row.humidity, row.soilMoisture, row.waterPh, row.waterTurbidity]
  }

  /** The down-sampling `iloc[::3]`: kept row i is row 3 * i, and there are as many
      kept rows as positions 0, 3, 6, ... below the row count. */
  function EveryThird<T>(rows: seq<T>): (kept: seq<T>)
    ensures |kept| == (|rows| + 2) / 3
    ensures forall i :: 0 <= i < |kept| ==> kept[i] == rows[3 * i]
    decreases |rows|
  {
    if |rows| == 0 then []
    else [rows[0]] + EveryThird(rows[if |rows| < 3 then |rows| else 3..])
  }

  /** Every row at a position divisible by three is kept, as kept row j / 3. */
  lemma EveryThirdKeeps<T>(rows: seq<T>, j: nat)
    requires j < |rows| && j % 3 == 0
    ensures j / 3 < |EveryThird(rows)| && EveryThird(rows)[j / 3] == rows[j]
  {
    var i := j / 3;
    assert 3 * i == j;
  }

  /** The seven writes one kept row expands to: write p carries the driver's device
      id, parameter p and the row's p-th reading, rendered. */
  function Expand(row: SensorRow): (calls: seq<StoreData>)
    ensures |calls| == 7
  {
    seq(7, p requires 0 <= p < 7 => StoreData(SENSOR_ID, PARAMETERS[p], FormatHundredths(Readings(row)[p])))
  }

  /** Each write carries the driver's device id, the parameter's name, and the
      reading of the matching CSV column rendered with two fractional digits. */
  lemma ExpandFields(row: SensorRow)
    ensures Expand(row)[0] == StoreData(SENSOR_ID, "CO2", FormatHundredths(row.co2))
    ensures Expand(row)[1] == StoreData(SENSOR_ID, "PM2.5", FormatHundredths(row.pm25))
    ensures Expand(row)[2] == StoreData(SENSOR_ID, "Temperature", FormatHundredths(row.temperature))
    ensures Expand(row)[3] == StoreData(SENSOR_ID, "Humidity", FormatHundredths(row.humidity))
    ensures Expand(row)[4] == StoreData(SENSOR_ID, "SoilMoisture", FormatHundredths(row.soilMoisture))
    ensures Expand(row)[5] == StoreData(SENSOR_ID, "WaterPH", FormatHundredths(row.waterPh))
    ensures Expand(row)[6] == StoreData(SENSOR_ID, "WaterTurbidity", FormatHundredths(row.waterTurbidity))
  {
    var e, rs := Expand(row), Readings(row);
    assert e[0] == StoreData(SENSOR_ID, PARAMETERS[0], FormatHundredths(rs[0]));
    assert e[1] == StoreData(SENSOR_ID, PARAMETERS[1], FormatHundredths(rs[1]));
    assert e[2] == StoreData(SENSOR_ID, PARAMETERS[2], FormatHundredths(rs[2]));
    assert e[3] == StoreData(SENSOR_ID, PARAMETERS[3], FormatHundredths(rs[3]));
    assert e[4] == StoreData(SENSOR_ID, PARAMETERS[4], FormatHundredths(rs[4]));
    assert e[5] == StoreData(SENSOR_ID, PARAMETERS[5], FormatHundredths(rs[5]));
    assert e[6] == StoreData(SENSOR_ID, PARAMETERS[6], FormatHundredths(rs[6]));
  }

  /** Concatenation of seven-element groups, one per row, in row order. */
  function RowMajor<R(!new), C>(rows: seq<R>, expand: R -> seq<C>): (flat: seq<C>)
    requires forall r :: |expand(r)| == 7
    ensures |flat| == 7 * |rows|
  {
    if |rows| == 0 then [] else expand(rows[0]) + RowMajor(rows[1..], expand)
  }

  lemma ShiftIndex(k: nat)
    requires k >= 7
    ensures (k - 7) / 7 == k / 7 - 1 && (k - 7) % 7 == k % 7
  {
  }

  /** Element k of the concatenation is element k % 7 of row k / 7's group. */
  lemma {:induction false} RowMajorAt<R(!new), C>(rows: seq<R>, expand: R -> seq<C>, k: nat)
    requires forall r :: |expand(r)| == 7
    requires k < 7 * |rows|
    ensures RowMajor(rows, expand)[k] == expand(rows[k / 7])[k % 7]
  {
    if k >= 7 {
      ShiftIndex(k);
      RowMajorAt(rows[1..], expand, k - 7);
      assert RowMajor(rows, expand)[k] == RowMajor(rows[1..], expand)[k - 7];
    }
  }

  /** All writes of a run, kept row after kept row. */
  function Calls(kept: seq<SensorRow>): (calls: seq<StoreData>)
    ensures |calls| == 7 * |kept|
  {
    RowMajor(kept, Expand)
  }

  /** The writes are issued row-major: write k carries parameter k % 7 of kept row k / 7. */
  lemma CallAt(kept: seq<SensorRow>, k: nat)
    requires k < 7 * |kept|
    ensures Calls(kept)[k] == Expand(kept[k / 7])[k % 7]
  {
    RowMajorAt(kept, Expand, k);
  }

  /** The reading behind write k of a run over the kept rows. */
  function ReadingAt(kept: seq<SensorRow>, k: nat): int
    requires k < 7 * |kept|
  {
    Readings(kept[k / 7])[k % 7]
  }

  /** Write k of a run carries the device id, parameter k % 7 and the rendered
      reading behind it. */
  lemma CallContent(kept: seq<SensorRow>, k: nat)
    requires k < 7 * |kept|
    ensures Calls(kept)[k] == StoreData(SENSOR_ID, PARAMETERS[k % 7], FormatHundredths(ReadingAt(kept, k)))
  {
    CallAt(kept, k);
  }

  /** The driver script: the owner check, then the down-sampling and the
      submission loop. */
  method StoreSensorData(
    contractOwner: string, configured: string, rows: seq<SensorRow>,
    fate: nat -> Attempt, ledger0: seq<Entry<StoreData>>)
    returns (r: Report<StoreData>)
    ensures r == Expected(SameAddress(contractOwner, configured), Calls(EveryThird(rows)), fate, ledger0)
    ensures r.exit != OwnerRejected ==> r.total == 7 * ((|rows| + 2) / 3)
  {
    if !SameAddress(contractOwner, configured) {
      return Report(OwnerRejected, 0, 0, [], ledger0);
    }
    var kept := EveryThird(rows);
    r := SubmitRows(kept, fate, ledger0);
  }

  /** The outer loop over kept rows; the run stops as soon as a row's writes halt it. */
  method SubmitRows(kept: seq<SensorRow>, fate: nat -> Attempt, ledger0: seq<Entry<StoreData>>)
    returns (r: Report<StoreData>)
    ensures r == Expected(true, Calls(kept), fate, ledger0)
  {
    var calls := Calls(kept);
    var m := Start(ledger0);
    StepKeepsInv(calls, fate, ledger0, m);
    var row := 0;
    while row < |kept|
      invariant row <= |kept|
      invariant Inv(calls, fate, ledger0, m) && !m.halted
      invariant m.next == 7 * row
    {
      m := SubmitRow(kept, row, fate, ledger0, m);
      if m.halted {
        HaltedMeetsExpected(calls, fate, ledger0, m);
        return Report(SubmissionFailed, |calls|, m.stored, calls[..m.next], m.ledger);
      }
      row := row + 1;
    }
    FinishedMeetsExpected(calls, fate, ledger0, m);
    return Report(Completed, |calls|, m.stored, calls, m.ledger);
  }

  /** The inner loop over one kept row's seven parameters, in order: each write is
      submitted in turn, and the first failure halts the machine. */
  method SubmitRow(
    kept: seq<SensorRow>, row: nat, fate: nat -> Attempt, ledger0: seq<Entry<StoreData>>,
    m0: Machine<StoreData>)
    returns (m: Machine<StoreData>)
    requires row < |kept|
    requires Inv(Calls(kept), fate, ledger0, m0) && !m0.halted && m0.next == 7 * row
    ensures Inv(Calls(kept), fate, ledger0, m)
    ensures m.halted || m.next == 7 * (row + 1)
    ensures m0.stored <= m.stored <= m0.stored + 7
  {
    var calls := Calls(kept);
    m := m0;
    var p := 0;
    while p < 7
      invariant p <= 7
      invariant Inv(calls, fate, ledger0, m)
      invariant !m.halted && m.next == 7 * row + p
      invariant m.stored == m0.stored + p
    {
      StepKeepsInv(calls, fate, ledger0, m);
      m := Step(calls, fate, m);
      if m.halted {
        return;
      }
      p := p + 1;
    }
  }
}
