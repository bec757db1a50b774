# Smart Environmental Monitoring — submission and reconciliation core

This project models the off-chain core of the Smart Environmental Monitoring
pipeline. Two driver scripts write sensor readings to an on-chain store, and a
reader script fetches the records back and cleans them.

- **Per-parameter driver** (`store_sensor_data.py`).
  - It checks that the configured sender is the contract owner. The addresses are compared after lower-casing.
  - It keeps every third CSV row.
  - It turns each kept row into seven `storeData` writes. Each write carries the device id `ENV_MONITOR_01`, the parameter name, and the reading rendered with two fractional digits.
  - It submits the writes one at a time, in row-major order.
  - A counter grows on each confirmed write.
  - The run stops at the first write that is not confirmed.
- **Single-record driver** (`store_simple_data.py`).
  - It runs the same owner check.
  - It then writes one `storeBatchedData` struct per CSV row, with the same fail-fast loop.
- **Reconciliation reader** (`retrieve_and_process_data.py`).
  - It reads the record count once, then fetches every record by index.
  - It keeps the timestamp, device id, data type and value string of each record.
  - It extracts the first match of `\d+\.?\d*` from the value string as a number.
  - It repairs missing numbers with a two-tier policy:
    - when fewer than a tenth of the rows have no number, the gaps are filled with zero;
    - otherwise they are filled with the median of the numbers present;
    - when no number is present at all, pandas' median is undefined (NaN), so the fill leaves the column as it is. The model does the same rather than excluding that input.
  - An empty ledger makes the reader fail.

The ledger is modelled as an append-only sequence of confirmed writes. The
outcome of each write is an oracle `fate: nat -> Attempt`, indexed by the
attempt's position in the run. An attempt is either confirmed at a block time,
or fails while sending or while waiting for the receipt.

Both drivers share one loop, in module `FailFast`. The loop is a state machine
(`Machine`, `Step`, `Run`) with an invariant `Inv`. It is proved to end exactly
as a reference outcome `Expected` says:
- every call up to and including the first failing one is issued;
- the counter equals the number of confirmed writes;
- the ledger gains exactly their entries, in call order.

Module `EndToEnd` joins the two sides. When every write of a per-parameter run
is confirmed, the reader returns one row per write, in write order. Each row
carries the write's block time, parameter `k % 7` and the number the reading
renders to; no value is imputed. A negative reading reads back as its magnitude,
because the pattern skips the minus sign (`EndToEnd.FormattedValueReadsBack`).

The reader fetches through `getTotalRecords` / `getRecord` and declares
`getRecord` with four outputs: timestamp, device id, data type and value. The
per-parameter driver's contract answers the same call with a fifth output, the
unit. The single-record driver writes to a separate batched store
(`storeBatchedData`), which the reader never reads. In the repository the reader
is configured with a different contract address from the per-parameter driver.
`EndToEnd` therefore rests on an assumption: the reader reads the store the
per-parameter driver writes, and takes the first four fields of each record.
The end-to-end property is stated for the per-parameter driver only, for a run
that starts from an empty store and keeps at least one row.

Modules: `Base` (Option, Result), `Text` (ASCII digits, decimal rendering,
lower-casing), `Ownership`, `Ledger`, `FailFast`, `FormatValue`, `SensorDriver`,
`SimpleDriver`, `Extraction`, `Statistics` (insertion sort and median),
`Imputation`, `Reconciliation`, `EndToEnd`.

## Model

| member | source | states |
|---|---|---|
| `Text.Lower` | smart_contract/store_sensor_data.py:276 | lower-casing keeps the length and maps each character independently: upper-case ASCII letters move to their lower-case form, every other character is kept |
| `Text.NatDigitsRoundTrip` | smart_contract/store_sensor_data.py:297 | the decimal digits written for a natural number read back as that number |
| `Ownership.SameLetterIff` | smart_contract/store_sensor_data.py:276 | two characters lower-case to the same character exactly when they are equal or are the two cases of one letter |
| `Ownership.SameAddressIff` | smart_contract/store_sensor_data.py:276-279 | the owner check accepts exactly the addresses of the owner's length that differ from it only in the case of letters |
| `Ownership.ChecksumCaseIgnored` | smart_contract/store_simple_data.py:269-272 | a mixed-case rendering of the owner's address is accepted against its lower-case rendering, and an address differing in one character is rejected |
| `Ledger.Submit` | smart_contract/store_sensor_data.py:299-314 | a send reports success exactly when the write is confirmed; the earlier ledger is kept as a prefix; exactly one entry, the call stamped with its block time, is appended on success and nothing otherwise |
| `FailFast.FirstFailure` | smart_contract/store_sensor_data.py:334-341 | the position where the loop stops: all earlier attempts are confirmed, and the attempt there is not (or no attempt fails) |
| `FailFast.Confirmations` | smart_contract/store_sensor_data.py:305-310 | the entries the first k confirmed calls leave: entry j is call j stamped with attempt j's block time |
| `FailFast.Expected` | smart_contract/store_sensor_data.py:316-342 | the reference outcome of a run: nothing is written when the owner check fails; the run completes exactly when every attempt is confirmed; a failed run issued one call more than it stored and that call failed; the counter never exceeds the issued calls; the ledger keeps its old entries and gains exactly the confirmed calls' entries, in call order |
| `FailFast.ExpectedFailedAt` | smart_contract/store_sensor_data.py:339-341 | a run whose first k attempts are confirmed and whose attempt k fails stops after issuing k+1 calls, with counter k and k new entries |
| `FailFast.ExpectedCompleted` | smart_contract/store_sensor_data.py:334-342 | a run whose every attempt is confirmed issues all calls, counts all of them and writes all of them |
| `FailFast.CompletedLedger` | smart_contract/store_sensor_data.py:334-342 | a run from an empty ledger whose every attempt is confirmed leaves exactly the confirmations of all calls: entry k is call k stamped with attempt k's block time |
| `FailFast.StepKeepsInv` | smart_contract/store_sensor_data.py:334-341 | the loop invariant holds at the start and after each iteration: the counter is at most the number of issued calls, which is at most the number of planned calls, and the ledger holds exactly the confirmed calls; the counter grows by at most one per iteration; a halted run issues nothing further |
| `FailFast.HaltedMeetsExpected` | smart_contract/store_sensor_data.py:339-341 | a loop that halted on a failed write has produced the reference failed run: its counter, issued calls and ledger |
| `FailFast.FinishedMeetsExpected` | smart_contract/store_sensor_data.py:322-342 | a loop that issued every call without halting has produced the reference completed run |
| `FailFast.Run` | smart_contract/store_sensor_data.py:322-342 | the loop ends either halted or having issued every call |
| `FailFast.RunMeetsExpected` | smart_contract/store_sensor_data.py:316-342 | run from any reachable state, the loop ends with the reference counter, halts exactly when the reference run fails, and has issued the reference calls and written the reference ledger |
| `FailFast.SubmitAll` | smart_contract/store_simple_data.py:309-330 | the flat fail-fast loop over the calls returns the reference outcome |
| `FormatValue.FormatHundredths` | smart_contract/store_sensor_data.py:295-297 | the rendering has digits, a point and exactly two fractional digits, and starts with a minus sign exactly when the reading is negative |
| `FormatValue.FormatRoundTrip` | smart_contract/store_sensor_data.py:295-297 | parsing the rendering back yields the reading in hundredths: no digit and no sign is lost |
| `SensorDriver.EveryThird` | smart_contract/store_sensor_data.py:290 | kept row i is row 3i, in order, and there are ceil(n/3) kept rows, as many as the positions 0, 3, 6, ... below n |
| `SensorDriver.EveryThirdKeeps` | smart_contract/store_sensor_data.py:290 | every row at a position divisible by three is kept, as kept row j / 3 |
| `SensorDriver.Expand` | smart_contract/store_sensor_data.py:324-332 | a kept row yields seven writes |
| `SensorDriver.ExpandFields` | smart_contract/store_sensor_data.py:318-335 | write p of a row carries the device id ENV_MONITOR_01, the p-th parameter name (CO2, PM2.5, Temperature, Humidity, SoilMoisture, WaterPH, WaterTurbidity) and the matching CSV column rendered with two decimals |
| `SensorDriver.RowMajor` | smart_contract/store_sensor_data.py:322-335 | row-by-row expansion yields seven writes per row |
| `SensorDriver.RowMajorAt` | smart_contract/store_sensor_data.py:322-335 | write k of a row-by-row expansion is write k % 7 of row k / 7 |
| `SensorDriver.Calls` | smart_contract/store_sensor_data.py:319 | a run plans seven writes per kept row |
| `SensorDriver.CallAt` | smart_contract/store_sensor_data.py:322-335 | write k of a run is write k % 7 of kept row k / 7 |
| `SensorDriver.CallContent` | smart_contract/store_sensor_data.py:318-335 | write k of a run carries the device id ENV_MONITOR_01, parameter k % 7 of the fixed order and the rendering of reading k % 7 of kept row k / 7 |
| `SensorDriver.StoreSensorData` | smart_contract/store_sensor_data.py:275-342 | the script's outcome is the reference outcome over the down-sampled rows' writes, guarded by the owner check; a run past the check plans seven writes per kept row |
| `SensorDriver.SubmitRows` | smart_contract/store_sensor_data.py:322-342 | the nested row and parameter loops return the reference outcome of the flat call sequence |
| `SensorDriver.SubmitRow` | smart_contract/store_sensor_data.py:334-342 | one row's inner loop keeps the loop invariant, either halts or advances by exactly seven writes, and raises the counter by at most seven |
| `SimpleDriver.Calls` | smart_contract/store_simple_data.py:313-322 | one write per row, in row order, each carrying the row's sensor id, data type, string-converted value and unit, in struct field order |
| `SimpleDriver.StoreSimpleData` | smart_contract/store_simple_data.py:268-330 | the script's outcome is the reference outcome over the rows' writes, guarded by the owner check; a run past the check plans one write per row |
| `Extraction.FirstDigit` | smart_contract/retrieve_and_process_data.py:203 | the first digit position at or after i, skipping only non-digits |
| `Extraction.DigitRun` | smart_contract/retrieve_and_process_data.py:203 | the greedy `\d+` run: digits up to the first non-digit |
| `Extraction.Match` | smart_contract/retrieve_and_process_data.py:203 | there is no match exactly when the value has no digit; a match is a non-empty span the pattern matches in full |
| `Extraction.MatchIsLeftmostLongest` | smart_contract/retrieve_and_process_data.py:203 | no match of the pattern starts earlier, and none from the same start is longer |
| `Extraction.TokenValueOfParts` | smart_contract/retrieve_and_process_data.py:203 | digits, a point and digits form a token, and denote the whole part plus the fraction part scaled by its number of digits |
| `Extraction.ExtractNumber` | smart_contract/retrieve_and_process_data.py:203 | the extracted number is missing exactly when the value has no digit, and is never negative |
| `Extraction.MatchWhole` | smart_contract/retrieve_and_process_data.py:203 | after digit-free text, a run of digits followed by the end or by a character that is neither a digit nor a point is the match |
| `Extraction.MatchFraction` | smart_contract/retrieve_and_process_data.py:203 | after digit-free text, digits, a point and digits followed by the end or a non-digit form the match |
| `Extraction.MatchFractionAfter` | smart_contract/retrieve_and_process_data.py:203 | in a value built as text, digits, a point, digits and a tail that does not start with a digit, the match spans the digits, the point and the second digits |
| `Extraction.TokenValueWhole` | smart_contract/retrieve_and_process_data.py:203 | digits without a point form a token and denote the number the digits denote |
| `Extraction.ExtractWhole` | smart_contract/retrieve_and_process_data.py:203 | digit-free text, digits, then nothing or text starting with neither a digit nor a point, reads as the number the digits denote |
| `Extraction.ExtractFraction` | smart_contract/retrieve_and_process_data.py:203 | digit-free text, digits, a point, digits, then nothing or text not starting with a digit, reads as the whole digits plus the fraction digits scaled by their count |
| `Extraction.ExtractWithUnit` | smart_contract/retrieve_and_process_data.py:203 | "12 ppm" reads as 12: the match ends at the first character the pattern cannot take |
| `Extraction.ExtractNoDigit` | smart_contract/retrieve_and_process_data.py:203 | "n/a" reads as missing |
| `Statistics.Insert` | smart_contract/retrieve_and_process_data.py:211 | insertion into a sorted sequence keeps it sorted and adds one element |
| `Statistics.Sort` | smart_contract/retrieve_and_process_data.py:211 | the sort's result is sorted and as long as its input |
| `Statistics.InsertPermutes` | smart_contract/retrieve_and_process_data.py:211 | insertion adds exactly the inserted value to the multiset of values |
| `Statistics.SortPermutes` | smart_contract/retrieve_and_process_data.py:211 | the sort is a permutation of its input |
| `Statistics.SortOfSorted` | smart_contract/retrieve_and_process_data.py:211 | sorting sorted values leaves them unchanged |
| `Statistics.SortCount` | smart_contract/retrieve_and_process_data.py:211 | sorting keeps the number of values on either side of any pivot |
| `Statistics.MedianSplits` | smart_contract/retrieve_and_process_data.py:211 | at least half of the values are at most the median and at least half are at least the median |
| `Statistics.MedianOfThree` | smart_contract/retrieve_and_process_data.py:211 | the median of an odd count of values is the middle value in sorted order |
| `Statistics.MedianOfTwo` | smart_contract/retrieve_and_process_data.py:211 | the median of an even count of values is the mean of the two middle values, whatever their order |
| `Imputation.MissingCount` | smart_contract/retrieve_and_process_data.py:206 | the missing count never exceeds the column length |
| `Imputation.Present` | smart_contract/retrieve_and_process_data.py:211 | the present values and the missing cells together account for the whole column |
| `Imputation.MissingCountIsNoneCount` | smart_contract/retrieve_and_process_data.py:206 | the missing count is exactly the number of missing cells |
| `Imputation.PresentIsSomeCount` | smart_contract/retrieve_and_process_data.py:211 | every value occurs among the present values exactly as often as the column holds it |
| `Imputation.MissingCountZeroIff` | smart_contract/retrieve_and_process_data.py:206 | the missing count is zero exactly when every cell holds a value |
| `Imputation.PresentNonEmptyIff` | smart_contract/retrieve_and_process_data.py:211 | some value is present exactly when some cell holds a value |
| `Imputation.FillWith` | smart_contract/retrieve_and_process_data.py:207 | `fillna(v)` keeps every present cell and leaves no cell missing, so every cell of the result is a present value |
| `Imputation.FillWithPresent` | smart_contract/retrieve_and_process_data.py:207 | filling adds to the present values one v per missing cell and nothing else |
| `Imputation.Impute` | smart_contract/retrieve_and_process_data.py:205-211 | present cells are kept; with fewer than a tenth of the cells missing, each gap becomes 0; otherwise each gap becomes the median of the present values; a column with no value present is left as it is |
| `Imputation.ImputeCompleteUnchanged` | smart_contract/retrieve_and_process_data.py:205-211 | a column with no gap is returned unchanged |
| `Imputation.ImputeFillsEveryGap` | smart_contract/retrieve_and_process_data.py:205-211 | when at least one value is present, no gap is left |
| `Imputation.ImputeIdempotent` | smart_contract/retrieve_and_process_data.py:205-211 | repairing a repaired column changes nothing |
| `Imputation.PresentOfExample` | smart_contract/retrieve_and_process_data.py:211 | the present values of [10, 20, -, 40] are [10, 20, 40], in order |
| `Imputation.MedianFillExample` | smart_contract/retrieve_and_process_data.py:205-211 | a quarter of the cells missing selects the median fill: [10, 20, -, 40] becomes [10, 20, 20, 40] |
| `Reconciliation.FetchAll` | smart_contract/retrieve_and_process_data.py:184-196 | the records are queried at indices 0, 1, ..., total-1, in that order, and come back exactly as stored |
| `Reconciliation.Extracted` | smart_contract/retrieve_and_process_data.py:203 | the numeric column has one cell per record, and no cell is missing exactly when every record's value string holds a digit |
| `Reconciliation.Process` | smart_contract/retrieve_and_process_data.py:199-211 | processing fails exactly on an empty ledger; otherwise there is one row per record, with the record's four fields; an extracted number is kept; a missing one becomes 0 below the threshold and the median of the extracted numbers above it |
| `Reconciliation.RetrieveAndProcess` | smart_contract/retrieve_and_process_data.py:182-216 | the reader queries every index in order and returns the processing of the stored records |
| `Reconciliation.ProcessCompleteLedger` | smart_contract/retrieve_and_process_data.py:203-211 | when every value holds a digit, processing succeeds, every row holds its record's extracted number, and the repair step changes nothing |
| `Reconciliation.ProcessReadsBack` | smart_contract/retrieve_and_process_data.py:190-211 | when every value reads as a number, processing returns exactly the rows that pair each record's four fields with its extracted number |
| `EndToEnd.HundredthsDecimal` | smart_contract/retrieve_and_process_data.py:203 | the whole and fraction digits of a reading in hundredths denote the reading |
| `EndToEnd.FormattedValueReadsBack` | smart_contract/retrieve_and_process_data.py:203 | a value the per-parameter driver writes reads back as the reading's magnitude: the digits survive and a minus sign is dropped by the pattern |
| `EndToEnd.ScenarioValues` | smart_contract/retrieve_and_process_data.py:203 | readings 400, 22.46, 7.1 and -3.5 are written as "400.00", "22.46", "7.10" and "-3.50" and read back as 400, 22.46, 7.1 and 3.5 (the minus sign is skipped) |
| `EndToEnd.ViewsAppend` | smart_contract/retrieve_and_process_data.py:184-196 | the reader's view of a ledger that grew by appending is its view of the old ledger followed by its view of the new entries |
| `EndToEnd.RunAppendsViews` | smart_contract/retrieve_and_process_data.py:184-196 | after a run, the reader sees the records that were already stored, unchanged and first, then one record per confirmed write, in write order |
| `EndToEnd.Readback` | smart_contract/retrieve_and_process_data.py:184-211 | the reference for reading back a completed run has one row per write |
| `EndToEnd.ReadbackRow` | smart_contract/retrieve_and_process_data.py:203 | the record written for write k reads as a number, and processing it gives row k of the reference |
| `EndToEnd.RecordsReadBack` | smart_contract/retrieve_and_process_data.py:199-211 | records laid out as a completed run lays them out are processed into exactly the reference rows |
| `EndToEnd.LedgerReadsBack` | smart_contract/retrieve_and_process_data.py:184-211 | a ledger holding write k of a run stamped with attempt k's block time at each position k is read back as exactly the reference rows |
| `EndToEnd.ConfirmedRunReadsBack` | smart_contract/retrieve_and_process_data.py:184-211 | the confirmations of every write of a run over at least one kept row are read back as exactly the reference rows |
| `EndToEnd.CompletedRunReadsBack` | smart_contract/retrieve_and_process_data.py:182-211 | a per-parameter run from an empty store over at least one kept row, with every write confirmed, read back, yields exactly the reference rows. There is one row per write, in write order, with the write's block time, device id, parameter and rendered value, and the magnitude of the reading it was written from. No value is imputed. |

## Left out

- The web3 plumbing is not modelled: connecting, loading the ABI, gas settings and the contract's own code. The contract is seen only through the ledger of confirmed writes and the `fate` oracle.
- The `MAX_ENTRIES` call and the contract's `validParameters` table are left out. The drivers read the first without acting on it and never consult the second.
- The progress and result printing is not modelled. This includes the closing `getTotalRecords` / `getLatestRecord` / `getLatestBatchedRecord` display of both drivers.
- The one-second `time.sleep` between writes is left out, because timing does not affect what is written.
- Reading and writing CSV files is not modelled. The drivers take their rows as parameters, and the reader's `to_csv` output is the returned rows.
- An exception raised outside a send (reading the owner, reading the CSV) ends a driver through its outer handler. It is not modelled, because those calls are foreign.
- `Ledger.Submit` counts a write as successful exactly when it is stored. The source counts any write whose receipt arrives, and a reverted transaction still yields a receipt, with status 0. Such a write raises the counter without changing the store; the model has no attempt kind for it.
- A `ReceiptFailed` attempt is modelled as not written. A transaction whose receipt wait raised may still have been mined, and that cannot be known from the driver.
- `FormatValue.FormatHundredths` takes readings already in hundredths. The float parsing and round-half-even rounding of `f"{float(value):.2f}"` (22.456 to "22.46") is floating point. A CSV value that `float` rejects (which the driver counts as a failed write) is also not modelled.
- `FormatValue.FormatHundredths` has no rendering for a missing CSV cell. The source renders an empty cell, which pandas reads as NaN, as "nan"; the write succeeds, and the reader extracts no number from it and imputes one.
- The reader's `pd.to_datetime` conversion of the timestamp column is left out. The block time is kept as the number of seconds.
- `Text.Lower` and `Text.IsDigit` are ASCII only, while Python's `str.lower` and the pattern's `\d` also treat non-ASCII letters and digits. The addresses and rendered numbers are ASCII.
- `Imputation.FewMissing` uses the exact threshold `10 * missing < rows`, while the source compares with the float product `rows * 0.1`. That product can round to just above a tenth of the rows (30 * 0.1 is 3.0000000000000004), so for 30 rows the source also accepts 3 missing cells where the model does not.
- `Imputation.Impute` models the intended effect of the median fill. The source writes it as `df[col].fillna(..., inplace=True)` on a column selection, which under pandas copy-on-write does not write back to the frame.
- The missing-value count covers only the numeric column. The other columns come from the contract as integers and strings and are never null.
- `storeData` takes no unit; the per-parameter contract fills one in itself, which is not part of this model. The reader's ABI does not declare the unit, and the model's entries carry none.
- `EndToEnd.CompletedRunReadsBack` assumes the reader reads the store the per-parameter driver writes. In the repository the reader names another contract address (retrieve_and_process_data.py:9, against store_sensor_data.py:16). It also declares a four-output `getRecord` (retrieve_and_process_data.py:112-135), while the driver's contract answers five (store_sensor_data.py:171-200). How the reader's ABI decodes a five-field answer is foreign behaviour and is not modelled.
- `EndToEnd.CompletedRunReadsBack` starts from an empty store and needs at least one kept row. With no kept row the store stays empty and the reader fails, as `Reconciliation.Process` states. For a store that already held records, `EndToEnd.RunAppendsViews` states that the run's records follow the old ones, but what processing makes of the old records is not stated.
- The demo, generator and deployment scripts of the repository are not part of this model.
