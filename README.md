# BMI calculator — verified model

A model of the BMI calculator script `bmi_calculator.py`. The script computes a
body-mass index from a weight in kilograms and a height in centimetres. It
classifies the result into one of four bands and appends each measurement to a
per-user log. It can then show a user's history ordered by date.

The model has four modules:

- `BmiEngine` (`bmi_engine.dfy`) covers `calculate_bmi` and `get_bmi_category`.
  - It has the centimetre-to-metre conversion, the formula `weight / height_m²`, and
    rounding to two decimals with ties to the even last digit.
  - It has the three-threshold cascade over the bands
    Underweight < Normal < Overweight < Obese.
  - Values are exact reals.
- `TextOrder` (`text_order.dfy`) is the order the table sorts text columns in.
  This is the default BINARY collation: code point by code point, and a proper
  prefix sorts first. It is proved to be a total order.
- `Timestamp` (`timestamp.dfy`) is the `YYYY-MM-DD HH:MM:SS` text written with
  every record. `FormatOrder` proves that, for any two valid clock readings, the
  text order of the formatted strings is exactly their chronological order. This
  is why `ORDER BY date` gives a chronological history.
- `RecordStore` (`record_store.dfy`) covers the `bmi_records` table and the two
  operations on it.
  - The class `Store` holds the rows as a `seq<Record>` that is only ever
    appended to. Row ids are 1, 2, 3, … in insertion order.
  - `Submit` is the data path of `submit_data`. An unparsable weight or height
    leaves the table unchanged. A zero height raises in the formula before the
    insert, so the table is unchanged there too. Otherwise exactly one record is
    appended.
  - `ViewHistory` is the data path of `view_history`. It is the query
    `SELECT date, bmi … WHERE username = ? ORDER BY date`, and an empty result
    means "no records".

`calculate_bmi` does not check the sign of its arguments. The model lets a
negative weight through, and `RawBmiNegative` shows that it gives a negative BMI.
A zero height raises a division error, which the model reports as the
`DivisionByZero` outcome.

## Model

| member | source | states |
|---|---|---|
| BmiEngine.Classify | bmi_calculator.py:26-34 | the returned band is the one whose half-open interval contains the BMI |
| BmiEngine.ExactlyOneBand | bmi_calculator.py:26-34 | every BMI lies in exactly one band, and that band is the one the classifier returns |
| BmiEngine.ClassifyBoundaries | bmi_calculator.py:27-34 | each band includes its lower bound 18.5 / 25 / 30 and excludes its upper one (values just below and at each threshold) |
| BmiEngine.ClassifyMonotone | bmi_calculator.py:26-34 | a larger BMI never falls in a lower band, in the order Underweight < Normal < Overweight < Obese |
| BmiEngine.LabelInjective | bmi_calculator.py:26-34 | the four category texts are pairwise distinct, so the text identifies the band |
| BmiEngine.RoundHalfEven | bmi_calculator.py:24 | the result is the integer nearest to the input, a tie going to the even neighbour |
| BmiEngine.NearestEvenUnique | bmi_calculator.py:24 | nearest-with-ties-to-even determines the rounded integer uniquely |
| BmiEngine.RoundHalfEvenMonotone | bmi_calculator.py:24 | rounding never reverses the order of two values |
| BmiEngine.Round2 | bmi_calculator.py:24 | `round(x, 2)`: the result is a whole number of hundredths, within 0.005 of x, and the nearest such value with ties to even |
| BmiEngine.CalculateBmi | bmi_calculator.py:21-24 | the reported BMI is weight / (height/100)² rounded to hundredths: within 0.005 of the unrounded value, a whole number of hundredths, ties to even; a zero height is excluded because the formula divides by it |
| BmiEngine.RawBmiInCentimetres | bmi_calculator.py:22-23 | converting the height to metres first equals the centimetre formula 10000 · w / h² |
| BmiEngine.RawBmiPositive | bmi_calculator.py:22-23 | a positive weight with a non-zero height gives a positive BMI |
| BmiEngine.RawBmiNegative | bmi_calculator.py:22-23 | a negative weight is not rejected and gives a negative BMI |
| BmiEngine.BmiFromMetresScales | bmi_calculator.py:23 | weight / height_m² is linear in the weight |
| BmiEngine.RawBmiScalesWithWeight | bmi_calculator.py:22-23 | multiplying the weight by k multiplies the unrounded BMI by k |
| BmiEngine.RawBmiDoubles | bmi_calculator.py:22-23 | doubling the weight doubles the unrounded BMI |
| BmiEngine.RawBmiMonotoneInWeight | bmi_calculator.py:22-23 | at a fixed height, a heavier weight never gives a smaller unrounded BMI |
| BmiEngine.CalculateBmiMonotoneInWeight | bmi_calculator.py:21-24 | at a fixed height, a heavier weight never gives a smaller reported (rounded) BMI |
| TextOrder.TextLeqReflexive | bmi_calculator.py:58 | every text sorts at or before itself under the column's text order |
| TextOrder.TextLeqTotal | bmi_calculator.py:58 | any two texts are comparable, so ORDER BY date is defined on every pair |
| TextOrder.TextLeqTransitive | bmi_calculator.py:58 | the text order is transitive |
| TextOrder.TextLeqAntisymmetric | bmi_calculator.py:58 | two texts that each sort at or before the other are equal |
| TextOrder.TextLeqConcat | bmi_calculator.py:58 | for prefixes of equal length, the prefixes decide the order unless they are equal, and then the rest decides |
| Timestamp.DigitChar | bmi_calculator.py:50 | a digit value d is written as the character d places after '0', whose digit value reads back as d |
| Timestamp.Pad2 | bmi_calculator.py:50 | `%m %d %H %M %S` fields are exactly two digit characters that read back as the field's value |
| Timestamp.Pad4 | bmi_calculator.py:50 | the `%Y` field is exactly four digit characters that read back as the year |
| Timestamp.Format | bmi_calculator.py:50 | the stored date has the shape `YYYY-MM-DD HH:MM:SS` (19 characters, the separators `- - space : :` at fixed places, digits elsewhere), and reading its six fields back gives the year, month, day, hour, minute and second of the clock reading |
| Timestamp.FormatInjective | bmi_calculator.py:50 | two clock readings are written as the same text exactly when they are the same reading |
| Timestamp.Pad2Injective | bmi_calculator.py:50 | distinct two-digit fields are written differently |
| Timestamp.SingleCharOrder | bmi_calculator.py:58 | one-character texts compare as their characters |
| Timestamp.Pad2Order | bmi_calculator.py:50 | two-digit fields compare as text exactly as they compare as numbers |
| Timestamp.Pad4Order | bmi_calculator.py:50 | four-digit year fields compare as text exactly as they compare as numbers |
| Timestamp.FieldThen | bmi_calculator.py:50 | a two-digit field followed by more text decides the order unless the fields tie |
| Timestamp.SeparatorThen | bmi_calculator.py:50 | a shared separator in front of both texts does not change their order |
| Timestamp.FormatOrder | bmi_calculator.py:50 | for valid clock readings, the formatted text of a sorts at or before that of b exactly when a is at or before b, so ordering by the date text is chronological |
| RecordStore.SelectByUser | bmi_calculator.py:58 | a (date, bmi) pair is selected exactly when some row with exactly that username carries it; no more rows than the table has |
| RecordStore.InsertByDate | bmi_calculator.py:58 | inserting a point yields the input's points plus that one, as a multiset |
| RecordStore.InsertByDateSorted | bmi_calculator.py:58 | inserting into a date-sorted sequence keeps it sorted by date |
| RecordStore.OrderByDate | bmi_calculator.py:58 | the result is sorted ascending by date and is a permutation of the input |
| RecordStore.HistorySpec | bmi_calculator.py:58-61 | a user's history is sorted by date, holds exactly the (date, bmi) pairs of that user's rows with their multiplicities, and is empty exactly when the user has no row |
| RecordStore.HistoryAfterAppend | bmi_calculator.py:51-58 | appending a row adds exactly its point to its own user's history and leaves every other user's history unchanged |
| RecordStore.HistoryIsCaseSensitive | bmi_calculator.py:58 | a row of "Alice" is in the history of "Alice" and not in that of "alice" |
| RecordStore.Store.constructor | bmi_calculator.py:10-17 | a new table is empty and satisfies the id invariant |
| RecordStore.Store.Submit | bmi_calculator.py:37-53 | an unparsable field or a zero height leaves the table unchanged and reports so; otherwise exactly one row is appended with the next id, the username, the formatted timestamp, the parsed weight and height and the computed BMI, and the BMI is reported with its band; ids stay 1..n |
| RecordStore.Store.ViewHistory | bmi_calculator.py:56-63 | reads without changing the table; the outcome is determined by the table and the username (the query's result, or "no records" when it is empty), so two reads with no append between them agree; "no records" exactly when no row has the username; otherwise a non-empty, date-sorted permutation of exactly that user's (date, bmi) pairs |

## Left out

- The Tkinter window, its widgets, the `messagebox` dialogs and the result label text (bmi_calculator.py:1-2, 43, 48, 62, 79 onwards) are user interface. Only the outcome of each operation is modelled.
- The matplotlib plot (bmi_calculator.py:65-77) only renders the (date, bmi) sequence that `ViewHistory` returns.
- The SQLite connection, cursor, `CREATE TABLE`, `commit` and the SQL engine are foreign code and durable I/O. The table is an in-memory sequence of rows, with the semantics of the INSERT and of the SELECT with WHERE and ORDER BY.
- Parsing text with `float()` (bmi_calculator.py:40-41) is library behaviour. Its result is an `Option<real>` parameter. The special values `nan` and `inf` that it accepts are not modelled.
- `datetime.now()` (bmi_calculator.py:50) is a clock. The reading is a `DateTime` parameter, and its formatting is modelled.
- Timestamp.ValidDateTime: the day of the month is bounded by 31 and not by the length of the month. The order proof does not need the tighter bound.
- Timestamp.Format: writes every year from 1 to 9999 with four digits, zero-padded. Some platforms' `strftime` writes years below 1000 without padding; that behaviour is not modelled.
- BmiEngine.CalculateBmi: works on exact reals, not IEEE-754 doubles. Python's `/`, `** 2` and `round(x, 2)` act on the binary value and can differ in the last digit, for example where a decimal tie is not exactly representable.
- BmiEngine.CalculateBmi: is defined for every non-zero height. In the script, `height_m ** 2` (bmi_calculator.py:23) raises `OverflowError` for heights above about 1.3e156 cm. A non-zero height below about 1.5e-160 cm squares to 0.0 and the division raises `ZeroDivisionError`. Neither failure is modelled.
- RecordStore.OrderByDate: rows with identical date text keep their table order here. The query leaves that order unspecified, so only "sorted by date and a permutation" is stated.
- RecordStore.Store.Submit: a zero height raises an uncaught division error in the script. The model reports it as the `DivisionByZero` outcome with the table unchanged. For heights above about 1.3e156 cm (the square overflows) or non-zero heights below about 1.5e-160 cm (the square underflows to 0.0), the script also raises before the insert and stores nothing. The model appends a row in those cases. Other uncaught failures of the GUI callback are not modelled.
- Concurrent access to the database file by several processes is not modelled.
