/**
  The persisted record of one geospatial anchor (`GeospatialAnchorHistory`) and
  its collection. The creation time is kept as a string, as the source does:
  `DateTime.ToString()` writes it and `Convert.ToDateTime` reads it back. The
  model's format is the decimal count of whole seconds, which has the same
  one-second precision as the general date/time pattern.
 */
module AnchorHistory {
  import opened ArTypes

  const TicksPerSecond: nat := 10_000_000

  predicate IsDigit(c: char) {
    '0' <= c <= '9'
  }

  function DigitChar(d: nat): (c: char)
    requires d < 10
    ensures IsDigit(c)
  {
    ('0' as int + d) as char
  }

  function DigitValue(c: char): (d: nat)
    requires IsDigit(c)
    ensures d < 10
  {
    c as int - '0' as int
  }

  predicate IsDecimal(s: string) {
    |s| > 0 && forall i :: 0 <= i < |s| ==> IsDigit(s[i])
  }

  /** Decimal digits of `n`, most significant first, no leading zeros. */
  function DecimalString(n: nat): (s: string)
    decreases n
  {
    if n < 10 then [DigitChar(n)] else DecimalString(n / 10) + [DigitChar(n % 10)]
  }

  function DecimalValue(s: string): nat
    requires IsDecimal(s)
    decreases |s|
  {
    if |s| == 1 then DigitValue(s[0])
    else 10 * DecimalValue(s[..|s| - 1]) + DigitValue(s[|s| - 1])
  }

  /** Reading the digits back gives the number that was written. */
  lemma {:induction false} DecimalRoundTrip(n: nat)
    ensures IsDecimal(DecimalString(n))
    ensures DecimalValue(DecimalString(n)) == n
    decreases n
  {
    if n >= 10 {
      DecimalRoundTrip(n / 10);
      var s := DecimalString(n);
      assert s == DecimalString(n / 10) + [DigitChar(n % 10)];
      assert s[..|s| - 1] == DecimalString(n / 10);
      assert forall i :: 0 <= i < |s| ==> IsDigit(s[i]) by {
        forall i | 0 <= i < |s| ensures IsDigit(s[i]) {
          if i < |s| - 1 {
            assert s[i] == DecimalString(n / 10)[i];
          }
        }
      }
    }
  }

  /** `DateTime.ToString()`: the time to whole seconds. */
  function FormatTime(t: Ticks): string {
    DecimalString(t / TicksPerSecond)
  }

  /** `Convert.ToDateTime`: `None` where the source would throw a `FormatException`. */
  function ParseTime(s: string): Option<Ticks> {
    if IsDecimal(s) then Some(DecimalValue(s) * TicksPerSecond) else Option.None
  }

  /** The encode/decode round trip: parsing the written time gives it back, to the second. */
  lemma FormatParseRoundTrip(t: Ticks)
    ensures ParseTime(FormatTime(t)) == Some(t - t % TicksPerSecond)
  {
    DecimalRoundTrip(t / TicksPerSecond);
  }

  /** `GeospatialAnchorHistory`. */
  datatype Record = Record(
    serializedTime: string,
    latitude: real,
    longitude: real,
    altitude: real,
    heading: real,
    eunRotation: Quaternion)

  predicate TimeParses(r: Record) {
    ParseTime(r.serializedTime).Some?
  }

  /**
    A record whose `SerializedTime` reads back; the store only ever holds
    records written by the constructors below.
   */
  type StoredRecord = r: Record | TimeParses(r)
    witness Record("0", 0.0, 0.0, 0.0, 0.0, Quaternion(0.0, 0.0, 0.0, 0.0))

  /** `CreatedTime`. */
  function CreatedTime(r: StoredRecord): Ticks {
    ParseTime(r.serializedTime).value
  }

  /** The timestamped constructor: copies the pose, sets `Heading` to 0. */
  function NewRecord(time: Ticks, latitude: real, longitude: real, altitude: real, eunRotation: Quaternion): (r: StoredRecord)
    ensures r.latitude == latitude && r.longitude == longitude && r.altitude == altitude
    ensures r.eunRotation == eunRotation && r.heading == 0.0
  {
    FormatParseRoundTrip(time);
    Record(FormatTime(time), latitude, longitude, altitude, 0.0, eunRotation)
  }

  /** The timestamped record's created time is its time to the second. */
  lemma NewRecordCreatedTime(time: Ticks, latitude: real, longitude: real, altitude: real, eunRotation: Quaternion)
    ensures CreatedTime(NewRecord(time, latitude, longitude, altitude, eunRotation)) == time - time % TicksPerSecond
  {
    FormatParseRoundTrip(time);
  }

  /** The four-argument constructor; `now` is `DateTime.Now`. */
  function NewRecordNow(now: Ticks, latitude: real, longitude: real, altitude: real, eunRotation: Quaternion): (r: StoredRecord)
  {
    NewRecord(now, latitude, longitude, altitude, eunRotation)
  }

  /** The four-argument constructor stamps the current time: its created time lies within the second before `now`. */
  lemma NowConstructorIsTimestamped(now: Ticks, latitude: real, longitude: real, altitude: real, eunRotation: Quaternion)
    ensures var r := NewRecordNow(now, latitude, longitude, altitude, eunRotation);
            CreatedTime(r) <= now && now - CreatedTime(r) < TicksPerSecond
  {
    NewRecordCreatedTime(now, latitude, longitude, altitude, eunRotation);
  }

  /** `GeospatialAnchorHistoryCollection`. */
  datatype HistoryCollection = HistoryCollection(collection: seq<StoredRecord>)

  /** `new GeospatialAnchorHistoryCollection()`. */
  function NewCollection(): (c: HistoryCollection)
    ensures c.collection == []
  {
    HistoryCollection([])
  }
}
