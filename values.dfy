/** Values shared by the backend model: loosely typed record fields and time stamps. */
module Values {
  import opened Wrappers

  /** One entry of a submission's `urls` list: `{"name": <type or None>, "url": <encoded>}`. */
  datatype UrlEntry = UrlEntry(name: Option<string>, url: string)

  /** A field value as the Python code meets it in a record or hit. */
  datatype Value =
    | Null                        // None
    | Bool(b: bool)
    | Int(i: int)
    | Float(f: real)
    | NaN                         // a missing cell of a pandas frame
    | Str(s: string)
    | Strs(items: seq<string>)    // a list of strings
    | Urls(entries: seq<UrlEntry>)

  /** Python's `str(v)` (and `f"{v}"`): a string is itself; other values are shown by `show`. */
  function PyStr(v: Value, show: Value -> string): string {
    if v.Str? then v.s else show(v)
  }

  /** A dict with string keys. */
  type Record = map<string, Value>

  /** A pandas timestamp, in minutes; `NaT` is "not a time". */
  datatype Time = NaT | At(minute: int)

  /** `a <= b` on timestamps: false whenever either side is `NaT`. */
  predicate TimeLe(a: Time, b: Time) {
    a.At? && b.At? && a.minute <= b.minute
  }

  /** `a < b` on timestamps: false whenever either side is `NaT`. */
  predicate TimeLt(a: Time, b: Time) {
    a.At? && b.At? && a.minute < b.minute
  }

  /** The minutes in one day, and pandas' `Timedelta(days=1) - Timedelta(minutes=1)`. */
  const MinutesPerDay: int := 1440
  const DayMinusMinute: int := MinutesPerDay - 1

  /**
   * What the time library does with a value, taken as a parameter:
   * `parse(v)` is `pd.to_datetime(v)` (None when it raises), and
   * `iso(t)` is `Timestamp.isoformat()` of the minute `t`.
   */
  datatype Clock = Clock(parse: Value -> Option<Time>, iso: int -> string)
}
