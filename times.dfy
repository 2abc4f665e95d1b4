/** Instants, the Unix-seconds view used in generated file names, and the calendar date
    written in the "2006/01/02" layout for the dated upload directory. */
module Times {
  import opened Strconv

  /** A point in time, as nanoseconds since the Unix epoch. */
  type Instant = int

  const NanosPerSecond: int := 1_000_000_000

  /** Go's zero `time.Time` (January 1 of year 1, UTC), the value of an unset timestamp. */
  const ZeroTime: Instant := -62135596800 * NanosPerSecond

  /** `t.Unix()`: whole seconds since the epoch, rounded towards the past (the factor is
      `NanosPerSecond`, written out so that the arithmetic stays linear). */
  function Unix(t: Instant): (sec: int)
    ensures sec * 1_000_000_000 <= t < (sec + 1) * 1_000_000_000
  {
    t / 1_000_000_000
  }

  /** The calendar fields of a local date. */
  datatype Date = Date(year: int, month: nat, day: nat)

  predicate ValidDate(d: Date) {
    1 <= d.month <= 12 && 1 <= d.day <= 31
  }

  /** The year as the "2006" layout element writes it: at least four digits, minus sign first. */
  function FormatYear(y: int): string {
    if y < 0 then "-" + Pad(-y, 4) else Pad(y, 4)
  }

  /** `d` formatted with the layout "2006/01/02". */
  function DateFolder(d: Date): string {
    FormatYear(d.year) + "/" + Pad(d.month, 2) + "/" + Pad(d.day, 2)
  }

  /** For the years 0 through 9999 the folder is "YYYY/MM/DD" and each field reads back as
      the date's own. */
  lemma DateFolderRoundTrip(d: Date)
    requires ValidDate(d) && 0 <= d.year <= 9999
    ensures var f := DateFolder(d);
      |f| == 10 && f[4] == '/' && f[7] == '/' &&
      AllDigits(f[..4]) && AllDigits(f[5..7]) && AllDigits(f[8..]) &&
      DigitsValue(f[..4]) == d.year && DigitsValue(f[5..7]) == d.month && DigitsValue(f[8..]) == d.day
  {
    DigitsShort(d.year, 4);
    DigitsShort(d.month, 2);
    DigitsShort(d.day, 2);
    var f := DateFolder(d);
    assert f[..4] == Pad(d.year, 4);
    assert f[5..7] == Pad(d.month, 2);
    assert f[8..] == Pad(d.day, 2);
    PadRoundTrip(d.year, 4);
    PadRoundTrip(d.month, 2);
    PadRoundTrip(d.day, 2);
  }

  /** A number below 10^w has at most w digits. */
  lemma {:induction false} DigitsShort(n: nat, w: nat)
    requires w > 0 && n < Pow10(w)
    ensures |Digits(n)| <= w
    decreases w
  {
    if n >= 10 {
      DigitsShort(n / 10, w - 1);
    }
  }

  function Pow10(w: nat): nat {
    if w == 0 then 1 else 10 * Pow10(w - 1)
  }
}
