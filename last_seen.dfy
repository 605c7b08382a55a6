/** The "last seen" text shown beside each household member's location:
    a millisecond timestamp bucketed into minutes, hours or days before
    the current clock reading. */
module LastSeen {
  import opened Strings
  import opened Types

  const MinuteMillis := 60000
  const HourMillis := 60 * MinuteMillis
  const DayMillis := 24 * HourMillis

  /** `formatLastSeen(ts)` with `Date.now()` passed in as `now`. A missing
      timestamp and the timestamp 0 are both falsy and read "unknown".
      JavaScript's `Math.floor(x / d)` for a positive `d` is Dafny's `x / d`
      (Euclidean division rounds toward minus infinity when `d > 0`). */
  function FormatLastSeen(ts: Option<int>, now: int): (text: string)
    ensures text == "unknown" <==> (ts.None? || ts.value == 0)
    ensures text == "just now" <==> (ts.Some? && ts.value != 0 && now - ts.value < MinuteMillis)
  {
    if ts.None? || ts.value == 0 then "unknown"
    else
      var mins := (now - ts.value) / 60000;
      if mins < 1 then "just now"
      else if mins == 1 then "1 min ago"
      else if mins < 60 then Decimal(mins) + " mins ago"
      else
        var hrs := mins / 60;
        if hrs == 1 then "1 hr ago"
        else if hrs < 24 then Decimal(hrs) + " hrs ago"
        else
          var days := hrs / 24;
          if days == 1 then "1 day ago" else Decimal(days) + " days ago"
  }

  /** How a count of `unit`s is shown: the number in decimal, then the unit,
      with the plural "s" exactly when the number is not 1. */
  function Ago(n: nat, unit: string): string
  {
    Decimal(n) + AgoSuffix(n, unit)
  }

  function AgoSuffix(n: nat, unit: string): string
  {
    " " + unit + (if n == 1 then "" else "s") + " ago"
  }

  lemma MulNonneg(a: int, b: int)
    requires a >= 0 && b >= 0
    ensures a * b >= 0
  {
  }

  /** Division uniqueness: a quotient and remainder in range are the ones
      `/` computes. */
  lemma DivUnique(x: int, d: int, q: int, r: int)
    requires d > 0 && x == d * q + r && 0 <= r < d
    ensures x / d == q
  {
    var q' := x / d;
    var r' := x % d;
    assert x == d * q' + r';
    assert d * (q - q') == r' - r;
    if q > q' {
      MulNonneg(d, q - q' - 1);
      assert false;
    } else if q < q' {
      MulNonneg(d, q' - q - 1);
      assert false;
    }
  }

  lemma MulDistributes(a: int, b: int, q: int, r: int)
    ensures a * (b * q + r) == (a * b) * q + a * r
  {
  }

  lemma MulBelow(a: int, r: int, b: int)
    requires a > 0 && 0 <= r < b
    ensures 0 <= a * r <= a * b - a
  {
    MulNonneg(a, r);
    MulNonneg(a, b - 1 - r);
    MulDistributes(a, 1, b - 1 - r, r);
  }

  /** floor(floor(x / a) / b) == floor(x / (a * b)) for positive a and b. */
  lemma DivDiv(x: int, a: int, b: int)
    requires a > 0 && b > 0
    ensures (x / a) / b == x / (a * b)
  {
    var q, r := x / a, x % a;
    var q2, r2 := q / b, q % b;
    assert x == a * q + r;
    assert q == b * q2 + r2;
    MulDistributes(a, b, q2, r2);
    assert x == (a * b) * q2 + (a * r2 + r);
    MulBelow(a, r2, b);
    MulNonneg(a, b);
    DivUnique(x, a * b, q2, a * r2 + r);
  }

  /** Bounds on a quotient from bounds on the dividend. */
  lemma DivBounds(x: int, d: int, lo: int, hi: int)
    requires d > 0 && lo * d <= x < hi * d
    ensures lo <= x / d < hi
  {
    var q := x / d;
    assert x == d * q + x % d;
    if q < lo {
      MulNonneg(d, lo - q - 1);
      assert false;
    } else if q >= hi {
      MulNonneg(d, q - hi);
      assert false;
    }
  }

  /** How `Ago` spells a unit: `one` for a count of 1, otherwise the digits
      followed by `many`. */
  lemma AgoSpelled(n: nat, unit: string, one: string, many: string)
    requires one == "1 " + unit + " ago" && many == " " + unit + "s ago"
    ensures Ago(n, unit) == if n == 1 then one else Decimal(n) + many
  {
    if n == 1 {
      assert Decimal(1) == "1";
    } else {
      assert AgoSuffix(n, unit) == many;
    }
  }

  /** The text `FormatLastSeen` picks once the minute count is known. */
  lemma MinutesBranch(ts: int, now: int, mins: int)
    requires ts != 0 && mins == (now - ts) / 60000 && 1 <= mins < 60
    ensures FormatLastSeen(Some(ts), now) == if mins == 1 then "1 min ago" else Decimal(mins) + " mins ago"
  {
  }

  /** The text `FormatLastSeen` picks once the hour count is known. */
  lemma HoursBranch(ts: int, now: int, mins: int, hrs: int)
    requires ts != 0 && mins == (now - ts) / 60000 && 60 <= mins && hrs == mins / 60 && 1 <= hrs < 24
    ensures FormatLastSeen(Some(ts), now) == if hrs == 1 then "1 hr ago" else Decimal(hrs) + " hrs ago"
  {
  }

  /** The text `FormatLastSeen` picks once the day count is known. */
  lemma DaysBranch(ts: int, now: int, mins: int, hrs: int, days: int)
    requires ts != 0 && mins == (now - ts) / 60000 && 60 <= mins && hrs == mins / 60 && 24 <= hrs
    requires days == hrs / 24 && 1 <= days
    ensures FormatLastSeen(Some(ts), now) == if days == 1 then "1 day ago" else Decimal(days) + " days ago"
  {
  }

  /** Between a minute and an hour: the number shown is floor(delta / 60000). */
  lemma MinutesLabel(ts: int, now: int)
    requires ts != 0 && MinuteMillis <= now - ts < HourMillis
    ensures var n := (now - ts) / MinuteMillis;
            1 <= n < 60 && FormatLastSeen(Some(ts), now) == Ago(n, "min")
  {
    var delta := now - ts;
    var n := delta / MinuteMillis;
    assert 1 <= n < 60 by { DivBounds(delta, MinuteMillis, 1, 60); }
    MinutesBranch(ts, now, n);
    AgoSpelled(n, "min", "1 min ago", " mins ago");
  }

  /** Between an hour and a day: the number shown is floor(delta / 3600000). */
  lemma HoursLabel(ts: int, now: int)
    requires ts != 0 && HourMillis <= now - ts < DayMillis
    ensures var n := (now - ts) / HourMillis;
            1 <= n < 24 && FormatLastSeen(Some(ts), now) == Ago(n, "hr")
  {
    var delta := now - ts;
    var mins := delta / 60000;
    var n := delta / HourMillis;
    assert 60 <= mins by { DivBounds(delta, 60000, 60, 1440); }
    assert mins / 60 == n by { DivDiv(delta, 60000, 60); }
    assert 1 <= n < 24 by { DivBounds(delta, HourMillis, 1, 24); }
    HoursBranch(ts, now, mins, n);
    AgoSpelled(n, "hr", "1 hr ago", " hrs ago");
  }

  /** From a day on: the number shown is floor(delta / 86400000). */
  lemma DaysLabel(ts: int, now: int)
    requires ts != 0 && DayMillis <= now - ts
    ensures var n := (now - ts) / DayMillis;
            1 <= n && FormatLastSeen(Some(ts), now) == Ago(n, "day")
  {
    var delta := now - ts;
    var mins := delta / 60000;
    var hrs := delta / HourMillis;
    var n := delta / DayMillis;
    assert 60 <= mins by { DivBounds(delta, 60000, 1440, mins + 1); }
    assert mins / 60 == hrs by { DivDiv(delta, 60000, 60); }
    assert 24 <= hrs by { DivBounds(delta, HourMillis, 24, hrs + 1); }
    assert hrs / 24 == n by { DivDiv(delta, 3600000, 24); }
    assert 1 <= n by { DivBounds(delta, DayMillis, 1, n + 1); }
    DaysBranch(ts, now, mins, hrs, n);
    AgoSpelled(n, "day", "1 day ago", " days ago");
  }

  /** The count in a label can be read back: the label starts with the
      decimal digits of exactly that number, followed by a space. */
  lemma AgoShowsCount(n: nat, unit: string)
    ensures var text := Ago(n, unit);
            var k := |Decimal(n)|;
            k < |text| && text[k] == ' ' && IsDigits(text[..k]) && ParseDecimal(text[..k]) == n
  {
    var text := Ago(n, unit);
    var k := |Decimal(n)|;
    assert text[..k] == Decimal(n);
    DecimalRoundTrip(n);
  }

  /** The singular form is used exactly when the count is 1. */
  lemma AgoSingularIffOne(n: nat, unit: string)
    requires unit != [] && unit[|unit| - 1] != 's'
    ensures var text := Ago(n, unit);
            text[|text| - 5] == 's' <==> n != 1
  {
    var text := Ago(n, unit);
    if n == 1 {
      assert text[|text| - 5] == unit[|unit| - 1];
    } else {
      assert text[|text| - 5] == 's';
    }
  }
}
