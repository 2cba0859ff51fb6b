/** The one text format of every stored time (fmtTime in internal/storage/sqlite.go,
    sqliteTimeLayout in internal/storage/events.go). SQL compares these texts byte by byte, so the
    model proves that text order is time order. A time is a count of nanoseconds since
    0000-01-01 00:00:00 UTC in the proleptic Gregorian calendar. */
module Timestamps {
  import opened Calendar
  import opened Decimal
  import opened Util

  type Time = nat

  /** The days of the years 0 to 9999. */
  const DAYS: nat := 3_652_425

  /** The first time that needs a five-digit year. */
  const END: Time := DAYS * DAY * SECOND

  /** Only whole seconds are written. */
  function Second(t: Time): nat { t / SECOND }

  // ----- text -----

  /** A number in decimal, padded with zeros to at least w digits. */
  function Pad(n: nat, w: nat): string
    decreases n, w
  {
    if n == 0 && w == 0 then "" else Pad(n / 10, if w == 0 then 0 else w - 1) + [Digit(n % 10)]
  }

  /** Each field padded to its width and followed by its separator. */
  function Text(f: seq<nat>, layout: seq<(nat, string)>): string
    requires |f| == |layout|
  {
    if f == [] then "" else Pad(f[0], layout[0].0) + layout[0].1 + Text(f[1..], layout[1..])
  }

  const LAYOUT: seq<(nat, string)> := [(4, "-"), (2, "-"), (2, " "), (2, ":"), (2, ":"), (2, "")]

  /** The stored form of a time, as in 2006-01-02 15:04:05. */
  function Format(t: Time): string { Text(Fields(Second(t)), LAYOUT) }

  /** SQLite's comparison of texts, byte by byte. */
  predicate Less(a: string, b: string) {
    b != "" && (a == "" || a[0] < b[0] || (a[0] == b[0] && Less(a[1..], b[1..])))
  }

  function Pow10(w: nat): nat { if w == 0 then 1 else 10 * Pow10(w - 1) }

  /** Of two concatenations with first parts of one length, the first parts decide, then the rest. */
  lemma {:induction false} LessConcat(a: string, b: string, r: string, s: string)
    requires |a| == |b|
    ensures Less(a + r, b + s) <==> Less(a, b) || (a == b && Less(r, s))
  {
    if a == "" {
      assert a + r == r && b + s == s;
    } else {
      assert (a + r)[1..] == a[1..] + r && (b + s)[1..] == b[1..] + s;
      LessConcat(a[1..], b[1..], r, s);
      assert a == [a[0]] + a[1..] && b == [b[0]] + b[1..];
    }
  }

  lemma {:induction false} NotLessSelf(a: string)
    ensures !Less(a, a)
  {
    if a != "" { NotLessSelf(a[1..]); }
  }

  /** Padded numbers that fit their width compare as the numbers do. */
  lemma {:induction false} PadOrder(m: nat, n: nat, w: nat)
    requires m < Pow10(w) && n < Pow10(w)
    ensures |Pad(m, w)| == |Pad(n, w)| == w
    ensures Less(Pad(m, w), Pad(n, w)) <==> m < n
    ensures Pad(m, w) == Pad(n, w) ==> m == n
    decreases w
  {
    if w != 0 {
      PadOrder(m / 10, n / 10, w - 1);
      var a, b := Pad(m / 10, w - 1), Pad(n / 10, w - 1);
      var x, y := [Digit(m % 10)], [Digit(n % 10)];
      LessConcat(a, b, x, y);
      assert Less(x, y) <==> m % 10 < n % 10;
      if a + x == b + y {
        assert a == (a + x)[..w - 1] == (b + y)[..w - 1] == b;
        assert x[0] == (a + x)[w - 1] == (b + y)[w - 1] == y[0];
      }
    }
  }

  ghost predicate Fits(f: seq<nat>, layout: seq<(nat, string)>) {
    |f| == |layout| && forall i :: 0 <= i < |f| ==> f[i] < Pow10(layout[i].0)
  }

  /** Texts of fields that fit a layout compare as the fields do. */
  lemma {:induction false} TextOrder(f: seq<nat>, g: seq<nat>, layout: seq<(nat, string)>)
    requires Fits(f, layout) && Fits(g, layout)
    ensures |Text(f, layout)| == |Text(g, layout)|
    ensures Less(Text(f, layout), Text(g, layout)) <==> LexLess(f, g)
  {
    if f != [] {
      assert Fits(f[1..], layout[1..]) && Fits(g[1..], layout[1..]);
      TextOrder(f[1..], g[1..], layout[1..]);
      var (w, sep) := layout[0];
      PadOrder(f[0], g[0], w);
      var a, b := Pad(f[0], w), Pad(g[0], w);
      LessConcat(sep, sep, Text(f[1..], layout[1..]), Text(g[1..], layout[1..]));
      NotLessSelf(sep);
      LessConcat(a, b, sep + Text(f[1..], layout[1..]), sep + Text(g[1..], layout[1..]));
      assert a + sep + Text(f[1..], layout[1..]) == a + (sep + Text(f[1..], layout[1..]));
      assert b + sep + Text(g[1..], layout[1..]) == b + (sep + Text(g[1..], layout[1..]));
    }
  }

  // ----- text order is time order -----

  /** Years have four digits exactly before END. */
  lemma YearFits(t: Time)
    ensures Fields(Second(t))[0] < 10_000 <==> t < END
  {
    YearField(Second(t));
    YearOfDate(Second(t) / DAY, 10_000);
    DaysBeforeClosed(10_000);
    hide Fields, DaysBefore, DateOf;
    assert t < END <==> Second(t) < DAYS * DAY;
  }

  lemma FieldsFit(t: Time)
    requires t < END
    ensures Fits(Fields(Second(t)), LAYOUT)
  {
    YearFits(t);
    FieldsRoundTrip(Second(t));
    assert Pow10(2) == 100 && Pow10(4) == 10_000;
  }

  /** A padded number reads back, and is as wide as asked if it fits. */
  lemma {:induction false} PadReads(n: nat, w: nat)
    ensures Digits(Pad(n, w)) == Some(n)
    ensures n < Pow10(w) ==> |Pad(n, w)| == w
    decreases n, w
  {
    if n != 0 || w != 0 {
      var v := if w == 0 then 0 else w - 1;
      PadReads(n / 10, v);
      assert Pad(n, w)[..|Pad(n, w)| - 1] == Pad(n / 10, v);
    }
  }

  /** The date and the clock of a layout text, each a run of padded numbers with its separators. */
  lemma TextParts(f: seq<nat>)
    requires |f| == 6
    ensures Text(f[3..], LAYOUT[3..]) == Pad(f[3], 2) + ":" + (Pad(f[4], 2) + ":" + (Pad(f[5], 2) + ""))
    ensures Text(f, LAYOUT) ==
      Pad(f[0], 4) + "-" + (Pad(f[1], 2) + "-" + (Pad(f[2], 2) + " " + Text(f[3..], LAYOUT[3..])))
  {
    forall k | 0 <= k < 6
      ensures Text(f[k..], LAYOUT[k..]) == Pad(f[k], LAYOUT[k].0) + LAYOUT[k].1 + Text(f[k + 1..], LAYOUT[k + 1..])
    {
      assert f[k..][1..] == f[k + 1..] && LAYOUT[k..][1..] == LAYOUT[k + 1..];
    }
    assert Text(f[6..], LAYOUT[6..]) == "";
    hide Text, Pad;
    assert f[0..] == f && LAYOUT[0..] == LAYOUT;
    assert Pad(f[5], 2) + "" + "" == Pad(f[5], 2) + "";
  }

  /** What stands where in a stored time: nineteen characters, the year in the first four, then month,
      day, hour, minute and second in two each, with the separators of 2006-01-02 15:04:05. */
  lemma StoredForm(t: Time)
    requires t < END
    ensures var (s, f) := (Format(t), Fields(Second(t)));
      && |s| == 19 && |f| == 6
      && s[4] == '-' && s[7] == '-' && s[10] == ' ' && s[13] == ':' && s[16] == ':'
      && Digits(s[..4]) == Some(f[0]) && Digits(s[5..7]) == Some(f[1]) && Digits(s[8..10]) == Some(f[2])
      && Digits(s[11..13]) == Some(f[3]) && Digits(s[14..16]) == Some(f[4]) && Digits(s[17..]) == Some(f[5])
  {
    var f := Fields(Second(t));
    FieldsFit(t);
    TextParts(f);
    PadReads(f[0], 4);
    forall i | 1 <= i < 6 ensures |Pad(f[i], 2)| == 2 && Digits(Pad(f[i], 2)) == Some(f[i]) { PadReads(f[i], 2); }
    hide Fields, Text, Pad, Digits, Pow10, Fits;
    Placed(Pad(f[0], 4), Pad(f[1], 2), Pad(f[2], 2), Pad(f[3], 2), Pad(f[4], 2), Pad(f[5], 2));
  }

  lemma Placed(year: string, month: string, day: string, hour: string, minute: string, second: string)
    requires |year| == 4 && |month| == |day| == |hour| == |minute| == |second| == 2
    ensures var clock := hour + ":" + (minute + ":" + (second + ""));
      var s := year + "-" + (month + "-" + (day + " " + clock));
      && |s| == 19
      && s[4] == '-' && s[7] == '-' && s[10] == ' ' && s[13] == ':' && s[16] == ':'
      && s[..4] == year && s[5..7] == month && s[8..10] == day
      && s[11..13] == hour && s[14..16] == minute && s[17..] == second
  {
  }

  /** In the years 0 to 9999 stored texts order exactly as the times do to the second. */
  lemma FormatOrder(t: Time, u: Time)
    requires t < END && u < END
    ensures Less(Format(t), Format(u)) <==> Second(t) < Second(u)
    ensures Format(t) == Format(u) <==> Second(t) == Second(u)
  {
    var f, g := Fields(Second(t)), Fields(Second(u));
    FieldsRoundTrip(Second(t));
    FieldsRoundTrip(Second(u));
    FieldsFit(t);
    FieldsFit(u);
    hide Fields, SecondsTo, Text, Less, LexLess, Fits;
    TextOrder(f, g, LAYOUT);
    TextOrder(g, f, LAYOUT);
    LexTotal(f, g);
    NotLessSelf(Format(t));
    if LexLess(f, g) { DatesGrow(f, g); }
    if LexLess(g, f) { DatesGrow(g, f); }
  }

  lemma YearsAtEnd()
    ensures Fields(Second(END))[0] == 10_000 && Fields(Second(END - 1))[0] == 9_999
  {
    DaysBeforeClosed(9_999);
    DaysBeforeClosed(10_000);
    DaysBeforeClosed(10_001);
    assert Second(END) / DAY == DAYS && Second(END - 1) / DAY == DAYS - 1;
    YearField(Second(END));
    YearField(Second(END - 1));
    YearOfDate(DAYS, 10_000);
    YearOfDate(DAYS, 10_001);
    YearOfDate(DAYS - 1, 9_999);
    YearOfDate(DAYS - 1, 10_000);
    hide Fields, DateOf, DaysBefore;
  }

  lemma PadsAtEnd()
    ensures Pad(10_000, 4) == "10000" && Pad(9_999, 4) == "9999"
  {
    assert Pad(1, 0) == "1" && Pad(100, 2) == "100" && Pad(99, 2) == "99";
  }

  /** And not beyond: the first second of year 10000 sorts before the last of 9999. */
  lemma FiveDigitYearSortsFirst()
    ensures Less(Format(END), Format(END - 1))
  {
    YearsAtEnd();
    var f, g := Fields(Second(END)), Fields(Second(END - 1));
    PadsAtEnd();
    FieldsRoundTrip(Second(END));
    FieldsRoundTrip(Second(END - 1));
    hide Fields, Pad, Text;
    TextParts(f);
    TextParts(g);
  }
}
