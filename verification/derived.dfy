/** The computed fields of an expense: receipt preview, amount display,
    days ago and the month / year / week labels. Each is a pure function
    of the stored fields it depends on (and of today's date where the
    source reads the clock). An unset field is None, as `False` is there. */
module Derived {
  import opened Wrappers
  import opened Text
  import opened Calendar
  import opened Expenses

  // ---------------------------------------------------------------- receipt

  /** The extensions that mark a receipt as an image. */
  const ImageExtensions: seq<string> := [".jpg", ".jpeg", ".png", ".gif"]

  /** Python truthiness of an optional text or binary field: set and non-empty. */
  predicate Truthy(v: Option<string>) {
    v.Some? && |v.value| > 0
  }

  /** Some extension of `exts` occurs somewhere in `name` (not only at its end). */
  function AnyOccurs(exts: seq<string>, name: string): (r: bool)
    ensures r <==> exists k, i :: 0 <= k < |exts| && OccursAt(exts[k], name, i)
    decreases |exts|
  {
    if |exts| == 0 then false
    else
      var rest := AnyOccurs(exts[1..], name);
      assert forall k :: 1 <= k < |exts| ==> exts[k] == exts[1..][k - 1];
      if Contains(name, exts[0]) then true
      else
        assert forall i :: !OccursAt(exts[0], name, i);
        if rest then
          var k, i :| 0 <= k < |exts[1..]| && OccursAt(exts[1..][k], name, i);
          assert OccursAt(exts[k + 1], name, i);
          true
        else false
  }

  /** `_compute_receipt_preview`: the receipt itself when both it and its
      filename are set and the lower-cased filename contains an image
      extension anywhere; otherwise unset. */
  function ReceiptPreview(receipt: Option<string>, filename: Option<string>): (r: Option<string>)
    ensures r.Some? <==>
      Truthy(receipt) && Truthy(filename)
      && exists k, i :: 0 <= k < |ImageExtensions| && OccursAt(ImageExtensions[k], Lower(filename.value), i)
    ensures r.Some? ==> r == receipt
  {
    if Truthy(receipt) && Truthy(filename) && AnyOccurs(ImageExtensions, Lower(filename.value)) then receipt
    else None
  }

  lemma {:induction false} LowerIdempotent(s: string)
    ensures Lower(Lower(s)) == Lower(s)
  {
    assert forall i :: 0 <= i < |s| ==> LowerChar(LowerChar(s[i])) == LowerChar(s[i]);
  }

  /** The preview test ignores letter case in the filename. */
  lemma PreviewIgnoresCase(receipt: Option<string>, filename: string)
    ensures ReceiptPreview(receipt, Some(filename)) == ReceiptPreview(receipt, Some(Lower(filename)))
  {
    LowerIdempotent(filename);
  }

  /** The test is a substring test: a PDF whose name merely contains ".png"
      earlier on still gets a preview, and one in upper case does too. */
  lemma PreviewIsSubstringTest(receipt: string)
    requires |receipt| > 0
    ensures ReceiptPreview(Some(receipt), Some("scan.png.pdf")) == Some(receipt)
    ensures ReceiptPreview(Some(receipt), Some("SCAN.JPG")) == Some(receipt)
    ensures ReceiptPreview(Some(receipt), Some("scan.pdf")) == None
  {
    assert OccursAt(ImageExtensions[2], Lower("scan.png.pdf"), 4);
    assert OccursAt(ImageExtensions[0], Lower("SCAN.JPG"), 4);
    var low := Lower("scan.pdf");
    assert low == "scan.pdf";
    forall k, i | 0 <= k < |ImageExtensions|
      ensures !OccursAt(ImageExtensions[k], low, i)
    {
      var e := ImageExtensions[k];
      if !(0 <= i && i + |e| <= |low|) {
      } else if i == 4 {
        assert low[i..i + |e|][2] == 'd' != e[2];
      } else {
        assert low[i..i + |e|][0] == low[i] != '.' == e[0];
      }
    }
  }

  // ---------------------------------------------------------------- amount

  /** `f"{amount:.2f}"` for an amount in cents: optional minus sign, the
      units in decimal, a point and exactly two digits of cents. */
  function FormatAmount(cents: int): (s: string)
    ensures 4 <= |s|
    ensures s[0] == '-' <==> cents < 0
    ensures s[|s| - 3] == '.' && AllDigits(s[|s| - 2..])
    ensures Canonical(if cents < 0 then s[1..|s| - 3] else s[..|s| - 3])
  {
    var magnitude := if cents < 0 then -cents else cents;
    var units := Decimal(magnitude / 100);
    var s := (if cents < 0 then "-" else "") + units + "." + TwoDigits(magnitude % 100);
    assert (if cents < 0 then s[1..|s| - 3] else s[..|s| - 3]) == units;
    assert s[|s| - 2..] == TwoDigits(magnitude % 100);
    DecimalIsCanonical(magnitude / 100);
    s
  }

  /** Reads an unsigned "units.cc" string back as cents. */
  function ParseUnsigned(s: string): (r: Option<nat>) {
    if 4 <= |s| && s[|s| - 3] == '.' && AllDigits(s[..|s| - 3]) && AllDigits(s[|s| - 2..]) then
      Some(100 * ParseDecimal(s[..|s| - 3]) + ParseDecimal(s[|s| - 2..]))
    else None
  }

  /** Reads a display amount back as cents. */
  function ParseAmount(s: string): (r: Option<int>) {
    if 0 < |s| && s[0] == '-' then
      match ParseUnsigned(s[1..])
      case Some(v) => Some(-(v as int))
      case None => None
    else
      match ParseUnsigned(s)
      case Some(v) => Some(v)
      case None => None
  }

  lemma UnsignedRoundTrip(m: nat)
    ensures ParseUnsigned(Decimal(m / 100) + "." + TwoDigits(m % 100)) == Some(m)
  {
    var d, t := Decimal(m / 100), TwoDigits(m % 100);
    var s := d + "." + t;
    assert s[..|s| - 3] == d;
    assert s[|s| - 2..] == t;
    DecimalRoundTrip(m / 100);
  }

  /** The displayed number denotes the amount exactly. */
  lemma FormatAmountRoundTrip(cents: int)
    ensures ParseAmount(FormatAmount(cents)) == Some(cents)
  {
    var magnitude := if cents < 0 then -cents else cents;
    var body := Decimal(magnitude / 100) + "." + TwoDigits(magnitude % 100);
    UnsignedRoundTrip(magnitude);
    if cents < 0 {
      assert FormatAmount(cents) == "-" + body;
      assert ("-" + body)[1..] == body;
    } else {
      assert FormatAmount(cents) == body;
      assert IsDigit(body[0]);
    }
  }

  /** `_compute_amount_display`: currency symbol then the formatted amount,
      or "$0.00" when the amount is zero or no currency is set. */
  function AmountDisplay(amount: int, currency: Option<Currency>): (r: string)
    ensures amount != 0 && currency.Some? ==>
      exists shown :: r == currency.value.symbol + shown && ParseAmount(shown) == Some(amount)
    ensures amount != 0 && currency.Some? ==> r == currency.value.symbol + FormatAmount(amount)
    ensures amount == 0 || currency.None? ==> r == "$0.00"
  {
    if amount != 0 && currency.Some? then
      FormatAmountRoundTrip(amount);
      currency.value.symbol + FormatAmount(amount)
    else "$0.00"
  }

  // ---------------------------------------------------------------- days ago

  /** `_compute_days_ago`: whole days from the expense date to today, 0
      when no date is set. Negative for a date after today. */
  function DaysAgo(date: Option<Date>, today: Date): (n: int)
    ensures date.Some? ==> Ordinal(date.value) + n == Ordinal(today)
    ensures date.None? ==> n == 0
  {
    if date.Some? then Ordinal(today) - Ordinal(date.value) else 0
  }

  /** For a date that passed the date check, days-ago lies in 0..365 and is
      0 exactly on the expense's own day. */
  lemma DaysAgoOfCheckedDate(date: Date, today: Date)
    requires CheckDate(date, today).None?
    ensures 0 <= DaysAgo(Some(date), today) <= DateWindow
    ensures DaysAgo(Some(date), today) == 0 <==> date == today
  {
    OrdinalOrder(today, date);
  }

  // ---------------------------------------------------------------- period

  /** Full month names (`%B` in the C locale). */
  const MonthNames: seq<string> := [
    "January", "February", "March", "April", "May", "June",
    "July", "August", "September", "October", "November", "December"]

  /** `date.strftime('%B %Y')`, unset when there is no date: the month's
      name, a space, and digits that read back as the year. */
  function MonthLabel(date: Option<Date>): (r: Option<string>)
    ensures r.None? <==> date.None?
    ensures r.Some? ==>
      var name := MonthNames[date.value.month - 1];
      && |name| < |r.value| && r.value[..|name|] == name && r.value[|name|] == ' '
      && Canonical(r.value[|name| + 1..]) && ParseDecimal(r.value[|name| + 1..]) == date.value.year
  {
    match date
    case Some(d) =>
      var name := MonthNames[d.month - 1];
      var shown := name + " " + Decimal(d.year);
      DecimalRoundTrip(d.year);
      DecimalIsCanonical(d.year);
      assert shown[..|name|] == name && shown[|name| + 1..] == Decimal(d.year);
      Some(shown)
    case None => None
  }

  /** `str(date.year)`, unset when there is no date. */
  function YearLabel(date: Option<Date>): (r: Option<string>)
    ensures r.None? <==> date.None?
    ensures r.Some? ==> Canonical(r.value) && ParseDecimal(r.value) == date.value.year
  {
    match date
    case Some(d) =>
      DecimalRoundTrip(d.year);
      DecimalIsCanonical(d.year);
      Some(Decimal(d.year))
    case None => None
  }

  lemma MonthNamesHaveNoSpace(k: nat)
    requires k < 12
    ensures ' ' !in MonthNames[k]
  {
  }

  lemma MonthNamesDistinct(i: nat, j: nat)
    requires i < 12 && j < 12
    requires MonthNames[i] == MonthNames[j]
    ensures i == j
  {
  }

  /** Two dates share a month label exactly when they lie in the same month
      of the same year: the label identifies the month that
      get_monthly_stats filters on. */
  lemma MonthLabelIdentifiesMonth(a: Date, b: Date)
    ensures MonthLabel(Some(a)) == MonthLabel(Some(b)) <==> a.year == b.year && a.month == b.month
  {
    if MonthLabel(Some(a)) == MonthLabel(Some(b)) {
      MonthNamesHaveNoSpace(a.month - 1);
      MonthNamesHaveNoSpace(b.month - 1);
      SplitAtSeparator(' ', MonthNames[a.month - 1], Decimal(a.year), MonthNames[b.month - 1], Decimal(b.year));
      MonthNamesDistinct(a.month - 1, b.month - 1);
      DecimalInjective(a.year, b.year);
    }
  }

  /** "Week " followed by the decimal forms of `w` and `y`, separated by ", ". */
  function WeekText(w: nat, y: nat): string {
    "Week " + Decimal(w) + ", " + Decimal(y)
  }

  /** `s` reads back as "Week <w>, <y>": the digits after "Week " up to
      ", " give `w` and the digits after ", " give `y`, each written without
      a leading zero. */
  predicate ReadsAsWeek(s: string, w: nat, y: nat) {
    exists i :: 5 <= i <= |s| - 2 && s[..5] == "Week " && s[i..i + 2] == ", "
      && Canonical(s[5..i]) && ParseDecimal(s[5..i]) == w
      && Canonical(s[i + 2..]) && ParseDecimal(s[i + 2..]) == y
  }

  lemma WeekTextReadsBack(w: nat, y: nat)
    ensures ReadsAsWeek(WeekText(w, y), w, y)
  {
    var s := WeekText(w, y);
    var i := 5 + |Decimal(w)|;
    assert s[..5] == "Week " && s[5..i] == Decimal(w) && s[i..i + 2] == ", " && s[i + 2..] == Decimal(y);
    DecimalRoundTrip(w);
    DecimalRoundTrip(y);
    DecimalIsCanonical(w);
    DecimalIsCanonical(y);
  }

  /** Different week and year numbers give different texts. */
  lemma WeekTextInjective(w1: nat, y1: nat, w2: nat, y2: nat)
    requires WeekText(w1, y1) == WeekText(w2, y2)
    ensures w1 == w2 && y1 == y2
  {
    var xa, xb := "Week " + Decimal(w1), "Week " + Decimal(w2);
    var ya, yb := " " + Decimal(y1), " " + Decimal(y2);
    assert WeekText(w1, y1) == xa + [','] + ya;
    assert WeekText(w2, y2) == xb + [','] + yb;
    assert ',' !in xa && ',' !in xb;
    SplitAtSeparator(',', xa, ya, xb, yb);
    assert Decimal(w1) == xa[5..] == xb[5..] == Decimal(w2);
    assert Decimal(y1) == ya[1..] == yb[1..] == Decimal(y2);
    DecimalInjective(w1, w2);
    DecimalInjective(y1, y2);
  }

  /** The week label, as the source renders it: ISO week number paired
      with the CALENDAR year. */
  function WeekLabelAsWritten(date: Option<Date>): (r: Option<string>)
    ensures r.None? <==> date.None?
    ensures r.Some? ==> ReadsAsWeek(r.value, IsoCalendar(date.value).week, date.value.year)
  {
    match date
    case Some(d) =>
      WeekTextReadsBack(IsoCalendar(d).week, d.year);
      Some(WeekText(IsoCalendar(d).week, d.year))
    case None => None
  }

  /** As written, two dates get the same week label exactly when they have
      the same ISO week number and the same calendar year, whatever their
      ISO years. */
  lemma WeekLabelAsWrittenIdentifies(a: Date, b: Date)
    ensures WeekLabelAsWritten(Some(a)) == WeekLabelAsWritten(Some(b)) <==>
      IsoCalendar(a).week == IsoCalendar(b).week && a.year == b.year
  {
    if WeekLabelAsWritten(Some(a)) == WeekLabelAsWritten(Some(b)) {
      WeekTextInjective(IsoCalendar(a).week, a.year, IsoCalendar(b).week, b.year);
    }
  }

  /** Near New Year the as-written label names the wrong week: Monday
      2024-12-30 falls in ISO week 1 of 2025 and is labelled "Week 1, 2024",
      the label of Monday 2024-01-01, 364 days earlier. */
  lemma WeekLabelAsWrittenCollides()
    ensures WeekLabelAsWritten(Some(Civil(2024, 12, 30))) == WeekLabelAsWritten(Some(Civil(2024, 1, 1)))
    ensures Ordinal(Civil(2024, 12, 30)) - Ordinal(Civil(2024, 1, 1)) == 364
    ensures IsoCalendar(Civil(2024, 12, 30)) == IsoDate(2025, 1, 1)
    ensures IsoCalendar(Civil(2024, 1, 1)) == IsoDate(2024, 1, 1)
  {
    var a: Date := Civil(2024, 12, 30);
    var b: Date := Civil(2024, 1, 1);
    IsoOfDec30();
    IsoOfJan1();
    WeekLabelAsWrittenIdentifies(a, b);
  }

  lemma Week1Mondays()
    ensures IsoWeek1Monday(2024) == 738886 && IsoWeek1Monday(2025) == 739250
  {
    assert DaysBeforeYear(2024) == 738885;
    assert DaysBeforeYear(2025) == 739251;
    assert Week1MondayFrom(738886) == 738886;
    assert Week1MondayFrom(739252) == 739250;
  }

  lemma IsoOfDec30()
    ensures Ordinal(Civil(2024, 12, 30)) == 739250
    ensures IsoCalendar(Civil(2024, 12, 30)) == IsoDate(2025, 1, 1)
  {
    var d: Date := Civil(2024, 12, 30);
    assert DaysBeforeYear(2024) == 738885;
    assert Ordinal(d) == 739250;
    Week1Mondays();
    assert IsoCalendar(d) == IsoOfOrdinal(739250, 2024);
    assert IsoOfOrdinal(739250, 2024) == IsoSplit(739250, 2024, IsoWeek1Monday(2023), 738886, 739250);
  }

  lemma IsoOfJan1()
    ensures Ordinal(Civil(2024, 1, 1)) == 738886
    ensures IsoCalendar(Civil(2024, 1, 1)) == IsoDate(2024, 1, 1)
  {
    var d: Date := Civil(2024, 1, 1);
    assert DaysBeforeYear(2024) == 738885;
    assert Ordinal(d) == 738886;
    Week1Mondays();
    assert IsoCalendar(d) == IsoOfOrdinal(738886, 2024);
    assert IsoOfOrdinal(738886, 2024) == IsoSplit(738886, 2024, IsoWeek1Monday(2023), 738886, 739250);
  }

  /** The ISO year of a date is at least 1 (0001-01-01 is a Monday). */
  lemma IsoYearPositive(d: Date)
    ensures IsoCalendar(d).year >= 1
  {
    if d.year == 1 {
      assert DaysBeforeYear(1) == 0;
      assert Week1MondayFrom(1) == 1;
      assert IsoWeek1Monday(1) == 1;
      OrdinalInYear(d);
      IsoCalendarYear(d);
      assert Ordinal(d) >= 1;
    }
  }

  /** The week label with the ISO year, as ISO 8601 pairs them. */
  function WeekLabel(date: Option<Date>): (r: Option<string>)
    ensures r.None? <==> date.None?
    ensures r.Some? ==> 1 <= IsoCalendar(date.value).year
                          && ReadsAsWeek(r.value, IsoCalendar(date.value).week, IsoCalendar(date.value).year)
  {
    match date
    case Some(d) =>
      var iso := IsoCalendar(d);
      IsoYearPositive(d);
      WeekTextReadsBack(iso.week, iso.year);
      Some(WeekText(iso.week, iso.year))
    case None => None
  }

  /** The corrected label names one Monday-to-Sunday week: two dates with
      the same label are at most six days apart, and belong to the ISO week
      starting on the same Monday. */
  lemma WeekLabelNamesOneWeek(a: Date, b: Date)
    ensures WeekLabel(Some(a)) == WeekLabel(Some(b)) ==>
      && IsoCalendar(a).year == IsoCalendar(b).year && IsoCalendar(a).week == IsoCalendar(b).week
      && -6 <= Ordinal(a) - Ordinal(b) <= 6
  {
    if WeekLabel(Some(a)) == WeekLabel(Some(b)) {
      WeekLabelFields(a, b);
      SameIsoWeek(a, b);
    }
  }

  /** Reading the week number and the ISO year back out of equal labels. */
  lemma WeekLabelFields(a: Date, b: Date)
    requires WeekLabel(Some(a)) == WeekLabel(Some(b))
    ensures IsoCalendar(a).year == IsoCalendar(b).year && IsoCalendar(a).week == IsoCalendar(b).week
  {
    IsoYearPositive(a);
    IsoYearPositive(b);
    WeekTextInjective(IsoCalendar(a).week, IsoCalendar(a).year, IsoCalendar(b).week, IsoCalendar(b).year);
  }

  /** The corrected label keeps different ISO years apart. */
  lemma WeekLabelSeparatesIsoYears(a: Date, b: Date)
    requires IsoCalendar(a).year != IsoCalendar(b).year
    ensures WeekLabel(Some(a)) != WeekLabel(Some(b))
  {
    WeekLabelNamesOneWeek(a, b);
  }

  /** The corrected label tells apart the two dates the as-written one confuses. */
  lemma WeekLabelSeparatesNewYear()
    ensures WeekLabel(Some(Civil(2024, 12, 30))) != WeekLabel(Some(Civil(2024, 1, 1)))
  {
    var a: Date := Civil(2024, 12, 30);
    var b: Date := Civil(2024, 1, 1);
    IsoOfDec30();
    IsoOfJan1();
    WeekLabelSeparatesIsoYears(a, b);
  }

  datatype Period = Period(month: Option<string>, year: Option<string>, week: Option<string>)

  /** `_compute_period`: month, year and week labels, all unset without a
      date. The week label is the one the code prints, with the calendar
      year. */
  function ComputePeriod(date: Option<Date>): (p: Period)
    ensures date.None? <==> p == Period(None, None, None)
    ensures date.Some? ==> p.year.Some? && Canonical(p.year.value) && ParseDecimal(p.year.value) == date.value.year
    ensures p.month == MonthLabel(date)
    ensures p.year == YearLabel(date)
    ensures p.week == WeekLabelAsWritten(date)
  {
    Period(MonthLabel(date), YearLabel(date), WeekLabelAsWritten(date))
  }

  /** The period of 2024-12-30 as the code computes it: week 1 with the
      year 2024, although the ISO week 1 it names is that of 2025. */
  lemma PeriodOfDec30()
    ensures ComputePeriod(Some(Civil(2024, 12, 30))).week == Some("Week 1, 2024")
  {
    var d: Date := Civil(2024, 12, 30);
    WeekLabelOfDec30(d);
    assert ComputePeriod(Some(d)).week == WeekLabelAsWritten(Some(d));
  }

  lemma WeekLabelOfDec30(d: Date)
    requires d == Civil(2024, 12, 30)
    ensures WeekLabelAsWritten(Some(d)) == Some("Week 1, 2024")
  {
    IsoOfDec30();
    var w := IsoCalendar(d).week;
    assert w == 1;
    DecimalOf2024();
    DecimalOf1();
    assert WeekLabelAsWritten(Some(d)) == Some(WeekText(w, d.year));
    WeekOneText();
  }

  lemma WeekOneText()
    ensures "Week " + "1" + ", " + "2024" == "Week 1, 2024"
  {
  }

  lemma DecimalOf1()
    ensures Decimal(1) == "1"
  {
  }

  lemma DecimalOf2024()
    ensures Decimal(2024) == "2024"
  {
    assert Decimal(2) == "2";
    assert Decimal(20) == "20";
    assert Decimal(202) == "202";
  }

  /** The worked example: 2024-06-15 is labelled "June 2024" and "2024". */
  lemma PeriodExample()
    ensures MonthLabel(Some(Civil(2024, 6, 15))) == Some("June 2024")
    ensures YearLabel(Some(Civil(2024, 6, 15))) == Some("2024")
  {
    DecimalOf2024();
    assert MonthNames[5] == "June";
    assert MonthLabel(Some(Civil(2024, 6, 15))) == Some(MonthNames[5] + " " + Decimal(2024));
    assert "June" + " " + "2024" == "June 2024";
  }
}
