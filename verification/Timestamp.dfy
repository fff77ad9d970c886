/** UTC timestamps as the catalog validation reads them (sections 5.6 and 5.7 of RFC 3339). */
module Timestamp {
  import opened Wrappers
  import opened Text
  import opened CivilDate

  datatype DateTime = DateTime(year: int, month: int, day: int, hour: int, minute: int, second: int)

  predicate ValidDateTime(t: DateTime) {
    && ValidDate(t.year, t.month, t.day) && 1970 <= t.year
    && 0 <= t.hour <= 23 && 0 <= t.minute <= 59 && 0 <= t.second <= 59
  }

  /** Seconds since 1970-01-01T00:00:00Z. */
  function Seconds(t: DateTime): int {
    DaysFromCivil(t.year, t.month, t.day) * 86400 + (t.hour * 3600 + t.minute * 60 + t.second)
  }

  // ---------------------------------------------------------------------------------------------
  // Reading
  // ---------------------------------------------------------------------------------------------

  predicate IsDigit(c: char) {
    '0' <= c <= '9'
  }

  predicate AllDigits(s: string) {
    forall c :: c in s ==> IsDigit(c)
  }

  function DigitsValue(s: string): nat
    requires AllDigits(s)
  {
    if s == "" then 0
    else
      assert s[|s| - 1] in s;
      assert AllDigits(s[..|s| - 1]) by { assert forall c :: c in s[..|s| - 1] ==> c in s; }
      DigitsValue(s[..|s| - 1]) * 10 + (s[|s| - 1] as int - '0' as int)
  }

  /** Rust's `str::parse::<u32>`: one leading plus sign is accepted. */
  function ParseU32(s: string): Option<nat> {
    var digits := if s != "" && s[0] == '+' then s[1..] else s;
    if digits == "" || !AllDigits(digits) || DigitsValue(digits) >= 0x1_0000_0000 then None
    else Some(DigitsValue(digits))
  }

  /** The parts before and after the first dot. */
  function SplitFraction(time: string): (string, Option<string>) {
    match Find(time, ".")
    case None => (time, None)
    case Some(i) => (time[..i], Some(time[i + 1..]))
  }

  function Fields(value: string): Option<seq<string>> {
    if |value| < 20 || value[|value| - 1] != 'Z' || value[10] != 'T' then None
    else
      var dateParts := Split(value[..10], '-');
      var (clock, fraction) := SplitFraction(value[11..|value| - 1]);
      var timeParts := Split(clock, ':');
      if || |dateParts| != 3 || |dateParts[0]| != 4 || |dateParts[1]| != 2 || |dateParts[2]| != 2
         || |timeParts| != 3 || |timeParts[0]| != 2 || |timeParts[1]| != 2 || |timeParts[2]| != 2
         || (fraction.Some? && (fraction.value == "" || !AllDigits(fraction.value)))
      then None
      else Some(dateParts + timeParts)
  }

  function ParseRfc3339Utc(value: string): Option<int> {
    match Fields(value)
    case None => None
    case Some(f) =>
      if |f| != 6 then None
      else
        var year, month, day := ParseU32(f[0]), ParseU32(f[1]), ParseU32(f[2]);
        var hour, minute, second := ParseU32(f[3]), ParseU32(f[4]), ParseU32(f[5]);
        if year.None? || month.None? || day.None? || hour.None? || minute.None? || second.None? then None
        else
          var t := DateTime(year.value, month.value, day.value, hour.value, minute.value, second.value);
          if || t.year < 1970 || t.day == 0 || t.day > DaysInMonth(t.year, t.month)
             || t.hour > 23 || t.minute > 59 || t.second > 59
          then None
          else Some(Seconds(t))
  }

  // ---------------------------------------------------------------------------------------------
  // Writing
  // ---------------------------------------------------------------------------------------------

  function TwoDigits(n: nat): (r: string)
    requires n < 100
    ensures |r| == 2
  {
    [Digit(n / 10), Digit(n % 10)]
  }

  function FourDigits(n: nat): (r: string)
    requires n < 10000
    ensures |r| == 4
  {
    TwoDigits(n / 100) + TwoDigits(n % 100)
  }

  function Three(a: string, b: string, c: string, sep: char): string {
    a + [sep] + (b + [sep] + c)
  }

  /** The canonical form without a fraction. */
  function Print(t: DateTime): string
    requires ValidDateTime(t) && t.year <= 9999
  {
    Three(FourDigits(t.year), TwoDigits(t.month), TwoDigits(t.day), '-') + "T"
    + Three(TwoDigits(t.hour), TwoDigits(t.minute), TwoDigits(t.second), ':') + "Z"
  }

  // ---------------------------------------------------------------------------------------------
  // Reading what was written
  // ---------------------------------------------------------------------------------------------

  lemma TwoDigitsValue(n: nat)
    requires n < 100
    ensures AllDigits(TwoDigits(n)) && ParseU32(TwoDigits(n)) == Some(n)
  {
    var s := TwoDigits(n);
    assert s[..1][..0] == "";
    assert DigitsValue(s[..1]) == n / 10;
  }

  lemma FourDigitsValue(n: nat)
    requires n < 10000
    ensures AllDigits(FourDigits(n)) && ParseU32(FourDigits(n)) == Some(n)
  {
    var s := FourDigits(n);
    TwoDigitsValue(n / 100);
    TwoDigitsValue(n % 100);
    assert s[..2] == TwoDigits(n / 100);
    assert s[..3][..2] == s[..2] && s[..4] == s;
    assert DigitsValue(s[..2]) == n / 100;
    assert s[..3][2] == Digit(n % 100 / 10) && s[3] == Digit(n % 100 % 10);
    assert AllDigits(s[..3]) by { assert forall c :: c in s[..3] ==> c in s; }
    assert DigitsValue(s[..3]) == n / 100 * 10 + n % 100 / 10;
  }

  lemma SplitThree(a: string, b: string, c: string, sep: char)
    requires sep !in a && sep !in b && sep !in c
    ensures Split(Three(a, b, c, sep), sep) == [a, b, c]
  {
    SplitFirst(a, sep, b + [sep] + c);
    SplitFirst(b, sep, c);
    SplitPiece(c, sep);
  }

  lemma FieldsOf(a: string, b: string, c: string, d: string, e: string, f: string)
    requires |a| == 4 && |b| == |c| == |d| == |e| == |f| == 2
    requires '-' !in a && '-' !in b && '-' !in c
    requires ':' !in d && ':' !in e && ':' !in f && '.' !in d && '.' !in e && '.' !in f
    ensures Fields(Three(a, b, c, '-') + "T" + Three(d, e, f, ':') + "Z") == Some([a, b, c, d, e, f])
  {
    var date, time := Three(a, b, c, '-'), Three(d, e, f, ':');
    var v := date + "T" + time + "Z";
    assert v[..10] == date && v[11..|v| - 1] == time && v[10] == 'T' && v[|v| - 1] == 'Z';
    SplitThree(a, b, c, '-');
    SplitThree(d, e, f, ':');
    NoDot(time);
    assert [a, b, c] + [d, e, f] == [a, b, c, d, e, f];
  }

  lemma NoDot(time: string)
    requires '.' !in time
    ensures SplitFraction(time) == (time, None)
  {
    if i :| At(time, ".", i) {
      AtChar(time, ".", i, 0);
    }
  }

  /** A printed date-time is read back as its seconds. */
  lemma ParsePrinted(t: DateTime)
    requires ValidDateTime(t) && t.year <= 9999
    ensures ParseRfc3339Utc(Print(t)) == Some(Seconds(t)) && |Print(t)| == 20
  {
    hide Fields, Seconds, Three, FourDigits, TwoDigits;
    FourDigitsValue(t.year);
    TwoDigitsValue(t.month);
    TwoDigitsValue(t.day);
    TwoDigitsValue(t.hour);
    TwoDigitsValue(t.minute);
    TwoDigitsValue(t.second);
    FieldsOf(
      FourDigits(t.year), TwoDigits(t.month), TwoDigits(t.day),
      TwoDigits(t.hour), TwoDigits(t.minute), TwoDigits(t.second));
    PrintedLength(t);
  }

  lemma PrintedLength(t: DateTime)
    requires ValidDateTime(t) && t.year <= 9999
    ensures |Print(t)| == 20
  {
  }

  // ---------------------------------------------------------------------------------------------
  // Order
  // ---------------------------------------------------------------------------------------------

  predicate TimeLess(a: DateTime, b: DateTime) {
    || DateLess(a.year, a.month, a.day, b.year, b.month, b.day)
    || (a.year == b.year && a.month == b.month && a.day == b.day
        && (|| a.hour < b.hour
            || (a.hour == b.hour && a.minute < b.minute)
            || (a.hour == b.hour && a.minute == b.minute && a.second < b.second)))
  }

  /** Timestamps compare as their calendar fields do, so the printed form is injective. */
  lemma SecondsOrder(a: DateTime, b: DateTime)
    requires ValidDateTime(a) && ValidDateTime(b)
    ensures Seconds(a) < Seconds(b) <==> TimeLess(a, b)
    ensures Seconds(a) == Seconds(b) <==> a == b
  {
    DateOrder(a.year, a.month, a.day, b.year, b.month, b.day);
    DateOrder(b.year, b.month, b.day, a.year, a.month, a.day);
  }

  lemma PrintedOrder(a: DateTime, b: DateTime)
    requires ValidDateTime(a) && ValidDateTime(b) && a.year <= 9999 && b.year <= 9999
    ensures ParseRfc3339Utc(Print(a)).Some? && ParseRfc3339Utc(Print(b)).Some?
    ensures ParseRfc3339Utc(Print(a)).value < ParseRfc3339Utc(Print(b)).value <==> TimeLess(a, b)
    ensures ParseRfc3339Utc(Print(a)) == ParseRfc3339Utc(Print(b)) <==> a == b
  {
    hide ParseRfc3339Utc, Print, Seconds;
    ParsePrinted(a);
    ParsePrinted(b);
    SecondsOrder(a, b);
  }

  // ---------------------------------------------------------------------------------------------
  // Which strings are accepted
  // ---------------------------------------------------------------------------------------------

  lemma {:induction false} JoinSplit(s: string, sep: char)
    ensures Join(Split(s, sep), [sep]) == s
  {
    if s != "" {
      var parts := Split(s[1..], sep);
      JoinSplit(s[1..], sep);
      assert s == [s[0]] + s[1..];
      if s[0] == sep {
        assert ([""] + parts)[1..] == parts;
        assert "" + [sep] + Join(parts, [sep]) == s;
      } else {
        var joined := [[s[0]] + parts[0]] + parts[1..];
        assert joined[1..] == parts[1..];
        if |parts| > 1 {
          Assoc([s[0]], parts[0], [sep]);
          Assoc([s[0]], parts[0] + [sep], Join(parts[1..], [sep]));
        }
      }
    }
  }

  lemma ThreeParts(s: string, sep: char)
    requires |Split(s, sep)| == 3
    ensures var p := Split(s, sep); s == Three(p[0], p[1], p[2], sep)
  {
    var p := Split(s, sep);
    JoinSplit(s, sep);
    assert Join(p, [sep]) == p[0] + [sep] + Join(p[1..], [sep]);
    assert Join(p[1..], [sep]) == p[1] + [sep] + Join(p[1..][1..], [sep]);
  }

  lemma TwoDigitsBack(s: string)
    requires |s| == 2 && AllDigits(s)
    ensures DigitsValue(s) < 100 && s == TwoDigits(DigitsValue(s))
  {
    assert s[0] in s && s[1] in s;
    assert s[..1][..0] == "";
    assert DigitsValue(s[..1]) == s[0] as int - '0' as int;
  }

  lemma DigitAppended(s: string, c: char)
    requires AllDigits(s) && IsDigit(c)
    ensures AllDigits(s + [c]) && DigitsValue(s + [c]) == DigitsValue(s) * 10 + (c as int - '0' as int)
  {
    assert (s + [c])[..|s|] == s && (s + [c])[|s|] == c;
  }

  lemma TwoPairs(h: string, t: string)
    requires |h| == 2 && |t| == 2 && AllDigits(h) && AllDigits(t)
    ensures AllDigits(h + t) && DigitsValue(h + t) == DigitsValue(h) * 100 + DigitsValue(t)
  {
    assert t[0] in t && t[1] in t;
    var c, d := t[0], t[1];
    assert AllDigits("") && DigitsValue("") == 0;
    hide AllDigits, DigitsValue;
    DigitAppended("", c);
    DigitAppended("" + [c], d);
    DigitAppended(h, c);
    DigitAppended(h + [c], d);
    assert "" + [c] + [d] == t && h + [c] + [d] == h + t;
  }

  lemma FourOfTwo(x: nat, y: nat)
    requires x < 100 && y < 100
    ensures FourDigits(x * 100 + y) == TwoDigits(x) + TwoDigits(y)
  {
    hide TwoDigits;
    assert (x * 100 + y) / 100 == x && (x * 100 + y) % 100 == y;
  }

  lemma FourDigitsBack(s: string)
    requires |s| == 4 && AllDigits(s)
    ensures DigitsValue(s) < 10000 && s == FourDigits(DigitsValue(s))
  {
    var h, t := s[..2], s[2..];
    assert AllDigits(h) && AllDigits(t) by { assert forall c :: c in h || c in t ==> c in s; }
    hide AllDigits, DigitsValue, TwoDigits, FourDigits;
    TwoDigitsBack(h);
    TwoDigitsBack(t);
    TwoPairs(h, t);
    FourOfTwo(DigitsValue(h), DigitsValue(t));
    assert s == h + t;
  }

  /** Twenty characters leave no room for a fraction. */
  lemma NoRoomForFraction(value: string)
    requires |value| == 20 && Fields(value).Some?
    ensures SplitFraction(value[11..19]).0 == value[11..19]
  {
    var time := value[11..19];
    var clock := SplitFraction(time).0;
    ThreeParts(clock, ':');
  }

  lemma FieldsBack(value: string)
    requires |value| == 20 && Fields(value).Some?
    ensures var f := Fields(value).value;
      && |f| == 6 && |f[0]| == 4 && |f[1]| == |f[2]| == |f[3]| == |f[4]| == |f[5]| == 2
      && value == Three(f[0], f[1], f[2], '-') + "T" + Three(f[3], f[4], f[5], ':') + "Z"
  {
    NoRoomForFraction(value);
    ThreeParts(value[..10], '-');
    ThreeParts(value[11..19], ':');
    assert value == value[..10] + [value[10]] + value[11..19] + [value[19]];
  }

  /** A two-digit field as it may also be written: with a plus sign in place of the first digit. */
  function Field(n: nat, plus: bool): (r: string)
    requires n < 100 && (plus ==> n < 10)
    ensures |r| == 2
  {
    if plus then ['+', Digit(n)] else TwoDigits(n)
  }

  /** Which fields are written with a plus sign. */
  datatype Signs = Signs(month: bool, day: bool, hour: bool, minute: bool, second: bool)

  predicate Writable(t: DateTime) {
    ValidDateTime(t) && t.year <= 9999
  }

  predicate Fits(t: DateTime, g: Signs) {
    && (g.month ==> t.month < 10) && (g.day ==> t.day < 10)
    && (g.hour ==> t.hour < 10) && (g.minute ==> t.minute < 10) && (g.second ==> t.second < 10)
  }

  function PrintSigned(t: DateTime, g: Signs): string
    requires Writable(t) && Fits(t, g)
  {
    Three(FourDigits(t.year), Field(t.month, g.month), Field(t.day, g.day), '-') + "T"
    + Three(Field(t.hour, g.hour), Field(t.minute, g.minute), Field(t.second, g.second), ':') + "Z"
  }

  lemma SignedDigit(n: nat)
    requires n < 10
    ensures ParseU32(['+', Digit(n)]) == Some(n)
  {
    var m := ['+', Digit(n)];
    assert m[1..] == [Digit(n)] && m[1..][..0] == "";
    assert DigitsValue(m[1..]) == n;
  }

  lemma FieldValue(n: nat, plus: bool)
    requires n < 100 && (plus ==> n < 10)
    ensures var s := Field(n, plus);
      ParseU32(s) == Some(n) && '-' !in s && ':' !in s && '.' !in s
  {
    if plus {
      SignedDigit(n);
    } else {
      TwoDigitsValue(n);
    }
  }

  lemma SignedRead(t: DateTime, g: Signs)
    requires Writable(t) && Fits(t, g)
    ensures ParseRfc3339Utc(PrintSigned(t, g)) == Some(Seconds(t))
  {
    hide Fields, Seconds, Three, FourDigits, Field;
    FourDigitsValue(t.year);
    FieldValue(t.month, g.month);
    FieldValue(t.day, g.day);
    FieldValue(t.hour, g.hour);
    FieldValue(t.minute, g.minute);
    FieldValue(t.second, g.second);
    FieldsOf(
      FourDigits(t.year), Field(t.month, g.month), Field(t.day, g.day),
      Field(t.hour, g.hour), Field(t.minute, g.minute), Field(t.second, g.second));
  }

  lemma OneDigit(s: string)
    requires |s| == 1 && AllDigits(s)
    ensures DigitsValue(s) < 10 && s == [Digit(DigitsValue(s))]
  {
    assert s[0] in s && s[..0] == "";
  }

  lemma FieldBack(s: string)
    requires |s| == 2 && ParseU32(s).Some?
    ensures var n, plus := ParseU32(s).value, s[0] == '+';
      n < 100 && (plus ==> n < 10) && s == Field(n, plus)
  {
    if s[0] == '+' {
      OneDigit(s[1..]);
      assert s == ['+'] + s[1..];
    } else {
      TwoDigitsBack(s);
    }
  }

  lemma ThreeDigits(s: string)
    requires |s| == 3 && AllDigits(s)
    ensures DigitsValue(s) < 1000
  {
    assert AllDigits(s[..2]) by { assert forall c :: c in s[..2] ==> c in s; }
    assert s[2] in s;
    TwoDigitsBack(s[..2]);
    DigitAppended(s[..2], s[2]);
    assert s == s[..2] + [s[2]];
  }

  /** A year from 1970 on has no room for a sign. */
  lemma YearBack(s: string)
    requires |s| == 4 && ParseU32(s).Some? && ParseU32(s).value >= 1970
    ensures ParseU32(s).value < 10000 && s == FourDigits(ParseU32(s).value)
  {
    if s[0] == '+' {
      ThreeDigits(s[1..]);
    } else {
      FourDigitsBack(s);
    }
  }

  lemma SignedBack(value: string) returns (t: DateTime, g: Signs)
    requires |value| == 20 && ParseRfc3339Utc(value).Some?
    ensures Writable(t) && Fits(t, g) && value == PrintSigned(t, g)
  {
    hide Split, SplitFraction, Three, Field, FourDigits, ParseU32;
    FieldsBack(value);
    var f := Fields(value).value;
    YearBack(f[0]);
    FieldBack(f[1]);
    FieldBack(f[2]);
    FieldBack(f[3]);
    FieldBack(f[4]);
    FieldBack(f[5]);
    t := DateTime(
      ParseU32(f[0]).value, ParseU32(f[1]).value, ParseU32(f[2]).value,
      ParseU32(f[3]).value, ParseU32(f[4]).value, ParseU32(f[5]).value);
    g := Signs(f[1][0] == '+', f[2][0] == '+', f[3][0] == '+', f[4][0] == '+', f[5][0] == '+');
  }

  /** 20 characters are accepted exactly if they are a valid date-time written with a plus sign in place of
      the first digit of any of its fields below ten but the year, which the standard does not allow. */
  lemma AcceptedExactly(value: string)
    requires |value| == 20
    ensures ParseRfc3339Utc(value).Some? <==>
      exists t, g :: Writable(t) && Fits(t, g) && value == PrintSigned(t, g)
  {
    hide ParseRfc3339Utc, PrintSigned, ValidDateTime;
    if ParseRfc3339Utc(value).Some? {
      var t, g := SignedBack(value);
    }
    if t, g :| Writable(t) && Fits(t, g) && value == PrintSigned(t, g) {
      SignedRead(t, g);
    }
  }

  const UNSIGNED := Signs(false, false, false, false, false)

  lemma UnsignedIs(t: DateTime)
    requires Writable(t)
    ensures PrintSigned(t, UNSIGNED) == Print(t) && '+' !in Print(t)
  {
    hide Three, FourDigits, TwoDigits;
    PlainDigits(t);
    ThreePlus(FourDigits(t.year), TwoDigits(t.month), TwoDigits(t.day), '-');
    ThreePlus(TwoDigits(t.hour), TwoDigits(t.minute), TwoDigits(t.second), ':');
  }

  lemma PlainDigits(t: DateTime)
    requires Writable(t)
    ensures '+' !in FourDigits(t.year) && '+' !in TwoDigits(t.month) && '+' !in TwoDigits(t.day)
    ensures '+' !in TwoDigits(t.hour) && '+' !in TwoDigits(t.minute) && '+' !in TwoDigits(t.second)
  {
    hide FourDigits, TwoDigits, ParseU32;
    FourDigitsValue(t.year);
    TwoDigitsValue(t.month);
    TwoDigitsValue(t.day);
    TwoDigitsValue(t.hour);
    TwoDigitsValue(t.minute);
    TwoDigitsValue(t.second);
  }

  lemma ThreePlus(a: string, b: string, c: string, sep: char)
    requires sep != '+'
    ensures '+' in Three(a, b, c, sep) <==> '+' in a || '+' in b || '+' in c
  {
  }

  lemma SignShows(t: DateTime, g: Signs)
    requires Writable(t) && Fits(t, g) && '+' !in PrintSigned(t, g)
    ensures g == UNSIGNED
  {
    hide Three, FourDigits, TwoDigits;
    ThreePlus(FourDigits(t.year), Field(t.month, g.month), Field(t.day, g.day), '-');
    ThreePlus(Field(t.hour, g.hour), Field(t.minute, g.minute), Field(t.second, g.second), ':');
    assert '+' !in Field(t.month, g.month) && '+' !in Field(t.day, g.day);
    assert '+' !in Field(t.hour, g.hour) && '+' !in Field(t.minute, g.minute) && '+' !in Field(t.second, g.second);
  }

  /** What is accepted is the canonical form of a valid date-time exactly if it holds no plus sign. */
  lemma CanonicalExactly(value: string)
    requires |value| == 20 && ParseRfc3339Utc(value).Some?
    ensures (exists t :: Writable(t) && value == Print(t)) <==> '+' !in value
  {
    hide ParseRfc3339Utc, PrintSigned, Print, ValidDateTime;
    if '+' !in value {
      var t, g := SignedBack(value);
      SignShows(t, g);
      UnsignedIs(t);
    }
    if t :| Writable(t) && value == Print(t) {
      UnsignedIs(t);
    }
  }

  /** A 20-character string without a plus sign in it is accepted exactly if it is the canonical form of a
      valid date-time. */
  lemma CanonicalUnlessPlus(value: string)
    requires |value| == 20 && '+' !in value
    ensures ParseRfc3339Utc(value).Some? <==> exists t :: Writable(t) && value == Print(t)
  {
    hide ParseRfc3339Utc, Print, ValidDateTime;
    if ParseRfc3339Utc(value).Some? {
      CanonicalExactly(value);
    }
    if t :| Writable(t) && value == Print(t) {
      ParsePrinted(t);
    }
  }

  /** For example `+1` to `+9` are read as months. */
  lemma PlusMonthAccepted(t: DateTime)
    requires Writable(t) && t.month <= 9
    ensures var value := PrintSigned(t, UNSIGNED.(month := true));
      ParseRfc3339Utc(value) == Some(Seconds(t)) && value[5] == '+' && value != Print(t)
  {
    var g := UNSIGNED.(month := true);
    var year, month, day := FourDigits(t.year), Field(t.month, true), Field(t.day, false);
    var time := Three(Field(t.hour, false), Field(t.minute, false), Field(t.second, false), ':');
    assert month[0] == '+' && |year| == 4;
    hide ParseRfc3339Utc, Print, Three, FourDigits, Field, TwoDigits, Seconds;
    SignedRead(t, g);
    UnsignedIs(t);
    assert PrintSigned(t, g) == Three(year, month, day, '-') + "T" + time + "Z";
    hide PrintSigned, ValidDateTime;
    TimeLast(Three(year, month, day, '-'), time);
    SecondPart(year, month, day, '-', "T" + time + "Z");
  }

  lemma TimeLast(date: string, time: string)
    ensures date + "T" + time + "Z" == date + ("T" + time + "Z")
  {
  }

  lemma SecondPart(a: string, b: string, c: string, sep: char, rest: string)
    requires b != ""
    ensures |a| + 1 < |Three(a, b, c, sep) + rest| && (Three(a, b, c, sep) + rest)[|a| + 1] == b[0]
    ensures b[0] in Three(a, b, c, sep) + rest
  {
    assert Three(a, b, c, sep)[|a| + 1] == b[0];
  }

  // ---------------------------------------------------------------------------------------------
  // Fractions of a second
  // ---------------------------------------------------------------------------------------------

  lemma DotAfter(clock: string, fraction: string)
    requires '.' !in clock
    ensures SplitFraction(clock + "." + fraction) == (clock, Some(fraction))
    ensures SplitFraction(clock) == (clock, None)
  {
    var time := clock + "." + fraction;
    NoDot(clock);
    assert time[|clock|..|clock| + 1] == ".";
    forall j | 0 <= j < |clock|
      ensures !At(time, ".", j)
    {
      assert time[j..j + 1][0] == time[j] == clock[j] && clock[j] in clock;
    }
    FindIs(time, ".", |clock|);
    Slices(clock, ".", fraction);
  }

  /** A fraction is digits behind a dot; it must not be empty, and does not count. */
  lemma FractionIs(head: string, fraction: string)
    requires |head| == 19 && '.' !in head[11..]
    ensures ParseRfc3339Utc(head + "." + fraction + "Z") ==
            if fraction != "" && AllDigits(fraction) then ParseRfc3339Utc(head + "Z") else None
  {
    var short, long := head + "Z", head + "." + fraction + "Z";
    var clock := head[11..];
    DotAfter(clock, fraction);
    assert short[..10] == head[..10] && long[..10] == head[..10];
    assert short[10] == head[10] && long[10] == head[10];
    assert short[11..|short| - 1] == clock;
    assert long[11..|long| - 1] == clock + "." + fraction;
    hide SplitFraction, AllDigits, ParseU32;
  }

  /** Nothing but a fraction can make an accepted text longer than twenty characters. */
  lemma LongerHasFraction(value: string)
    requires |value| > 20 && ParseRfc3339Utc(value).Some?
    ensures value[19] == '.' && '.' !in value[11..19]
    ensures value == value[..19] + "." + value[20..|value| - 1] + "Z"
  {
    var time := value[11..|value| - 1];
    ThreeParts(SplitFraction(time).0, ':');
    assert |SplitFraction(time).0| == 8;
    assert value[|value| - 1] == 'Z';
    hide ParseRfc3339Utc, Fields;
    DotAtEight(time);
    assert time[8] == value[19] && time[..8] == value[11..19];
  }

  lemma DotAtEight(time: string)
    requires |SplitFraction(time).0| == 8 < |time|
    ensures time[8] == '.' && '.' !in time[..8]
  {
    AtChar(time, ".", 8, 0);
    forall j | 0 <= j < 8
      ensures time[j] != '.'
    {
      assert !At(time, ".", j);
      assert time[j..j + 1] == [time[j]];
    }
  }
}
