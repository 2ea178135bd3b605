/**
 Rule text letter by letter: how a record is written, what number a weekday list is, and
 what a text says part by part, whoever wrote it.
 */
module RuleTexts {
  import opened Strconv
  import opened Text
  import opened Recurrence

  // ---------- weekday masks ----------

  function Bit(present: bool, value: nat): nat {
    if present then value else 0
  }

  /** DayOfWeek of MS-ASCAL: Sunday 1, Monday 2, and so on to Saturday 64. */
  function DayOfWeek(days: seq<string>): nat {
    Bit("SU" in days, 1) + Bit("MO" in days, 2) + Bit("TU" in days, 4) + Bit("WE" in days, 8) + Bit("TH" in days, 16) +
    Bit("FR" in days, 32) + Bit("SA" in days, 64)
  }

  lemma BitsOf(mask: int, m1: int, m2: int, m3: int, m4: int, m5: int, m6: int)
    requires m1 == mask / 2 && m2 == m1 / 2 && m3 == m2 / 2 && m4 == m3 / 2 && m5 == m4 / 2 && m6 == m5 / 2
    ensures (Has(mask, 0) <==> mask % 2 == 1) && (Has(mask, 1) <==> m1 % 2 == 1) && (Has(mask, 2) <==> m2 % 2 == 1)
    ensures (Has(mask, 3) <==> m3 % 2 == 1) && (Has(mask, 4) <==> m4 % 2 == 1) && (Has(mask, 5) <==> m5 % 2 == 1)
    ensures Has(mask, 6) <==> m6 % 2 == 1
  {
    assert Has(m4, 2) == Has(m5, 1) == Has(m6, 0);
    assert Has(m1, 5) == Has(m2, 4) == Has(m3, 3) == Has(m4, 2);
    assert Has(m1, 4) == Has(m2, 3) == Has(m3, 2) == Has(m4, 1) == Has(m5, 0);
    assert Has(m1, 3) == Has(m2, 2) == Has(m3, 1) == Has(m4, 0);
    assert Has(m1, 2) == Has(m2, 1) == Has(m3, 0);
  }

  lemma Halved(m: int, half: int, b: bool)
    requires half == m / 2 && (b <==> m % 2 == 1)
    ensures m == 2 * half + Bit(b, 1)
  {
  }

  lemma SumOfSeven(m0: int, m1: int, m2: int, m3: int, m4: int, m5: int, m6: int,
                   b0: bool, b1: bool, b2: bool, b3: bool, b4: bool, b5: bool, b6: bool)
    requires m0 == 2 * m1 + Bit(b0, 1) && m1 == 2 * m2 + Bit(b1, 1) && m2 == 2 * m3 + Bit(b2, 1)
    requires m3 == 2 * m4 + Bit(b3, 1) && m4 == 2 * m5 + Bit(b4, 1) && m5 == 2 * m6 + Bit(b5, 1) && m6 == Bit(b6, 1)
    ensures m0 == Bit(b0, 1) + Bit(b1, 2) + Bit(b2, 4) + Bit(b3, 8) + Bit(b4, 16) + Bit(b5, 32) + Bit(b6, 64)
  {
    assert m4 == Bit(b4, 1) + Bit(b5, 2) + Bit(b6, 4);
    assert m2 == Bit(b2, 1) + Bit(b3, 2) + Bit(b4, 4) + Bit(b5, 8) + Bit(b6, 16);
  }

  /** The mask of a weekday list is the sum of its days' values, each counted once. */
  lemma MaskIsDayOfWeek(days: seq<string>)
    ensures MaskOf(days) == DayOfWeek(days)
  {
    var mask := MaskOf(days);
    MaskBound(days);
    var m1 := mask / 2;
    var m2 := m1 / 2;
    var m3 := m2 / 2;
    var m4 := m3 / 2;
    var m5 := m4 / 2;
    BitsOf(mask, m1, m2, m3, m4, m5, m5 / 2);
    MaskBits(days, 0);
    MaskBits(days, 1);
    MaskBits(days, 2);
    MaskBits(days, 3);
    MaskBits(days, 4);
    MaskBits(days, 5);
    MaskBits(days, 6);
var m6 := m5 / 2;
    var su, mo, tu, we, th, fr, sa :=
      "SU" in days, "MO" in days, "TU" in days, "WE" in days, "TH" in days, "FR" in days, "SA" in days;
    Halved(mask, m1, su);
    Halved(m1, m2, mo);
    Halved(m2, m3, tu);
    Halved(m3, m4, we);
    Halved(m4, m5, th);
    Halved(m5, m6, fr);
    Halved(m6, 0, sa);
    SumOfSeven(mask, m1, m2, m3, m4, m5, m6, su, mo, tu, we, th, fr, sa);
  }

  function Token(present: bool, day: string): seq<string> {
    if present then [day] else []
  }

  /** The weekdays of a mask, Sunday first, by the bits of its value. */
  function WeekdaysIn(mask: int): seq<string> {
    var m1 := mask / 2;
    var m2 := m1 / 2;
    var m3 := m2 / 2;
    var m4 := m3 / 2;
    var m5 := m4 / 2;
    var m6 := m5 / 2;
    Token(mask % 2 == 1, "SU") + Token(m1 % 2 == 1, "MO") + Token(m2 % 2 == 1, "TU") + Token(m3 % 2 == 1, "WE") +
    Token(m4 % 2 == 1, "TH") + Token(m5 % 2 == 1, "FR") + Token(m6 % 2 == 1, "SA")
  }

  lemma DaysOfMask(mask: int)
    ensures DaysOf(mask, 7) == WeekdaysIn(mask)
  {
    var m1 := mask / 2;
    var m2 := m1 / 2;
    var m3 := m2 / 2;
    var m4 := m3 / 2;
    var m5 := m4 / 2;
    BitsOf(mask, m1, m2, m3, m4, m5, m5 / 2);
    assert DaysOf(mask, 0) == [];
    assert DaysOf(mask, 1) == Token(Has(mask, 0), "SU");
    assert DaysOf(mask, 2) == DaysOf(mask, 1) + Token(Has(mask, 1), "MO");
    assert DaysOf(mask, 3) == DaysOf(mask, 2) + Token(Has(mask, 2), "TU");
    assert DaysOf(mask, 4) == DaysOf(mask, 3) + Token(Has(mask, 3), "WE");
    assert DaysOf(mask, 5) == DaysOf(mask, 4) + Token(Has(mask, 4), "TH");
    assert DaysOf(mask, 6) == DaysOf(mask, 5) + Token(Has(mask, 5), "FR");
    assert DaysOf(mask, 7) == DaysOf(mask, 6) + Token(Has(mask, 6), "SA");
  }

  // ---------- instants ----------

  lemma DateText(c: Civil)
    ensures var s := FormatDate(c);
            DigitsValue(s[..4]) == c.year && DigitsValue(s[4..6]) == c.month && DigitsValue(s[6..8]) == c.day
  {
    var s := FormatDate(c);
    assert s[..4] == Pad2(c.year / 100) + Pad2(c.year % 100);
    FourDigits(c.year / 100, c.year % 100);
    assert s[4..6] == Pad2(c.month) && s[6..8] == Pad2(c.day);
    TwoDigits(c.month);
    TwoDigits(c.day);
  }

  lemma ClockText(c: Civil)
    ensures var s := FormatClock(c);
            DigitsValue(s[..2]) == c.hour && DigitsValue(s[2..4]) == c.minute && DigitsValue(s[4..6]) == c.second
  {
    var s := FormatClock(c);
    assert s[..2] == Pad2(c.hour) && s[2..4] == Pad2(c.minute) && s[4..6] == Pad2(c.second);
    TwoDigits(c.hour);
    TwoDigits(c.minute);
    TwoDigits(c.second);
  }

  /** Four digits of year, two each of month and day, a T, two each of hour, minute and second, a Z. */
  lemma InstantText(c: Civil) returns (date: string, clock: string)
    ensures FormatCivil(c) == date + "T" + clock + "Z" && |date| == 8 && |clock| == 6 && AllDigits(date + clock)
    ensures AllDigits(date[..4]) && AllDigits(date[4..6]) && AllDigits(date[6..8])
    ensures AllDigits(clock[..2]) && AllDigits(clock[2..4]) && AllDigits(clock[4..6])
    ensures DigitsValue(date[..4]) == c.year && DigitsValue(date[4..6]) == c.month && DigitsValue(date[6..8]) == c.day
    ensures DigitsValue(clock[..2]) == c.hour && DigitsValue(clock[2..4]) == c.minute
    ensures DigitsValue(clock[4..6]) == c.second
  {
    date, clock := FormatDate(c), FormatClock(c);
    DateText(c);
    ClockText(c);
  }

  lemma PadsBack(s: string)
    requires |s| == 2 && AllDigits(s)
    ensures Num2(s) < 100 && Pad2(Num2(s)) == s
  {
    assert DigitChar(DigitValue(s[0])) == s[0] && DigitChar(DigitValue(s[1])) == s[1];
  }

  lemma DateReads(date: string, c: Civil)
    requires |date| == 8 && AllDigits(date)
    requires c.year == 100 * Num2(date[..2]) + Num2(date[2..4]) && c.month == Num2(date[4..6])
    requires c.day == Num2(date[6..8])
    ensures FormatDate(c) == date
  {
    PadsBack(date[..2]);
    PadsBack(date[2..4]);
    PadsBack(date[4..6]);
    PadsBack(date[6..8]);
    YearParts(Num2(date[..2]), Num2(date[2..4]));
    assert date == date[..2] + date[2..4] + date[4..6] + date[6..8];
  }

  lemma ClockReads(clock: string, c: Civil)
    requires |clock| == 6 && AllDigits(clock)
    requires c.hour == Num2(clock[..2]) && c.minute == Num2(clock[2..4]) && c.second == Num2(clock[4..6])
    ensures FormatClock(c) == clock
  {
    PadsBack(clock[..2]);
    PadsBack(clock[2..4]);
    PadsBack(clock[4..6]);
    assert clock == clock[..2] + clock[2..4] + clock[4..6];
  }

  /** A local date-time reads exactly when it is the first fifteen letters of an instant's text. */
  lemma LocalIff(s: string, c: Civil)
    ensures ParseLocal(s) == Some(c) <==> s == FormatCivil(c)[..15]
  {
    ParseFormatCivil(c);
    assert FormatCivil(c)[15] == 'Z';
    if ParseLocal(s) == Some(c) {
      DateReads(s[..8], c);
      ClockReads(s[9..], c);
      assert s == s[..8] + "T" + s[9..];
    }
  }

  lemma YearParts(a: nat, b: nat)
    requires a < 100 && b < 100
    ensures (100 * a + b) / 100 == a && (100 * a + b) % 100 == b
  {
  }

  /** An UNTIL value: an instant, the same without its Z, or the date of a midnight. */
  lemma UntilIff(s: string, c: Civil)
    ensures ParseUntil(s) == Some(c) <==>
            || s == FormatCivil(c) || s == FormatCivil(c)[..15]
            || (s == FormatCivil(c)[..8] && c.hour == c.minute == c.second == 0)
  {
    var full := FormatCivil(c);
    assert full == full[..15] + "Z";
    LocalIff(s, c);
    if |s| == 16 {
      LocalIff(s[..15], c);
      assert s[15] == 'Z' ==> s == s[..15] + "Z";
    }
    LocalIff(s + "T000000", c);
    assert full[..15] == FormatDate(c) + "T" + FormatClock(c);
    assert full[..8] == FormatDate(c);
    MidnightIff(c);
    if s + "T000000" == full[..15] {
      assert (s + "T000000")[..8] == full[..8] && |s| == 8;
      assert FormatClock(c) == (s + "T000000")[9..];
    }
  }

  /** A device's time: an instant's text and nothing else. */
  lemma UtcIff(s: string, c: Civil)
    ensures ParseUtc(s) == Some(c) <==> s == FormatCivil(c)
  {
    assert FormatCivil(c) == FormatCivil(c)[..15] + "Z";
    if |s| == 16 {
      LocalIff(s[..15], c);
      assert s[15] == 'Z' ==> s == s[..15] + "Z";
    }
  }

  lemma MidnightIff(c: Civil)
    ensures FormatClock(c) == "000000" <==> c.hour == c.minute == c.second == 0
  {
    var s := FormatClock(c);
    assert s[..2] == Pad2(c.hour) && s[2..4] == Pad2(c.minute) && s[4..6] == Pad2(c.second);
    assert Pad2(0) == "00";
    if s == "000000" {
      assert s[..2] == "00" && s[2..4] == "00" && s[4..6] == "00";
      assert Num2("00") == 0;
    }
  }

  lemma OneDigit(c: char)
    requires IsDigit(c)
    ensures DigitsValue([c]) == DigitValue(c)
  {
    assert [c][..0] == [];
  }

  lemma TwoDigits(n: nat)
    requires n < 100
    ensures DigitsValue(Pad2(n)) == n
  {
    var s := Pad2(n);
    assert s[..1] == [s[0]];
    OneDigit(s[0]);
    assert DigitsValue(s) == 10 * DigitsValue(s[..1]) + DigitValue(s[1]);
  }

  lemma FourDigits(a: nat, b: nat)
    requires a < 100 && b < 100
    ensures DigitsValue(Pad2(a) + Pad2(b)) == 100 * a + b
  {
    var p, q := Pad2(a), Pad2(b);
    var s := p + q;
    assert s[..3] == p + q[..1] && s[..3][..2] == p && s[2] == q[0] && s[3] == q[1];
    TwoDigits(a);
    TwoDigits(b);
    assert DigitsValue(s) == 10 * DigitsValue(s[..3]) + DigitValue(q[1]);
    assert DigitsValue(s[..3]) == 10 * DigitsValue(p) + DigitValue(q[0]);
  }

  // ---------- writing ----------

  function Part(present: bool, name: string, val: string): string {
    if present then ";" + name + "=" + val else ""
  }

  lemma TextOpt(es: seq<Entry>, present: bool, key: Key, val: string)
    requires es != []
    ensures TextOf(es + Opt(present, key, val)) == TextOf(es) + Part(present, KeyName(key), val)
  {
    if present {
      TextSnoc(es, Entry(key, val));
      assert ";" + Printed(Entry(key, val)) == Part(true, KeyName(key), val);
    } else {
      assert es + Opt(present, key, val) == es;
      assert TextOf(es) + "" == TextOf(es);
    }
  }

  lemma TextOptThree(es: seq<Entry>, p: bool, k: Key, v: string, p': bool, k': Key, v': string,
                     p'': bool, k'': Key, v'': string)
    requires es != []
    ensures TextOf(es + Opt(p, k, v) + Opt(p', k', v') + Opt(p'', k'', v'')) ==
            TextOf(es) + Part(p, KeyName(k), v) + Part(p', KeyName(k'), v') + Part(p'', KeyName(k''), v'')
  {
    TextOpt(es, p, k, v);
    TextOpt(es + Opt(p, k, v), p', k', v');
    TextOpt(es + Opt(p, k, v) + Opt(p', k', v'), p'', k'', v'');
  }

  lemma NamesWritten()
    ensures KeyName(Interval) == "INTERVAL" && KeyName(Count) == "COUNT" && KeyName(Until) == "UNTIL"
    ensures KeyName(Days) == "BYDAY" && KeyName(MonthDay) == "BYMONTHDAY" && KeyName(Month) == "BYMONTH"
  {
  }

  lemma BoundsWritten(r: Rec)
    ensures TextOf(Bounds(r)) ==
            "FREQ=" + r.freq + Part(r.interval > 1, "INTERVAL", FormatInt(r.interval)) +
            Part(r.count > 0, "COUNT", FormatInt(r.count)) + Part(r.until != ZERO, "UNTIL", FormatCivil(r.until))
  {
    var freq := [Entry(Freq, r.freq)];
    assert TextOf(freq) == "FREQ=" + r.freq;
    NamesWritten();
    TextOptThree(freq, r.interval > 1, Interval, FormatInt(r.interval), r.count > 0, Count, FormatInt(r.count),
                 r.until != ZERO, Until, FormatCivil(r.until));
  }

  /** The rule text of a record, letter by letter. */
  lemma RuleWritten(r: Rec)
    ensures RuleText(r) ==
            "FREQ=" + r.freq + Part(r.interval > 1, "INTERVAL", FormatInt(r.interval)) +
            Part(r.count > 0, "COUNT", FormatInt(r.count)) + Part(r.until != ZERO, "UNTIL", FormatCivil(r.until)) +
            Part(r.weekdays != [], "BYDAY", DaysText(r)) + Part(r.monthDay != 0, "BYMONTHDAY", FormatInt(r.monthDay)) +
            Part(r.month != 0, "BYMONTH", FormatInt(r.month))
  {
    BoundsWritten(r);
    NamesWritten();
    TextOptThree(Bounds(r), r.weekdays != [], Days, DaysText(r), r.monthDay != 0, MonthDay, FormatInt(r.monthDay),
                 r.month != 0, Month, FormatInt(r.month));
  }

  /** The BYDAY value: the weekdays with commas between them, each behind the ordinal if there is one. */
  lemma DaysWritten(r: Rec, tokens: seq<string>)
    requires |tokens| == |r.weekdays|
    requires forall i :: 0 <= i < |tokens| ==>
               tokens[i] == (if r.setPos == 0 then "" else FormatInt(r.setPos)) + r.weekdays[i]
    ensures DaysText(r) == Join(tokens, ',')
  {
    assert tokens == DayTokens(r.weekdays, r.setPos);
  }

  // ---------- reading ----------

  /** The blanks trimmed off names, frequencies and tokens. */
  predicate IsBlank(c: char) {
    c in "\t\n\r " || c as int == 0x0b || c as int == 0x0c || c as int == 0x85 || c as int == 0xa0
  }

  lemma BlankIff(c: char)
    ensures IsSpace(c) <==> IsBlank(c)
  {
  }

  ghost predicate IsTrimmed(s: string, i: nat, j: nat) {
    && i <= j <= |s| && (forall k :: 0 <= k < i || j <= k < |s| ==> IsBlank(s[k]))
    && (i < j ==> !IsBlank(s[i]) && !IsBlank(s[j - 1]))
  }

  lemma TrimmedFront(s: string, i: nat, j: nat)
    requires s != "" && IsBlank(s[0]) && IsTrimmed(s[1..], i, j)
    ensures IsTrimmed(s, i + 1, j + 1) && s[1..][i..j] == s[i + 1..j + 1]
  {
    forall k | 0 <= k <= i || j < k < |s| ensures IsBlank(s[k]) {
      assert k > 0 ==> s[k] == s[1..][k - 1];
    }
  }

  lemma TrimmedBack(s: string, i: nat, j: nat)
    requires s != "" && IsBlank(s[|s| - 1]) && IsTrimmed(s[..|s| - 1], i, j)
    ensures IsTrimmed(s, i, j) && s[..|s| - 1][i..j] == s[i..j]
  {
    forall k | 0 <= k < i || j <= k < |s| ensures IsBlank(s[k]) {
      assert k < |s| - 1 ==> s[k] == s[..|s| - 1][k];
    }
  }

  /** Trimming cuts the blanks off both ends and nothing else. */
  lemma {:induction false} TrimSays(s: string) returns (i: nat, j: nat)
    ensures IsTrimmed(s, i, j) && Trim(s) == s[i..j]
  {
    i, j := 0, |s|;
    if s != "" {
      BlankIff(s[0]);
      BlankIff(s[|s| - 1]);
      if IsSpace(s[0]) {
        i, j := TrimSays(s[1..]);
        TrimmedFront(s, i, j);
        i, j := i + 1, j + 1;
      } else if IsSpace(s[|s| - 1]) {
        i, j := TrimSays(s[..|s| - 1]);
        TrimmedBack(s, i, j);
      }
    }
  }

  /** A part's name, blanks and case aside, and its value: what stands before and after its first '='. */
  function Named(part: string): Option<(string, string)> {
    match Cut(part, '=')
    case None => None
    case Some((name, val)) => Some((Upper(Trim(name)), val))
  }

  predicate Says(part: string, says: (string, string) -> bool) {
    Named(part).Some? && says(Named(part).value.0, Named(part).value.1)
  }

  /** Part i is the last one that says something about a field. */
  ghost predicate Decides(parts: seq<string>, says: (string, string) -> bool, i: int) {
    && 0 <= i < |parts| && Says(parts[i], says)
    && forall j :: i < j < |parts| ==> !Says(parts[j], says)
  }

  ghost predicate Silent(parts: seq<string>, says: (string, string) -> bool) {
    forall j :: 0 <= j < |parts| ==> !Says(parts[j], says)
  }

  /** The record after one part more. */
  ghost function Told(r: Rec, part: string): Rec {
    if ReadPart(part).Some? then SetPart(r, ReadPart(part).value) else r
  }

  /** A part changes a field exactly by what it says about it. */
  ghost predicate Reads<T(!new)>(get: Rec -> T, says: (string, string) -> bool, read: (string, string) -> T) {
    forall r, part ::
      get(Told(r, part)) == if Says(part, says) then read(Named(part).value.0, Named(part).value.1) else get(r)
  }

  /** Of the parts that say something about a field the last one counts; without any it has its default. */
  ghost predicate Follows<T>(parts: seq<string>, says: (string, string) -> bool, read: (string, string) -> T,
                             value: T, default: T) {
    && (Silent(parts, says) ==> value == default)
    && forall i :: Decides(parts, says, i) ==> value == read(Named(parts[i]).value.0, Named(parts[i]).value.1)
  }

  /** The record the parts add up to. */
  ghost function After(parts: seq<string>): Rec {
    SetParts(BLANK, ReadParts(parts))
  }

  lemma AfterLast(parts: seq<string>)
    requires parts != []
    ensures After(parts) == Told(After(parts[..|parts| - 1]), parts[|parts| - 1])
  {
    assert ReadParts(parts)[..|parts| - 1] == ReadParts(parts[..|parts| - 1]);
  }

  lemma AfterNone()
    ensures After([]) == BLANK
  {
    assert ReadParts([]) == [];
  }

  lemma FollowsNext<T>(parts: seq<string>, says: (string, string) -> bool, read: (string, string) -> T, value: T,
                       default: T, part: string)
    requires Follows(parts, says, read, value, default)
    ensures var value' := if Says(part, says) then read(Named(part).value.0, Named(part).value.1) else value;
            Follows(parts + [part], says, read, value', default)
  {
    var parts' := parts + [part];
    if Silent(parts', says) {
      assert parts'[|parts|] == part;
      forall j | 0 <= j < |parts| ensures !Says(parts[j], says) {
        assert parts'[j] == parts[j];
      }
    }
    forall i | Decides(parts', says, i) && i < |parts| ensures Decides(parts, says, i) && !Says(part, says) {
      assert parts'[|parts|] == part;
      forall j | i < j < |parts| ensures !Says(parts[j], says) {
        assert parts'[j] == parts[j];
      }
    }
  }

  lemma {:induction false} LastCounts<T(!new)>(parts: seq<string>, get: Rec -> T, says: (string, string) -> bool,
                                               read: (string, string) -> T)
    requires Reads(get, says, read)
    ensures Follows(parts, says, read, get(After(parts)), get(BLANK))
  {
    if parts == [] {
      AfterNone();
    } else {
      var init, last := parts[..|parts| - 1], parts[|parts| - 1];
      var before := After(init);
      LastCounts(init, get, says, read);
      AfterLast(parts);
      FollowsNext(init, says, read, get(before), get(BLANK), last);
      assert get(Told(before, last)) ==
             if Says(last, says) then read(Named(last).value.0, Named(last).value.1) else get(before);
      assert init + [last] == parts;
    }
  }

  // ---------- the eight parameters ----------

  predicate PositiveFor(name: string, n: string, v: string) {
    n == name && ParseInt(v).Some? && ParseInt(v).value > 0
  }

  predicate NumberFor(name: string, n: string, v: string) {
    n == name && ParseInt(v).Some?
  }

  function Number(n: string, v: string): int {
    if ParseInt(v).Some? then ParseInt(v).value else 0
  }

  function Frequency(n: string, v: string): string {
    Upper(Trim(v))
  }

  function Instant(n: string, v: string): Civil {
    if ParseUntil(v).Some? then ParseUntil(v).value else ZERO
  }

  ghost function Weekdays(n: string, v: string): seq<string> {
    AddTokens(NO_DAYS, ReadTokens(v)).days
  }

  /** BYDAY sets the ordinal as well, to the last one its tokens carry or to none. */
  ghost function Ordinal(n: string, v: string): int {
    if n == "BYDAY" then AddTokens(NO_DAYS, ReadTokens(v)).setPos else Number(n, v)
  }

  /** What a part of that name and value does to the record. */
  ghost function Set(r: Rec, n: string, v: string): Rec {
    if KeyOf(n).Some? then SetPart(r, Entry(KeyOf(n).value, v)) else r
  }

  lemma ToldSets(r: Rec, part: string)
    ensures Told(r, part) == if Named(part).Some? then Set(r, Named(part).value.0, Named(part).value.1) else r
  {
  }

  lemma SetCounts(r: Rec, n: string, v: string)
    ensures Set(r, n, v).interval == if PositiveFor("INTERVAL", n, v) then Number(n, v) else r.interval
    ensures Set(r, n, v).count == if PositiveFor("COUNT", n, v) then Number(n, v) else r.count
  {
  }

  lemma SetPins(r: Rec, n: string, v: string)
    ensures Set(r, n, v).monthDay == if NumberFor("BYMONTHDAY", n, v) then Number(n, v) else r.monthDay
    ensures Set(r, n, v).month == if NumberFor("BYMONTH", n, v) then Number(n, v) else r.month
  {
  }

  lemma SetDays(r: Rec, n: string, v: string)
    ensures Set(r, n, v).weekdays == if n == "BYDAY" then Weekdays(n, v) else r.weekdays
    ensures Set(r, n, v).setPos == if n == "BYDAY" || NumberFor("BYSETPOS", n, v) then Ordinal(n, v) else r.setPos
  {
  }

  lemma SetRest(r: Rec, n: string, v: string)
    ensures Set(r, n, v).freq == if n == "FREQ" then Frequency(n, v) else r.freq
    ensures Set(r, n, v).until == if n == "UNTIL" && ParseUntil(v).Some? then Instant(n, v) else r.until
  {
  }

  lemma CountsSaid(parts: seq<string>)
    ensures var r := After(parts);
            && Follows(parts, (n, v) => PositiveFor("INTERVAL", n, v), Number, r.interval, 1)
            && Follows(parts, (n, v) => PositiveFor("COUNT", n, v), Number, r.count, 0)
  {
    var interval := (n, v) => PositiveFor("INTERVAL", n, v);
    var count := (n, v) => PositiveFor("COUNT", n, v);
    forall r, part
      ensures Told(r, part).interval ==
              if Says(part, interval) then Number(Named(part).value.0, Named(part).value.1) else r.interval
      ensures Told(r, part).count ==
              if Says(part, count) then Number(Named(part).value.0, Named(part).value.1) else r.count
    {
      ToldSets(r, part);
      if Named(part).Some? {
        SetCounts(r, Named(part).value.0, Named(part).value.1);
      }
    }
    LastCounts(parts, (r: Rec) => r.interval, interval, Number);
    LastCounts(parts, (r: Rec) => r.count, count, Number);
  }

  lemma PinsSaid(parts: seq<string>)
    ensures var r := After(parts);
            && Follows(parts, (n, v) => NumberFor("BYMONTHDAY", n, v), Number, r.monthDay, 0)
            && Follows(parts, (n, v) => NumberFor("BYMONTH", n, v), Number, r.month, 0)
  {
    var monthDay := (n, v) => NumberFor("BYMONTHDAY", n, v);
    var month := (n, v) => NumberFor("BYMONTH", n, v);
    forall r, part
      ensures Told(r, part).monthDay ==
              if Says(part, monthDay) then Number(Named(part).value.0, Named(part).value.1) else r.monthDay
      ensures Told(r, part).month ==
              if Says(part, month) then Number(Named(part).value.0, Named(part).value.1) else r.month
    {
      ToldSets(r, part);
      if Named(part).Some? {
        SetPins(r, Named(part).value.0, Named(part).value.1);
      }
    }
    LastCounts(parts, (r: Rec) => r.monthDay, monthDay, Number);
    LastCounts(parts, (r: Rec) => r.month, month, Number);
  }

  lemma DaysSaid(parts: seq<string>)
    ensures var r := After(parts);
            && Follows(parts, (n, v) => n == "BYDAY", Weekdays, r.weekdays, [])
            && Follows(parts, (n, v) => n == "BYDAY" || NumberFor("BYSETPOS", n, v), Ordinal, r.setPos, 0)
  {
    var weekdays := (n, v) => n == "BYDAY";
    var setPos := (n, v) => n == "BYDAY" || NumberFor("BYSETPOS", n, v);
    forall r, part
      ensures Told(r, part).weekdays ==
              if Says(part, weekdays) then Weekdays(Named(part).value.0, Named(part).value.1) else r.weekdays
      ensures Told(r, part).setPos ==
              if Says(part, setPos) then Ordinal(Named(part).value.0, Named(part).value.1) else r.setPos
    {
      ToldSets(r, part);
      if Named(part).Some? {
        SetDays(r, Named(part).value.0, Named(part).value.1);
      }
    }
    LastCounts(parts, (r: Rec) => r.weekdays, weekdays, Weekdays);
    LastCounts(parts, (r: Rec) => r.setPos, setPos, Ordinal);
  }

  lemma RestSaid(parts: seq<string>)
    ensures var r := After(parts);
            && Follows(parts, (n, v) => n == "FREQ", Frequency, r.freq, "")
            && Follows(parts, (n, v) => n == "UNTIL" && ParseUntil(v).Some?, Instant, r.until, ZERO)
  {
    var freq := (n, v) => n == "FREQ";
    var until := (n, v) => n == "UNTIL" && ParseUntil(v).Some?;
    forall r, part
      ensures Told(r, part).freq ==
              if Says(part, freq) then Frequency(Named(part).value.0, Named(part).value.1) else r.freq
      ensures Told(r, part).until ==
              if Says(part, until) then Instant(Named(part).value.0, Named(part).value.1) else r.until
    {
      ToldSets(r, part);
      if Named(part).Some? {
        SetRest(r, Named(part).value.0, Named(part).value.1);
      }
    }
    LastCounts(parts, (r: Rec) => r.freq, freq, Frequency);
    LastCounts(parts, (r: Rec) => r.until, until, Instant);
  }

  /**
   What a rule text says, whoever wrote it: of the parts that name a parameter and give it a
   value the code takes, the last one counts, and a parameter without one has its default.
   A text is a rule exactly when it says a frequency that is not blank.
   */
  lemma RuleSays(text: string)
    ensures var parts, r := Split(text, ';'), After(Split(text, ';'));
            && (RuleOf(text) == if r.freq == "" then None else Some(r))
            && Follows(parts, (n, v) => n == "FREQ", Frequency, r.freq, "")
            && Follows(parts, (n, v) => PositiveFor("INTERVAL", n, v), Number, r.interval, 1)
            && Follows(parts, (n, v) => PositiveFor("COUNT", n, v), Number, r.count, 0)
            && Follows(parts, (n, v) => n == "UNTIL" && ParseUntil(v).Some?, Instant, r.until, ZERO)
            && Follows(parts, (n, v) => n == "BYDAY", Weekdays, r.weekdays, [])
            && Follows(parts, (n, v) => n == "BYDAY" || NumberFor("BYSETPOS", n, v), Ordinal, r.setPos, 0)
            && Follows(parts, (n, v) => NumberFor("BYMONTHDAY", n, v), Number, r.monthDay, 0)
            && Follows(parts, (n, v) => NumberFor("BYMONTH", n, v), Number, r.month, 0)
  {
    var parts := Split(text, ';');
    RestSaid(parts);
    CountsSaid(parts);
    DaysSaid(parts);
    PinsSaid(parts);
  }

  // ---------- a BYDAY value ----------

  /** A token, blanks aside, is an ordinal of signs and digits, as many as there are, and a weekday in any case. */
  lemma {:induction false} OrdinalEndIs(s: string)
    ensures forall j :: 0 <= j < OrdinalEnd(s) ==> s[j] in "+-0123456789"
    ensures OrdinalEnd(s) < |s| ==> s[OrdinalEnd(s)] !in "+-0123456789"
  {
    if s != "" && IsOrdinalChar(s[0]) {
      OrdinalEndIs(s[1..]);
      forall j | 0 < j < OrdinalEnd(s) ensures s[j] in "+-0123456789" {
        assert s[j] == s[1..][j - 1];
      }
    }
  }

  lemma TokenSays(token: string) returns (i: nat)
    ensures var tok := Trim(token);
            && i <= |tok| && (forall j :: 0 <= j < i ==> tok[j] in "+-0123456789")
            && (i < |tok| ==> tok[i] !in "+-0123456789")
            && ReadToken(token).day == Upper(tok[i..])
            && ReadToken(token).ordinal == if i > 0 then ParseInt(tok[..i]) else None
  {
    i := OrdinalEnd(Trim(token));
    OrdinalEndIs(Trim(token));
  }

  /** The weekdays that are not blank, in order. */
  function DaysAmong(tokens: seq<Recurrence.Token>): seq<string> {
    if tokens == [] then []
    else if tokens[0].day == "" then DaysAmong(tokens[1..])
    else [tokens[0].day] + DaysAmong(tokens[1..])
  }

  lemma {:induction false} DaysAmongLast(tokens: seq<Recurrence.Token>, t: Recurrence.Token)
    ensures DaysAmong(tokens + [t]) == DaysAmong(tokens) + if t.day == "" then [] else [t.day]
  {
    if tokens == [] {
      assert tokens + [t] == [t];
    } else {
      assert (tokens + [t])[1..] == tokens[1..] + [t];
      DaysAmongLast(tokens[1..], t);
    }
  }

  /** A BYDAY value gives its tokens' weekdays in order, and the last ordinal that is a number. */
  lemma {:induction false} ByDaySays(tokens: seq<Recurrence.Token>)
    ensures var d := AddTokens(NO_DAYS, tokens);
            && d.days == DaysAmong(tokens)
            && ((forall j :: 0 <= j < |tokens| ==> tokens[j].ordinal.None?) ==> d.setPos == 0)
            && forall i :: && 0 <= i < |tokens| && tokens[i].ordinal.Some?
                           && (forall j :: i < j < |tokens| ==> tokens[j].ordinal.None?)
                           ==> d.setPos == tokens[i].ordinal.value
  {
    if tokens != [] {
      var init, last := tokens[..|tokens| - 1], tokens[|tokens| - 1];
      ByDaySays(init);
      assert tokens == init + [last];
      DaysAmongLast(init, last);
    }
  }
}
