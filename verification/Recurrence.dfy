/**
 Recurrence rules as the store keeps them (RFC 5545 section 3.3.10): the neutral record,
 the rule text it is printed to and read from, and the weekday bit mask of MS-ASCAL.
 */
module Recurrence {
  import opened Strconv
  import opened Text

  // ---------- weekdays ----------

  const DAYS: seq<string> := ["SU", "MO", "TU", "WE", "TH", "FR", "SA"]

  function DayIndex(day: string): (k: Option<nat>)
    ensures k.Some? ==> k.value < 7 && DAYS[k.value] == day
    ensures forall j :: 0 <= j < 7 && DAYS[j] == day ==> k == Some(j)
  {
    if day == "SU" then Some(0)
    else if day == "MO" then Some(1)
    else if day == "TU" then Some(2)
    else if day == "WE" then Some(3)
    else if day == "TH" then Some(4)
    else if day == "FR" then Some(5)
    else if day == "SA" then Some(6)
    else None
  }

  predicate IsDay(day: string) {
    day in DAYS
  }

  predicate AreDays(days: seq<string>) {
    forall i :: 0 <= i < |days| ==> IsDay(days[i])
  }

  function Pow2(k: nat): (p: nat)
    ensures p > 0
  {
    if k == 0 then 1 else 2 * Pow2(k - 1)
  }

  /** Bit k of a two's complement integer: mask & (1 << k) != 0. */
  predicate Has(mask: int, k: nat)
    decreases k
  {
    if k == 0 then mask % 2 == 1 else Has(mask / 2, k - 1)
  }

  /** mask | (1 << k) */
  function SetBit(mask: int, k: nat): (m: int)
    ensures m == if Has(mask, k) then mask else mask + Pow2(k)
    decreases k
  {
    if k == 0 then (if mask % 2 == 1 then mask else mask + 1) else mask % 2 + 2 * SetBit(mask / 2, k - 1)
  }

  lemma {:induction false} HasSetBit(mask: int, k: nat, j: nat)
    ensures Has(SetBit(mask, k), j) <==> j == k || Has(mask, j)
    decreases k
  {
    if k > 0 && j > 0 {
      HasSetBit(mask / 2, k - 1, j - 1);
    }
  }

  lemma {:induction false} SetBitBound(mask: int, k: nat, n: nat)
    requires 0 <= mask < Pow2(n) && k < n
    ensures 0 <= SetBit(mask, k) < Pow2(n)
  {
    if k > 0 {
      SetBitBound(mask / 2, k - 1, n - 1);
    }
  }

  ghost function MaskOf(days: seq<string>): int {
    if days == [] then 0
    else
      var k := DayIndex(days[|days| - 1]);
      if k.None? then MaskOf(days[..|days| - 1]) else SetBit(MaskOf(days[..|days| - 1]), k.value)
  }

  /** A bit is set exactly for the weekdays listed; tokens that are no weekday leave no trace. */
  lemma {:induction false} MaskBits(days: seq<string>, k: nat)
    requires k < 7
    ensures Has(MaskOf(days), k) <==> DAYS[k] in days
  {
    if days == [] {
      NoBits(k);
    } else {
      var init, last := days[..|days| - 1], days[|days| - 1];
      assert days == init + [last];
      MaskBits(init, k);
      if DayIndex(last).Some? {
        HasSetBit(MaskOf(init), DayIndex(last).value, k);
      }
    }
  }

  lemma {:induction false} NoBits(k: nat)
    ensures !Has(0, k)
  {
    if k > 0 {
      NoBits(k - 1);
    }
  }

  lemma {:induction false} MaskBound(days: seq<string>)
    ensures 0 <= MaskOf(days) < 128
  {
    assert Pow2(7) == 128;
    if days != [] {
      MaskBound(days[..|days| - 1]);
      var k := DayIndex(days[|days| - 1]);
      if k.Some? {
        SetBitBound(MaskOf(days[..|days| - 1]), k.value, 7);
      }
    }
  }

  /** weekdayBitmask */
  method WeekdayBitmask(days: seq<string>) returns (mask: int)
    ensures mask == MaskOf(days)
    ensures forall k :: 0 <= k < 7 ==> (Has(mask, k) <==> DAYS[k] in days)
  {
    mask := 0;
    for i := 0 to |days|
      invariant mask == MaskOf(days[..i])
    {
      assert days[..i + 1][..i] == days[..i];
      var k := DayIndex(days[i]);
      if k.Some? {
        mask := SetBit(mask, k.value);
      }
    }
    assert days[..|days|] == days;
    forall k | 0 <= k < 7 ensures Has(mask, k) <==> DAYS[k] in days {
      MaskBits(days, k);
    }
  }

  ghost function DaysOf(mask: int, k: nat): seq<string>
    requires k <= 7
  {
    if k == 0 then [] else DaysOf(mask, k - 1) + if Has(mask, k - 1) then [DAYS[k - 1]] else []
  }

  /** bitmaskWeekdays */
  method BitmaskWeekdays(mask: int) returns (days: seq<string>)
    ensures days == DaysOf(mask, 7)
  {
    days := [];
    for k := 0 to 7
      invariant days == DaysOf(mask, k)
    {
      if Has(mask, k) {
        days := days + [DAYS[k]];
      }
    }
  }

  /** Weekday tokens in week order, each once, all of them before day k. */
  ghost predicate InWeekOrder(days: seq<string>, k: nat) {
    && (forall i :: 0 <= i < |days| ==> DayIndex(days[i]).Some? && DayIndex(days[i]).value < k)
    && (forall i, j :: 0 <= i < j < |days| ==> DayIndex(days[i]).value < DayIndex(days[j]).value)
  }

  lemma {:induction false} DaysInOrder(mask: int, k: nat)
    requires k <= 7
    ensures InWeekOrder(DaysOf(mask, k), k)
  {
    if k > 0 {
      DaysInOrder(mask, k - 1);
    }
  }

  lemma LatestDayLast(days: seq<string>, k: nat)
    requires 0 < k <= 7 && InWeekOrder(days, k) && DAYS[k - 1] in days
    ensures days[|days| - 1] == DAYS[k - 1] && InWeekOrder(days[..|days| - 1], k - 1)
  {
    var last := |days| - 1;
    var i :| 0 <= i < |days| && days[i] == DAYS[k - 1];
    assert DayIndex(days[i]).value <= DayIndex(days[last]).value;
    var init := days[..last];
    forall j | 0 <= j < |init| ensures DayIndex(init[j]).Some? && DayIndex(init[j]).value < k - 1 {
      assert DayIndex(days[j]).value < DayIndex(days[last]).value;
    }
  }

  ghost predicate Selects(mask: int, days: seq<string>, k: nat)
    requires k <= 7
  {
    forall j :: 0 <= j < k ==> (Has(mask, j) <==> DAYS[j] in days)
  }

  lemma DaysDiffer(i: nat, j: nat)
    requires i < 7 && j < 7 && i != j
    ensures DAYS[i] != DAYS[j]
  {
    assert DayIndex(DAYS[i]) == Some(i) && DayIndex(DAYS[j]) == Some(j);
  }

  lemma SelectsInit(mask: int, days: seq<string>, k: nat)
    requires 0 < k <= 7 && Selects(mask, days, k) && days != [] && days[|days| - 1] == DAYS[k - 1]
    ensures Selects(mask, days[..|days| - 1], k - 1)
  {
    var init := days[..|days| - 1];
    assert days == init + [DAYS[k - 1]];
    forall j | 0 <= j < k - 1 ensures Has(mask, j) <==> DAYS[j] in init {
      DaysDiffer(j, k - 1);
    }
  }

  lemma {:induction false} OrderedDaysSelected(days: seq<string>, mask: int, k: nat)
    requires k <= 7 && InWeekOrder(days, k) && Selects(mask, days, k)
    ensures DaysOf(mask, k) == days
  {
    if k > 0 {
      if DAYS[k - 1] in days {
        LatestDayLast(days, k);
        SelectsInit(mask, days, k);
        OrderedDaysSelected(days[..|days| - 1], mask, k - 1);
      } else {
        forall i | 0 <= i < |days| ensures DayIndex(days[i]).value < k - 1 {
          assert days[i] != DAYS[k - 1];
        }
        OrderedDaysSelected(days, mask, k - 1);
      }
    }
  }

  /** A weekday list survives the bit mask exactly when it is in week order without repeats. */
  lemma MaskKeepsDaysIff(days: seq<string>)
    ensures DaysOf(MaskOf(days), 7) == days <==> InWeekOrder(days, 7)
  {
    DaysInOrder(MaskOf(days), 7);
    if InWeekOrder(days, 7) {
      forall k | 0 <= k < 7 ensures Has(MaskOf(days), k) <==> DAYS[k] in days {
        MaskBits(days, k);
      }
      OrderedDaysSelected(days, MaskOf(days), 7);
    }
  }

  // ---------- instants ----------

  /** Calendar fields, such as a text of digits may name. */
  datatype Fields = Fields(year: nat, month: nat, day: nat, hour: nat, minute: nat, second: nat)

  /** A whole-second UTC instant by its calendar fields. */
  type Civil = c: Fields | ValidCivil(c) witness Fields(1, 1, 1, 0, 0, 0)

  /** Go's zero time, which the code reads as "no bound". */
  const ZERO: Civil := Fields(1, 1, 1, 0, 0, 0)

  function DaysIn(year: nat, month: nat): nat {
    if month == 2 then (if year % 4 == 0 && (year % 100 != 0 || year % 400 == 0) then 29 else 28)
    else if month in {4, 6, 9, 11} then 30
    else 31
  }

  predicate ValidCivil(c: Fields) {
    && c.year < 10000 && 1 <= c.month <= 12 && 1 <= c.day <= DaysIn(c.year, c.month)
    && c.hour < 24 && c.minute < 60 && c.second < 60
  }

  function Pad2(n: nat): (s: string)
    requires n < 100
    ensures |s| == 2 && AllDigits(s) && Num2(s) == n
  {
    [DigitChar(n / 10), DigitChar(n % 10)]
  }

  function Num2(s: string): nat
    requires |s| == 2 && AllDigits(s)
  {
    10 * DigitValue(s[0]) + DigitValue(s[1])
  }

  function FormatDate(c: Civil): (s: string)
    ensures |s| == 8 && AllDigits(s)
  {
    Pad2(c.year / 100) + Pad2(c.year % 100) + Pad2(c.month) + Pad2(c.day)
  }

  function FormatClock(c: Civil): (s: string)
    ensures |s| == 6 && AllDigits(s)
  {
    Pad2(c.hour) + Pad2(c.minute) + Pad2(c.second)
  }

  /** time.Format("20060102T150405Z") */
  function FormatCivil(c: Civil): (s: string)
    ensures |s| == 16
  {
    FormatDate(c) + "T" + FormatClock(c) + "Z"
  }

  function CivilOf(date: string, clock: string): Fields
    requires |date| == 8 && |clock| == 6 && AllDigits(date) && AllDigits(clock)
  {
    Fields(100 * Num2(date[..2]) + Num2(date[2..4]), Num2(date[4..6]), Num2(date[6..8]),
           Num2(clock[..2]), Num2(clock[2..4]), Num2(clock[4..6]))
  }

  /** time.Parse("20060102T150405", s) */
  function ParseLocal(s: string): Option<Civil> {
    if |s| != 15 || s[8] != 'T' || !AllDigits(s[..8]) || !AllDigits(s[9..]) then None
    else
      var c := CivilOf(s[..8], s[9..]);
      if ValidCivil(c) then Some(c) else None
  }

  /** parseEASCalTime: time.Parse("20060102T150405Z", s) */
  function ParseUtc(s: string): Option<Civil> {
    if |s| == 16 && s[15] == 'Z' then ParseLocal(s[..15]) else None
  }

  /** parseRRuleUntil: a UTC date-time, a local one, or a date. */
  function ParseUntil(s: string): Option<Civil> {
    if ParseUtc(s).Some? then ParseUtc(s)
    else if ParseLocal(s).Some? then ParseLocal(s)
    else ParseLocal(s + "T000000")
  }

  lemma ParseFormatCivil(c: Civil)
    ensures ParseUtc(FormatCivil(c)) == Some(c)
  {
    var s := FormatCivil(c)[..15];
    assert s[..8] == FormatDate(c) && s[9..] == FormatClock(c);
  }

  // ---------- the record and its rule text ----------

  datatype Rec = Rec(freq: string, interval: int, count: int, until: Civil, weekdays: seq<string>, setPos: int,
                     monthDay: int, month: int)

  const BLANK := Rec("", 1, 0, ZERO, [], 0, 0, 0)

  predicate Int64(i: int) {
    -TWO_63 <= i < TWO_63
  }

  /** What the record's fields can hold. */
  predicate Representable(r: Rec) {
    && Int64(r.interval) && Int64(r.count) && Int64(r.setPos) && Int64(r.monthDay) && Int64(r.month)
  }

  /** A rule of the documented vocabulary: one of the four frequencies, weekday tokens only. */
  predicate Worded(r: Rec) {
    && r.freq in ["DAILY", "WEEKLY", "MONTHLY", "YEARLY"]
    && AreDays(r.weekdays)
  }

  function DayToken(day: string, setPos: int): string {
    (if setPos != 0 then FormatInt(setPos) else "") + day
  }

  function DayTokens(days: seq<string>, setPos: int): (tokens: seq<string>)
    ensures |tokens| == |days|
  {
    seq(|days|, i requires 0 <= i < |days| => DayToken(days[i], setPos))
  }

  /** The rule parts the code knows. */
  datatype Key = Freq | Interval | Count | Until | Days | MonthDay | Month | SetPos

  function KeyName(key: Key): (name: string)
    ensures Letters(name)
  {
    match key
    case Freq => "FREQ"
    case Interval => "INTERVAL"
    case Count => "COUNT"
    case Until => "UNTIL"
    case Days => "BYDAY"
    case MonthDay => "BYMONTHDAY"
    case Month => "BYMONTH"
    case SetPos => "BYSETPOS"
  }

  function KeyOf(name: string): (key: Option<Key>)
    ensures key.Some? ==> KeyName(key.value) == name
    ensures forall k :: KeyName(k) == name ==> key == Some(k)
  {
    if name == "FREQ" then Some(Freq)
    else if name == "INTERVAL" then Some(Interval)
    else if name == "COUNT" then Some(Count)
    else if name == "UNTIL" then Some(Until)
    else if name == "BYDAY" then Some(Days)
    else if name == "BYMONTHDAY" then Some(MonthDay)
    else if name == "BYMONTH" then Some(Month)
    else if name == "BYSETPOS" then Some(SetPos)
    else None
  }

  predicate Letters(s: string) {
    s != "" && forall i :: 0 <= i < |s| ==> 'A' <= s[i] <= 'Z'
  }

  datatype Entry = Entry(key: Key, val: string)

  function Printed(e: Entry): string {
    KeyName(e.key) + "=" + e.val
  }

  function PrintedAll(es: seq<Entry>): (parts: seq<string>)
    ensures |parts| == |es|
  {
    seq(|es|, i requires 0 <= i < |es| => Printed(es[i]))
  }

  function Opt(present: bool, key: Key, val: string): seq<Entry> {
    if present then [Entry(key, val)] else []
  }

  ghost function DaysText(r: Rec): string {
    Join(DayTokens(r.weekdays, r.setPos), ',')
  }

  /** The parts of a rule's text, in the order they are written: first those up to the end bound. */
  ghost function Bounds(r: Rec): seq<Entry> {
    [Entry(Freq, r.freq)] + Opt(r.interval > 1, Interval, FormatInt(r.interval)) +
    Opt(r.count > 0, Count, FormatInt(r.count)) + Opt(r.until != ZERO, Until, FormatCivil(r.until))
  }

  ghost function Entries(r: Rec): seq<Entry> {
    Bounds(r) + Opt(r.weekdays != [], Days, DaysText(r)) +
    Opt(r.monthDay != 0, MonthDay, FormatInt(r.monthDay)) + Opt(r.month != 0, Month, FormatInt(r.month))
  }

  ghost function TextOf(es: seq<Entry>): string {
    Join(PrintedAll(es), ';')
  }

  ghost function RuleText(r: Rec): string {
    TextOf(Entries(r))
  }

  lemma JoinSnoc(parts: seq<string>, part: string, sep: char)
    requires parts != []
    ensures Join(parts + [part], sep) == Join(parts, sep) + ([sep] + part)
  {
    assert (parts + [part])[..|parts|] == parts;
  }

  lemma TextSnoc(es: seq<Entry>, e: Entry)
    requires es != []
    ensures TextOf(es + [e]) == TextOf(es) + (";" + Printed(e))
  {
    assert PrintedAll(es + [e]) == PrintedAll(es) + [Printed(e)];
    JoinSnoc(PrintedAll(es), Printed(e), ';');
  }

  /** Writes one optional part behind the text of the earlier ones. */
  method WriteField(b: string, ghost es: seq<Entry>, present: bool, key: Key, val: string) returns (b': string)
    requires es != [] && b == TextOf(es)
    ensures b' == TextOf(es + Opt(present, key, val))
  {
    b' := b;
    if present {
      b' := b + (";" + (KeyName(key) + "=" + val));
      TextSnoc(es, Entry(key, val));
    } else {
      assert es + Opt(present, key, val) == es;
    }
  }

  method WriteDays(days: seq<string>, setPos: int) returns (b: string)
    ensures b == Join(DayTokens(days, setPos), ',')
  {
    ghost var tokens := DayTokens(days, setPos);
    b := "";
    for i := 0 to |days|
      invariant b == Join(tokens[..i], ',')
    {
      assert tokens[..i + 1] == tokens[..i] + [tokens[i]];
      var token := DayToken(days[i], setPos);
      if i > 0 {
        JoinSnoc(tokens[..i], token, ',');
        b := b + ("," + token);
      } else {
        b := token;
      }
    }
    assert tokens[..|days|] == tokens;
  }

  /** rruleFromRecurrence */
  method RruleFromRecurrence(r: Rec) returns (b: string)
    ensures b == RuleText(r)
  {
    ghost var es := [Entry(Freq, r.freq)];
    b := "FREQ=" + r.freq;
    b := WriteField(b, es, r.interval > 1, Interval, FormatInt(r.interval));
    es := es + Opt(r.interval > 1, Interval, FormatInt(r.interval));
    b := WriteField(b, es, r.count > 0, Count, FormatInt(r.count));
    es := es + Opt(r.count > 0, Count, FormatInt(r.count));
    b := WriteField(b, es, r.until != ZERO, Until, FormatCivil(r.until));
    es := es + Opt(r.until != ZERO, Until, FormatCivil(r.until));
    var days := WriteDays(r.weekdays, r.setPos);
    b := WriteField(b, es, r.weekdays != [], Days, days);
    es := es + Opt(r.weekdays != [], Days, days);
    b := WriteField(b, es, r.monthDay != 0, MonthDay, FormatInt(r.monthDay));
    es := es + Opt(r.monthDay != 0, MonthDay, FormatInt(r.monthDay));
    b := WriteField(b, es, r.month != 0, Month, FormatInt(r.month));
  }

  // ---------- reading rule text ----------

  predicate IsSpace(c: char) {
    9 <= c as int <= 13 || c as int in {32, 0x85, 0xA0}
  }

  function Trim(s: string): string {
    if s == "" then ""
    else if IsSpace(s[0]) then Trim(s[1..])
    else if IsSpace(s[|s| - 1]) then Trim(s[..|s| - 1])
    else s
  }

  function UpperChar(c: char): char {
    if 'a' <= c <= 'z' then c - 32 as char else c
  }

  function Upper(s: string): string {
    seq(|s|, i requires 0 <= i < |s| => UpperChar(s[i]))
  }

  predicate IsOrdinalChar(c: char) {
    c == '+' || c == '-' || IsDigit(c)
  }

  function OrdinalEnd(s: string): (n: nat)
    ensures n <= |s|
  {
    if s != "" && IsOrdinalChar(s[0]) then 1 + OrdinalEnd(s[1..]) else 0
  }

  /** One BYDAY token: its ordinal, when it has one that is a number, and its weekday. */
  datatype Token = Token(ordinal: Option<int>, day: string)

  function ReadToken(token: string): Token {
    var tok := Trim(token);
    var i := OrdinalEnd(tok);
    Token(if i > 0 then ParseInt(tok[..i]) else None, Upper(tok[i..]))
  }

  function ReadTokens(val: string): seq<Token> {
    var tokens := Split(val, ',');
    seq(|tokens|, i requires 0 <= i < |tokens| => ReadToken(tokens[i]))
  }

  datatype ByDay = ByDay(days: seq<string>, setPos: int)

  function AddToken(acc: ByDay, t: Token): ByDay {
    ByDay(if t.day != "" then acc.days + [t.day] else acc.days,
          if t.ordinal.Some? then t.ordinal.value else acc.setPos)
  }

  ghost function AddTokens(acc: ByDay, tokens: seq<Token>): ByDay {
    if tokens == [] then acc else AddToken(AddTokens(acc, tokens[..|tokens| - 1]), tokens[|tokens| - 1])
  }

  const NO_DAYS := ByDay([], 0)

  /** parseByDay */
  method ParseByDay(val: string) returns (r: ByDay)
    ensures r == AddTokens(NO_DAYS, ReadTokens(val))
  {
    var tokens := ReadTokens(val);
    r := NO_DAYS;
    for k := 0 to |tokens|
      invariant r == AddTokens(NO_DAYS, tokens[..k])
    {
      assert tokens[..k + 1][..k] == tokens[..k];
      r := AddToken(r, tokens[k]);
    }
    assert tokens[..|tokens|] == tokens;
  }

  function IntOr(val: string, dflt: int): int {
    if ParseInt(val).Some? then ParseInt(val).value else dflt
  }

  function PositiveOr(val: string, dflt: int): int {
    if ParseInt(val).Some? && ParseInt(val).value > 0 then ParseInt(val).value else dflt
  }

  /** What one known part does to the record. */
  ghost function SetPart(r: Rec, e: Entry): Rec {
    match e.key
    case Freq => r.(freq := Upper(Trim(e.val)))
    case Interval => r.(interval := PositiveOr(e.val, r.interval))
    case Count => r.(count := PositiveOr(e.val, r.count))
    case Until => if ParseUntil(e.val).Some? then r.(until := ParseUntil(e.val).value) else r
    case Days =>
      var d := AddTokens(NO_DAYS, ReadTokens(e.val));
      r.(weekdays := d.days, setPos := d.setPos)
    case MonthDay => r.(monthDay := IntOr(e.val, r.monthDay))
    case Month => r.(month := IntOr(e.val, r.month))
    case SetPos => r.(setPos := IntOr(e.val, r.setPos))
  }

  /** A part's entry; None when it has no equals sign or an unknown name. */
  function ReadPart(part: string): Option<Entry> {
    match Cut(part, '=')
    case None => None
    case Some((name, val)) =>
      var key := KeyOf(Upper(Trim(name)));
      if key.Some? then Some(Entry(key.value, val)) else None
  }

  function ReadParts(parts: seq<string>): (es: seq<Option<Entry>>)
    ensures |es| == |parts|
  {
    seq(|parts|, i requires 0 <= i < |parts| => ReadPart(parts[i]))
  }

  ghost function SetParts(r: Rec, es: seq<Option<Entry>>): Rec {
    if es == [] then r
    else
      var got, last := SetParts(r, es[..|es| - 1]), es[|es| - 1];
      if last.Some? then SetPart(got, last.value) else got
  }

  /** The record a rule text denotes; None when it names no frequency. */
  ghost function RuleOf(text: string): Option<Rec> {
    var r := SetParts(BLANK, ReadParts(Split(text, ';')));
    if r.freq == "" then None else Some(r)
  }

  method ApplyPart(r: Rec, e: Entry) returns (r': Rec)
    ensures r' == SetPart(r, e)
  {
    r' := r;
    match e.key
    case Freq => r' := r.(freq := Upper(Trim(e.val)));
    case Interval => r' := r.(interval := PositiveOr(e.val, r.interval));
    case Count => r' := r.(count := PositiveOr(e.val, r.count));
    case Until =>
      var until := ParseUntil(e.val);
      if until.Some? {
        r' := r.(until := until.value);
      }
    case Days =>
      var d := ParseByDay(e.val);
      r' := r.(weekdays := d.days, setPos := d.setPos);
    case MonthDay => r' := r.(monthDay := IntOr(e.val, r.monthDay));
    case Month => r' := r.(month := IntOr(e.val, r.month));
    case SetPos => r' := r.(setPos := IntOr(e.val, r.setPos));
  }

  lemma SetPartsStep(r: Rec, es: seq<Option<Entry>>, k: nat)
    requires k < |es|
    ensures var got := SetParts(r, es[..k]);
            SetParts(r, es[..k + 1]) == if es[k].Some? then SetPart(got, es[k].value) else got
  {
    assert es[..k + 1][..k] == es[..k];
  }

  /** parseRRule */
  method ParseRRule(value: string) returns (r: Option<Rec>)
    ensures r == RuleOf(value)
  {
    var parts := Split(value, ';');
    ghost var es := ReadParts(parts);
    var rec := BLANK;
    for k := 0 to |parts|
      invariant rec == SetParts(BLANK, es[..k])
    {
      SetPartsStep(BLANK, es, k);
      var e := ReadPart(parts[k]);
      if e.Some? {
        rec := ApplyPart(rec, e.value);
      }
    }
    assert es[..|parts|] == es;
    r := if rec.freq == "" then None else Some(rec);
  }

  // ---------- printed rules read back ----------

  lemma LettersKept(s: string)
    requires Letters(s)
    ensures Upper(Trim(s)) == s && '=' !in s && ';' !in s && ',' !in s
  {
  }

  lemma PartRead(e: Entry)
    ensures ReadPart(Printed(e)) == Some(e)
  {
    LettersKept(KeyName(e.key));
    CutFirst(KeyName(e.key), '=', e.val);
  }

  function Somes(es: seq<Entry>): (r: seq<Option<Entry>>)
    ensures |r| == |es|
  {
    seq(|es|, i requires 0 <= i < |es| => Some(es[i]))
  }

  ghost predicate ValuesFree(es: seq<Entry>) {
    forall i :: 0 <= i < |es| ==> ';' !in es[i].val
  }

  /** Printed entries are cut apart and read as themselves. */
  lemma EntriesRead(es: seq<Entry>)
    requires es != [] && ValuesFree(es)
    ensures ReadParts(Split(TextOf(es), ';')) == Somes(es)
  {
    var parts := PrintedAll(es);
    forall i | 0 <= i < |es| ensures ReadPart(parts[i]) == Some(es[i]) && ';' !in parts[i] {
      PartRead(es[i]);
      LettersKept(KeyName(es[i].key));
    }
    SplitJoin(parts, ';');
  }

  lemma {:induction false} OrdinalEndsAt(ord: string, day: string)
    requires forall i :: 0 <= i < |ord| ==> IsOrdinalChar(ord[i])
    requires Letters(day)
    ensures OrdinalEnd(ord + day) == |ord|
  {
    var s := ord + day;
    if ord != "" {
      assert s[1..] == ord[1..] + day;
      OrdinalEndsAt(ord[1..], day);
    } else {
      assert s[0] == day[0];
    }
  }

  lemma DayLetters(day: string)
    requires IsDay(day)
    ensures Letters(day)
  {
  }

  lemma TokenEnds(ord: string, day: string)
    requires Letters(day) && forall i :: 0 <= i < |ord| ==> IsOrdinalChar(ord[i])
    ensures Trim(ord + day) == ord + day && ',' !in ord && ';' !in ord
  {
    var tok := ord + day;
    assert tok[|tok| - 1] == day[|day| - 1];
    assert tok[0] == if ord == "" then day[0] else ord[0];
  }

  lemma OrdinalText(n: int)
    requires Int64(n)
    ensures ParseInt(FormatInt(n)) == Some(n) && FormatInt(n) != ""
    ensures forall i :: 0 <= i < |FormatInt(n)| ==> IsOrdinalChar(FormatInt(n)[i])
  {
    ParseFormatInt(n);
  }

  /** An ordinal and a weekday read back apart. */
  lemma TokenParts(ord: string, day: string)
    requires Letters(day) && forall i :: 0 <= i < |ord| ==> IsOrdinalChar(ord[i])
    ensures ReadToken(ord + day) == Token(if ord != "" then ParseInt(ord) else None, day)
    ensures ',' !in ord + day && ';' !in ord + day
  {
    var tok := ord + day;
    OrdinalEndsAt(ord, day);
    LettersKept(day);
    UpperLetters(day);
    TokenEnds(ord, day);
    assert tok[..|ord|] == ord && tok[|ord|..] == day;
  }

  lemma UpperLetters(s: string)
    requires Letters(s)
    ensures Upper(s) == s
  {
  }

  lemma TokenRead(day: string, setPos: int)
    requires IsDay(day) && Int64(setPos)
    ensures ReadToken(DayToken(day, setPos)) == Token(if setPos != 0 then Some(setPos) else None, day)
    ensures ',' !in DayToken(day, setPos) && ';' !in DayToken(day, setPos)
  {
    DayLetters(day);
    if setPos != 0 {
      OrdinalText(setPos);
      TokenParts(FormatInt(setPos), day);
    } else {
      TokenParts("", day);
    }
  }

  ghost predicate AreTokens(tokens: seq<Token>, days: seq<string>, ordinal: Option<int>) {
    |tokens| == |days| && forall i :: 0 <= i < |days| ==> tokens[i] == Token(ordinal, days[i]) && days[i] != ""
  }

  lemma {:induction false} TokensAdded(tokens: seq<Token>, days: seq<string>, ordinal: Option<int>)
    requires AreTokens(tokens, days, ordinal)
    ensures AddTokens(NO_DAYS, tokens) == ByDay(days, if days == [] || ordinal.None? then 0 else ordinal.value)
  {
    if days != [] {
      TokensAdded(tokens[..|days| - 1], days[..|days| - 1], ordinal);
      assert days == days[..|days| - 1] + [days[|days| - 1]];
    }
  }

  lemma {:induction false} JoinFree(parts: seq<string>, sep: char, c: char)
    requires Free(parts, c) && c != sep
    ensures c !in Join(parts, sep)
  {
    if |parts| > 1 {
      JoinFree(parts[..|parts| - 1], sep, c);
    }
  }

  lemma DayTokensRead(days: seq<string>, setPos: int)
    requires Int64(setPos) && days != [] && AreDays(days)
    ensures var tokens := DayTokens(days, setPos);
            && Free(tokens, ';') && Free(tokens, ',')
            && AreTokens(ReadTokens(Join(tokens, ',')), days, if setPos != 0 then Some(setPos) else None)
  {
    var tokens := DayTokens(days, setPos);
    forall i | 0 <= i < |days|
      ensures ReadToken(tokens[i]) == Token(if setPos != 0 then Some(setPos) else None, days[i])
      ensures days[i] != "" && ',' !in tokens[i] && ';' !in tokens[i]
    {
      TokenRead(days[i], setPos);
    }
    SplitJoin(tokens, ',');
  }

  lemma DaysRead(days: seq<string>, setPos: int)
    requires Int64(setPos) && days != [] && AreDays(days)
    ensures var val := Join(DayTokens(days, setPos), ',');
            AddTokens(NO_DAYS, ReadTokens(val)) == ByDay(days, setPos) && ';' !in val
  {
    var tokens := DayTokens(days, setPos);
    DayTokensRead(days, setPos);
    JoinFree(tokens, ',', ';');
    TokensAdded(ReadTokens(Join(tokens, ',')), days, if setPos != 0 then Some(setPos) else None);
  }

  lemma IntFree(i: int)
    ensures ';' !in FormatInt(i)
  {
  }

  lemma CivilFree(c: Civil)
    ensures ';' !in FormatCivil(c)
  {
  }

  lemma OptFree(es: seq<Entry>, present: bool, key: Key, val: string)
    requires ValuesFree(es) && (present ==> ';' !in val)
    ensures ValuesFree(es + Opt(present, key, val))
  {
  }

  lemma BoundsFree(r: Rec)
    requires Representable(r) && Worded(r)
    ensures ValuesFree(Bounds(r))
  {
    LettersKept(r.freq);
    var e1 := [Entry(Freq, r.freq)];
    IntFree(r.interval);
    OptFree(e1, r.interval > 1, Interval, FormatInt(r.interval));
    var e2 := e1 + Opt(r.interval > 1, Interval, FormatInt(r.interval));
    IntFree(r.count);
    OptFree(e2, r.count > 0, Count, FormatInt(r.count));
    CivilFree(r.until);
    OptFree(e2 + Opt(r.count > 0, Count, FormatInt(r.count)), r.until != ZERO, Until, FormatCivil(r.until));
  }

  lemma EntriesFree(r: Rec)
    requires Representable(r) && Worded(r)
    ensures ValuesFree(Entries(r))
  {
    BoundsFree(r);
    if r.weekdays != [] {
      DaysRead(r.weekdays, r.setPos);
    }
    OptFree(Bounds(r), r.weekdays != [], Days, DaysText(r));
    var e5 := Bounds(r) + Opt(r.weekdays != [], Days, DaysText(r));
    IntFree(r.monthDay);
    OptFree(e5, r.monthDay != 0, MonthDay, FormatInt(r.monthDay));
    IntFree(r.month);
    OptFree(e5 + Opt(r.monthDay != 0, MonthDay, FormatInt(r.monthDay)), r.month != 0, Month, FormatInt(r.month));
  }

  /** What printing and reading makes of a record. */
  function Normal(r: Rec): Rec {
    r.(interval := if r.interval > 1 then r.interval else 1, count := if r.count > 0 then r.count else 0,
       setPos := if r.weekdays == [] then 0 else r.setPos)
  }

  lemma OptSet(es: seq<Entry>, present: bool, key: Key, val: string)
    ensures var got := SetParts(BLANK, Somes(es));
            SetParts(BLANK, Somes(es + Opt(present, key, val))) ==
            if present then SetPart(got, Entry(key, val)) else got
  {
    if present {
      assert Somes(es + [Entry(key, val)])[..|es|] == Somes(es);
    } else {
      assert es + Opt(present, key, val) == es;
    }
  }

  lemma FreqSet(freq: string)
    requires Letters(freq)
    ensures SetParts(BLANK, Somes([Entry(Freq, freq)])) == BLANK.(freq := freq)
  {
    LettersKept(freq);
    OptSet([], true, Freq, freq);
    assert [] + [Entry(Freq, freq)] == [Entry(Freq, freq)];
  }

  lemma IntervalSet(es: seq<Entry>, present: bool, val: string, n: int)
    requires ParseInt(val) == Some(n) && (present ==> n > 0)
    ensures var got := SetParts(BLANK, Somes(es));
            SetParts(BLANK, Somes(es + Opt(present, Interval, val))) == if present then got.(interval := n) else got
  {
    OptSet(es, present, Interval, val);
  }

  lemma CountSet(es: seq<Entry>, present: bool, val: string, n: int)
    requires ParseInt(val) == Some(n) && (present ==> n > 0)
    ensures var got := SetParts(BLANK, Somes(es));
            SetParts(BLANK, Somes(es + Opt(present, Count, val))) == if present then got.(count := n) else got
  {
    OptSet(es, present, Count, val);
  }

  lemma UntilSet(es: seq<Entry>, present: bool, val: string, c: Civil)
    requires ParseUntil(val) == Some(c)
    ensures var got := SetParts(BLANK, Somes(es));
            SetParts(BLANK, Somes(es + Opt(present, Until, val))) == if present then got.(until := c) else got
  {
    OptSet(es, present, Until, val);
  }

  lemma DaysSet(es: seq<Entry>, present: bool, val: string, d: ByDay)
    requires present ==> AddTokens(NO_DAYS, ReadTokens(val)) == d
    ensures var got := SetParts(BLANK, Somes(es));
            SetParts(BLANK, Somes(es + Opt(present, Days, val))) ==
            if present then got.(weekdays := d.days, setPos := d.setPos) else got
  {
    OptSet(es, present, Days, val);
  }

  lemma MonthDaySet(es: seq<Entry>, present: bool, val: string, n: int)
    requires ParseInt(val) == Some(n)
    ensures var got := SetParts(BLANK, Somes(es));
            SetParts(BLANK, Somes(es + Opt(present, MonthDay, val))) == if present then got.(monthDay := n) else got
  {
    OptSet(es, present, MonthDay, val);
  }

  lemma MonthSet(es: seq<Entry>, present: bool, val: string, n: int)
    requires ParseInt(val) == Some(n)
    ensures var got := SetParts(BLANK, Somes(es));
            SetParts(BLANK, Somes(es + Opt(present, Month, val))) == if present then got.(month := n) else got
  {
    OptSet(es, present, Month, val);
  }

  lemma BoundsSet(r: Rec)
    requires Representable(r) && Worded(r)
    ensures SetParts(BLANK, Somes(Bounds(r))) ==
            Rec(r.freq, if r.interval > 1 then r.interval else 1, if r.count > 0 then r.count else 0, r.until,
                [], 0, 0, 0)
  {
    var e1 := [Entry(Freq, r.freq)];
    FreqSet(r.freq);
    ParseFormatInt(r.interval);
    IntervalSet(e1, r.interval > 1, FormatInt(r.interval), r.interval);
    var e2 := e1 + Opt(r.interval > 1, Interval, FormatInt(r.interval));
    ParseFormatInt(r.count);
    CountSet(e2, r.count > 0, FormatInt(r.count), r.count);
    var e3 := e2 + Opt(r.count > 0, Count, FormatInt(r.count));
    ParseFormatCivil(r.until);
    UntilSet(e3, r.until != ZERO, FormatCivil(r.until), r.until);
  }

  lemma EntriesSet(r: Rec)
    requires Representable(r) && Worded(r)
    ensures SetParts(BLANK, Somes(Entries(r))) == Normal(r)
  {
    BoundsSet(r);
    if r.weekdays != [] {
      DaysRead(r.weekdays, r.setPos);
    }
    DaysSet(Bounds(r), r.weekdays != [], DaysText(r), ByDay(r.weekdays, r.setPos));
    var e5 := Bounds(r) + Opt(r.weekdays != [], Days, DaysText(r));
    ParseFormatInt(r.monthDay);
    MonthDaySet(e5, r.monthDay != 0, FormatInt(r.monthDay), r.monthDay);
    var e6 := e5 + Opt(r.monthDay != 0, MonthDay, FormatInt(r.monthDay));
    ParseFormatInt(r.month);
    MonthSet(e6, r.month != 0, FormatInt(r.month), r.month);
  }

  lemma TextReadsAs(es: seq<Entry>, r: Rec)
    requires es != [] && ValuesFree(es) && SetParts(BLANK, Somes(es)) == r && r.freq != ""
    ensures RuleOf(TextOf(es)) == Some(r)
  {
    EntriesRead(es);
  }

  lemma FrequencyNamed(r: Rec)
    requires Worded(r)
    ensures Normal(r).freq != ""
  {
  }

  /** Printing a rule and reading it back loses only what the text cannot say. */
  lemma RuleReadsAs(r: Rec)
    requires Representable(r) && Worded(r)
    ensures RuleOf(RuleText(r)) == Some(Normal(r))
  {
    EntriesFree(r);
    EntriesSet(r);
    FrequencyNamed(r);
    TextReadsAs(Entries(r), Normal(r));
  }

  /**
   A record equals what its text reads as exactly when its counts are not out of range and
   its ordinal has a weekday.
   */
  lemma RuleReadsBackIff(r: Rec)
    requires Representable(r) && Worded(r)
    ensures RuleOf(RuleText(r)) == Some(r) <==>
            r.interval >= 1 && r.count >= 0 && (r.setPos != 0 ==> r.weekdays != [])
  {
    RuleReadsAs(r);
  }
}
