/**
 A task's recurrence on its way to a device and back: the stored rule text is rendered
 as the MS-ASTASK Recurrence element, and the element a device sends is stored as rule
 text again.
 */
module Tasks {
  import opened Strconv
  import opened Recurrence
  import RuleTexts
  import Text

  datatype Tag = TypeTag | StartTag | UntilTag | OccurrencesTag | IntervalTag | DayOfWeekTag | DayOfMonthTag
               | WeekOfMonthTag | MonthOfYearTag

  /** The element by the text of its children. */
  type Element = map<Tag, string>

  /** A child's text, empty when the child is absent. */
  function ChildText(e: Element, tag: Tag): string {
    if tag in e then e[tag] else ""
  }

  // ---------- rendering ----------

  /** recurrenceType's Type code. */
  function TypeCode(freq: string, hasDays: bool): int {
    if freq == "DAILY" then 0
    else if freq == "WEEKLY" then 1
    else if freq == "MONTHLY" then (if hasDays then 3 else 2)
    else if freq == "YEARLY" then (if hasDays then 6 else 5)
    else 0
  }

  /** Whether recurrenceType hands the weekday mask out for a Type code. */
  predicate CarriesDays(typ: int) {
    typ in {1, 3, 6}
  }

  function WithNonZero(e: Element, tag: Tag, v: int): Element {
    if v != 0 then e[tag := FormatInt(v)] else e
  }

  function WeekOfMonth(setPos: int): int {
    if setPos < 0 then 5 else setPos
  }

  /** The element's first children; `start` is the series start as text, empty when unset. */
  ghost function Bounded(r: Rec, typ: int, start: string): Element {
    var e := map[TypeTag := FormatInt(typ)];
    var e := if start != "" then e[StartTag := start] else e;
    var e := if r.until != ZERO then e[UntilTag := FormatCivil(r.until)]
             else if r.count > 0 then e[OccurrencesTag := FormatInt(r.count)]
             else e;
    e[IntervalTag := FormatInt(r.interval)]
  }

  /** The element with the children that pin the day. */
  ghost function Pinned(e: Element, r: Rec, typ: int): Element {
    var e := WithNonZero(e, DayOfWeekTag, if CarriesDays(typ) then MaskOf(r.weekdays) else 0);
    var e := WithNonZero(e, DayOfMonthTag, r.monthDay);
    var e := if typ == 3 || typ == 6 then WithNonZero(e, WeekOfMonthTag, WeekOfMonth(r.setPos)) else e;
    WithNonZero(e, MonthOfYearTag, r.month)
  }

  /** The element for a record. */
  ghost function Rendered(r: Rec, start: string): Element {
    var typ := TypeCode(r.freq, r.weekdays != []);
    Pinned(Bounded(r, typ, start), r, typ)
  }

  method RenderBounds(r: Rec, typ: int, start: string) returns (e: Element)
    ensures e == Bounded(r, typ, start)
  {
    e := map[TypeTag := FormatInt(typ)];
    if start != "" {
      e := e[StartTag := start];
    }
    if r.until != ZERO {
      e := e[UntilTag := FormatCivil(r.until)];
    } else if r.count > 0 {
      e := e[OccurrencesTag := FormatInt(r.count)];
    }
    e := e[IntervalTag := FormatInt(r.interval)];
  }

  method RenderRecurrence(r: Rec, start: string) returns (e: Element)
    ensures e == Rendered(r, start)
  {
    var mask := WeekdayBitmask(r.weekdays);
    var typ := TypeCode(r.freq, r.weekdays != []);
    e := RenderBounds(r, typ, start);
    e := WithNonZero(e, DayOfWeekTag, if CarriesDays(typ) then mask else 0);
    e := WithNonZero(e, DayOfMonthTag, r.monthDay);
    if typ == 3 || typ == 6 {
      e := WithNonZero(e, WeekOfMonthTag, WeekOfMonth(r.setPos));
    }
    e := WithNonZero(e, MonthOfYearTag, r.month);
  }

  // ---------- reading ----------

  function FreqOf(typ: string): Option<string> {
    if typ == "0" then Some("DAILY")
    else if typ == "1" then Some("WEEKLY")
    else if typ == "2" then Some("MONTHLY")
    else if typ == "3" then Some("YEARLY")
    else None
  }

  /** The record an element denotes; None when its Type is not one the server stores. */
  ghost function Read(e: Element): Option<Rec> {
    match FreqOf(ChildText(e, TypeTag))
    case None => None
    case Some(freq) =>
      var until := ParseUtc(ChildText(e, UntilTag));
      var mask := PositiveOr(ChildText(e, DayOfWeekTag), 0);
      Some(Rec(freq, PositiveOr(ChildText(e, IntervalTag), 1), PositiveOr(ChildText(e, OccurrencesTag), 0),
               if until.Some? then until.value else ZERO, if mask > 0 then DaysOf(mask, 7) else [], 0,
               IntOr(ChildText(e, DayOfMonthTag), 0), IntOr(ChildText(e, MonthOfYearTag), 0)))
  }

  /** The element as parseTaskRecurrence fills the record, field by field. */
  method ReadRecurrence(e: Element) returns (r: Option<Rec>)
    ensures r == Read(e)
  {
    var freq := FreqOf(ChildText(e, TypeTag));
    if freq.None? {
      return None;
    }
    var rec := BLANK.(freq := freq.value);
    rec := rec.(interval := PositiveOr(ChildText(e, IntervalTag), rec.interval));
    rec := rec.(count := PositiveOr(ChildText(e, OccurrencesTag), rec.count));
    rec := rec.(monthDay := IntOr(ChildText(e, DayOfMonthTag), rec.monthDay));
    rec := rec.(month := IntOr(ChildText(e, MonthOfYearTag), rec.month));
    var until := ParseUtc(ChildText(e, UntilTag));
    if until.Some? {
      rec := rec.(until := until.value);
    }
    var mask := PositiveOr(ChildText(e, DayOfWeekTag), 0);
    if mask > 0 {
      var days := BitmaskWeekdays(mask);
      rec := rec.(weekdays := days);
    }
    return Some(rec);
  }

  // ---------- there and back ----------

  lemma NonZeroReads(v: int)
    requires Int64(v)
    ensures IntOr(if v != 0 then FormatInt(v) else "", 0) == v
    ensures PositiveOr(if v != 0 then FormatInt(v) else "", 0) == if v > 0 then v else 0
  {
    ParseFormatInt(v);
  }

  lemma BoundedChildren(r: Rec, typ: int, start: string)
    ensures var e := Bounded(r, typ, start);
            && ChildText(e, TypeTag) == FormatInt(typ)
            && ChildText(e, UntilTag) == (if r.until != ZERO then FormatCivil(r.until) else "")
            && ChildText(e, OccurrencesTag) == (if r.until == ZERO && r.count > 0 then FormatInt(r.count) else "")
            && ChildText(e, IntervalTag) == FormatInt(r.interval)
            && {DayOfWeekTag, DayOfMonthTag, MonthOfYearTag} !! e.Keys
  {
  }

  lemma Children(r: Rec, start: string)
    ensures var e, typ := Rendered(r, start), TypeCode(r.freq, r.weekdays != []);
            var mask := if CarriesDays(typ) then MaskOf(r.weekdays) else 0;
            && ChildText(e, TypeTag) == FormatInt(typ)
            && ChildText(e, UntilTag) == (if r.until != ZERO then FormatCivil(r.until) else "")
            && ChildText(e, OccurrencesTag) == (if r.until == ZERO && r.count > 0 then FormatInt(r.count) else "")
            && ChildText(e, IntervalTag) == FormatInt(r.interval)
            && ChildText(e, DayOfWeekTag) == (if mask != 0 then FormatInt(mask) else "")
            && ChildText(e, DayOfMonthTag) == (if r.monthDay != 0 then FormatInt(r.monthDay) else "")
            && ChildText(e, MonthOfYearTag) == (if r.month != 0 then FormatInt(r.month) else "")
  {
    var typ := TypeCode(r.freq, r.weekdays != []);
    BoundedChildren(r, typ, start);
  }

  /** The frequency a rendered record comes back with. */
  function FreqBack(freq: string, hasDays: bool): Option<string> {
    if freq == "WEEKLY" then Some("WEEKLY")
    else if freq == "MONTHLY" then Some(if hasDays then "YEARLY" else "MONTHLY")
    else if freq == "YEARLY" then None
    else Some("DAILY")
  }

  lemma {:induction false} NoDays(k: nat)
    requires k <= 7
    ensures DaysOf(0, k) == []
  {
    if k > 0 {
      NoDays(k - 1);
      NoBits(k - 1);
    }
  }

  lemma MaskReads(mask: int)
    requires 0 <= mask < 128
    ensures var got := PositiveOr(if mask != 0 then FormatInt(mask) else "", 0);
            (if got > 0 then DaysOf(got, 7) else []) == DaysOf(mask, 7)
  {
    NonZeroReads(mask);
    NoDays(7);
  }

  ghost function DaysBack(r: Rec): seq<string> {
    if r.freq in ["WEEKLY", "MONTHLY"] then DaysOf(MaskOf(r.weekdays), 7) else []
  }

  /** The record a device hands back for a record it was sent, for every record. */
  ghost function ComesBackAs(r: Rec): Option<Rec> {
    match FreqBack(r.freq, r.weekdays != [])
    case None => None
    case Some(freq) =>
      Some(Rec(freq, if r.interval > 0 then r.interval else 1, if r.until == ZERO && r.count > 0 then r.count else 0,
               r.until, DaysBack(r), 0, r.monthDay, r.month))
  }

  lemma FreqReads(r: Rec)
    ensures FreqOf(FormatInt(TypeCode(r.freq, r.weekdays != []))) == FreqBack(r.freq, r.weekdays != [])
  {
  }

  lemma DaysRead(r: Rec)
    requires FreqBack(r.freq, r.weekdays != []).Some?
    ensures var typ := TypeCode(r.freq, r.weekdays != []);
            var mask := if CarriesDays(typ) then MaskOf(r.weekdays) else 0;
            var got := PositiveOr(if mask != 0 then FormatInt(mask) else "", 0);
            (if got > 0 then DaysOf(got, 7) else []) == DaysBack(r)
  {
    MaskBound(r.weekdays);
    NoDays(7);
    assert r.weekdays == [] ==> MaskOf(r.weekdays) == 0;
    MaskReads(if CarriesDays(TypeCode(r.freq, r.weekdays != [])) then MaskOf(r.weekdays) else 0);
  }

  lemma ReadRendered(r: Rec, start: string)
    requires Representable(r)
    ensures Read(Rendered(r, start)) == ComesBackAs(r)
  {
    Children(r, start);
    FreqReads(r);
    if FreqBack(r.freq, r.weekdays != []).Some? {
      DaysRead(r);
      ParseFormatInt(r.interval);
      NonZeroReads(r.count);
      NonZeroReads(r.monthDay);
      NonZeroReads(r.month);
      ParseFormatCivil(r.until);
    }
  }

  /** A frequency and weekday list the element can carry. */
  ghost predicate CarriedPattern(freq: string, days: seq<string>) {
    (freq in ["DAILY", "MONTHLY"] && days == []) || (freq == "WEEKLY" && InWeekOrder(days, 7))
  }

  /** The rules the element can carry. */
  ghost predicate Carried(r: Rec) {
    && CarriedPattern(r.freq, r.weekdays)
    && r.interval >= 1 && r.count >= 0 && (r.until != ZERO ==> r.count == 0) && r.setPos == 0
  }

  lemma PatternKeptIff(r: Rec)
    ensures FreqBack(r.freq, r.weekdays != []) == Some(r.freq) && DaysBack(r) == r.weekdays <==>
            CarriedPattern(r.freq, r.weekdays)
  {
    MaskKeepsDaysIff(r.weekdays);
    NoDays(7);
    assert r.weekdays == [] ==> MaskOf(r.weekdays) == 0;
  }

  /** A recurrence comes back from a device unchanged exactly when it is one the element can carry. */
  lemma RoundTripIff(r: Rec, start: string)
    requires Representable(r)
    ensures Read(Rendered(r, start)) == Some(r) <==> Carried(r)
  {
    ReadRendered(r, start);
    PatternKeptIff(r);
  }

  // ---------- the texts themselves ----------

  /** The Type of MS-ASTASK as text: an unknown frequency goes out as a daily one. */
  ghost predicate ShowsType(typ: string, freq: string, days: seq<string>) {
    match freq
    case "DAILY" => typ == "0"
    case "WEEKLY" => typ == "1"
    case "MONTHLY" => typ == if days == [] then "2" else "3"
    case "YEARLY" => typ == if days == [] then "5" else "6"
    case _ => typ == "0"
  }

  /** The element of a record, child by child. */
  ghost predicate Shows(e: Element, r: Rec, start: string) {
    var typ, days := ChildText(e, TypeTag), RuleTexts.DayOfWeek(r.weekdays);
    && ShowsType(typ, r.freq, r.weekdays) && ChildText(e, StartTag) == start
    && ChildText(e, UntilTag) == (if r.until != ZERO then FormatCivil(r.until) else "")
    && ChildText(e, OccurrencesTag) == (if r.until == ZERO && r.count > 0 then FormatInt(r.count) else "")
    && ChildText(e, IntervalTag) == FormatInt(r.interval)
    && ChildText(e, DayOfWeekTag) == (if typ in ["1", "3", "6"] && days != 0 then FormatInt(days) else "")
    && ChildText(e, DayOfMonthTag) == (if r.monthDay != 0 then FormatInt(r.monthDay) else "")
    && ChildText(e, WeekOfMonthTag) ==
       (if typ !in ["3", "6"] || r.setPos == 0 then "" else if r.setPos < 0 then "5" else FormatInt(r.setPos))
    && ChildText(e, MonthOfYearTag) == (if r.month != 0 then FormatInt(r.month) else "")
  }

  lemma TypeTexts()
    ensures FormatInt(0) == "0" && FormatInt(1) == "1" && FormatInt(2) == "2" && FormatInt(3) == "3"
    ensures FormatInt(5) == "5" && FormatInt(6) == "6"
  {
  }

  lemma TypeShown(r: Rec, start: string)
    ensures var typ, text := TypeCode(r.freq, r.weekdays != []), ChildText(Rendered(r, start), TypeTag);
            && ShowsType(text, r.freq, r.weekdays)
            && (CarriesDays(typ) <==> text in ["1", "3", "6"]) && (typ == 3 || typ == 6 <==> text in ["3", "6"])
  {
    Children(r, start);
    TypeTexts();
  }

  lemma RenderedShows(r: Rec, start: string)
    ensures Shows(Rendered(r, start), r, start)
  {
    Children(r, start);
    TypeShown(r, start);
    TypeTexts();
    RuleTexts.MaskIsDayOfWeek(r.weekdays);
    OtherChildren(r, start);
  }

  lemma BoundedOthers(r: Rec, typ: int, start: string)
    ensures ChildText(Bounded(r, typ, start), StartTag) == start && WeekOfMonthTag !in Bounded(r, typ, start)
  {
  }

  lemma PinnedOthers(e: Element, r: Rec, typ: int)
    requires WeekOfMonthTag !in e
    ensures var e' := Pinned(e, r, typ);
            && ChildText(e', StartTag) == ChildText(e, StartTag)
            && ChildText(e', WeekOfMonthTag) ==
               (if (typ == 3 || typ == 6) && WeekOfMonth(r.setPos) != 0 then FormatInt(WeekOfMonth(r.setPos)) else "")
  {
  }

  lemma OtherChildren(r: Rec, start: string)
    ensures var e, typ := Rendered(r, start), TypeCode(r.freq, r.weekdays != []);
            && ChildText(e, StartTag) == start
            && ChildText(e, WeekOfMonthTag) ==
               (if (typ == 3 || typ == 6) && WeekOfMonth(r.setPos) != 0 then FormatInt(WeekOfMonth(r.setPos)) else "")
  {
    var typ := TypeCode(r.freq, r.weekdays != []);
    BoundedOthers(r, typ, start);
    PinnedOthers(Bounded(r, typ, start), r, typ);
  }

  /** The record an element is stored as, from the texts of its children. */
  ghost predicate StoresAs(e: Element, r: Rec) {
    && (match ChildText(e, TypeTag)
        case "0" => r.freq == "DAILY"
        case "1" => r.freq == "WEEKLY"
        case "2" => r.freq == "MONTHLY"
        case "3" => r.freq == "YEARLY"
        case _ => false)
    && r.interval == PositiveOr(ChildText(e, IntervalTag), 1)
    && r.count == PositiveOr(ChildText(e, OccurrencesTag), 0)
    && r.until == (match ParseUtc(ChildText(e, UntilTag)) case Some(t) => t case None => ZERO)
    && r.weekdays == RuleTexts.WeekdaysIn(PositiveOr(ChildText(e, DayOfWeekTag), 0)) && r.setPos == 0
    && r.monthDay == IntOr(ChildText(e, DayOfMonthTag), 0) && r.month == IntOr(ChildText(e, MonthOfYearTag), 0)
  }

  lemma ReadStores(e: Element)
    ensures Read(e).Some? <==> ChildText(e, TypeTag) in ["0", "1", "2", "3"]
    ensures Read(e).Some? ==> StoresAs(e, Read(e).value)
  {
    var mask := PositiveOr(ChildText(e, DayOfWeekTag), 0);
    RuleTexts.DaysOfMask(mask);
    NoDays(7);
  }

  /** taskRecurrence: no element for a task without a rule or with one that does not read. */
  method TaskRecurrence(rule: string, start: string) returns (e: Option<Element>)
    ensures e.Some? <==> rule != "" && RuleOf(rule).Some?
    ensures e.Some? ==> e.value == Rendered(RuleOf(rule).value, start)
    ensures e.Some? ==> Shows(e.value, RuleOf(rule).value, start)
  {
    if rule == "" {
      return None;
    }
    var rec := ParseRRule(rule);
    if rec.None? {
      return None;
    }
    var rendered := RenderRecurrence(rec.value, start);
    RenderedShows(rec.value, start);
    return Some(rendered);
  }

  /** parseTaskRecurrence: the rule text stored for an element, empty when there is none to store. */
  method ParseTaskRecurrence(e: Option<Element>) returns (rule: string)
    ensures e.None? || Read(e.value).None? ==> rule == ""
    ensures e.Some? && Read(e.value).Some? ==>
              rule == RuleText(Read(e.value).value)
    ensures if e.None? || ChildText(e.value, TypeTag) !in ["0", "1", "2", "3"] then rule == ""
            else exists r :: StoresAs(e.value, r) && rule == RuleText(r)
  {
    if e.None? {
      return "";
    }
    ReadStores(e.value);
    var rec := ReadRecurrence(e.value);
    if rec.None? {
      return "";
    }
    rule := RruleFromRecurrence(rec.value);
  }

  /** Records that equal what their text reads as are told apart by it. */
  lemma RuleTextInjective(r: Rec, s: Rec)
    ensures Plain(r) && Plain(s) && RuleText(r) == RuleText(s) ==> r == s
  {
    if Plain(r) && Plain(s) {
      RuleReadsAs(r);
      RuleReadsAs(s);
    }
  }

  /** A record of the documented vocabulary that equals what its text reads as. */
  predicate Plain(r: Rec) {
    Representable(r) && Worded(r) && Normal(r) == r
  }

  lemma {:induction false} DaysAreDays(mask: int, k: nat)
    requires k <= 7
    ensures AreDays(DaysOf(mask, k))
  {
    if k > 0 {
      DaysAreDays(mask, k - 1);
    }
  }

  lemma BackIsPlain(r: Rec)
    requires Representable(r) && ComesBackAs(r).Some?
    ensures Plain(ComesBackAs(r).value)
  {
    DaysAreDays(MaskOf(r.weekdays), 7);
  }

  lemma EmptyIsNoRule()
    ensures RuleOf("").None?
  {
    assert Text.Split("", ';') == [""];
    assert ReadParts([""]) == [None];
    assert SetParts(BLANK, [None]) == BLANK;
  }

  lemma RuleTextNotEmpty(r: Rec)
    requires Representable(r) && Worded(r)
    ensures RuleText(r) != ""
  {
    RuleReadsAs(r);
    EmptyIsNoRule();
  }

  /** What the store has, what the device is sent for it and what it sends back. */
  lemma SentAndRead(r: Rec, start: string)
    requires Plain(r)
    ensures RuleText(r) != "" && RuleOf(RuleText(r)) == Some(r)
    ensures Read(Rendered(r, start)) == ComesBackAs(r)
    ensures ComesBackAs(r) == Some(r) <==> Carried(r)
  {
    RuleTextNotEmpty(r);
    RuleReadsAs(r);
    ReadRendered(r, start);
    RoundTripIff(r, start);
  }

  lemma BackTextIff(r: Rec)
    requires Plain(r) && ComesBackAs(r).Some?
    ensures var text := RuleText(ComesBackAs(r).value);
            text != "" && (text == RuleText(r) <==> ComesBackAs(r) == Some(r))
  {
    BackIsPlain(r);
    RuleTextNotEmpty(ComesBackAs(r).value);
    RuleTextInjective(r, ComesBackAs(r).value);
  }

  lemma YearlyIsLost(r: Rec)
    requires Worded(r)
    ensures ComesBackAs(r).None? <==> r.freq == "YEARLY"
  {
  }

  /**
   The whole trip, store to device to store: a rule text as the server writes it is
   stored again verbatim exactly when the element can carry the rule.
   */
  method ThereAndBack(r: Rec, start: string) returns (sent: string, stored: string)
    requires Plain(r)
    ensures sent == RuleText(r)
    ensures stored == sent <==> Carried(r)
    ensures stored == "" <==> r.freq == "YEARLY"
  {
    sent := RruleFromRecurrence(r);
    SentAndRead(r, start);
    YearlyIsLost(r);
    var e := TaskRecurrence(sent, start);
    stored := ParseTaskRecurrence(e);
    if ComesBackAs(r).Some? {
      BackTextIff(r);
    }
  }
}
