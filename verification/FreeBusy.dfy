/**
 MergedFreeBusy ([MS-ASCMD] section 2.2.3.107): busy blocks rendered as one digit per
 30-minute slot, the highest status of any event that overlaps the slot.
 */
module FreeBusy {
  import opened Strconv

  /** Thirty minutes in nanoseconds. */
  const SLOT := 1_800_000_000_000

  /** A calendar block; a time that does not parse is None. */
  datatype Event = Event(busyType: string, start: Option<int>, end: Option<int>)

  function BusyDigit(busyType: string): char {
    if busyType == "Tentative" then '1'
    else if busyType == "Busy" then '2'
    else if busyType == "OOF" then '3'
    else '0'
  }

  function SlotCount(start: int, end: int): nat {
    if end <= start then 0 else (end - start) / SLOT + if (end - start) % SLOT != 0 then 1 else 0
  }

  function SlotStart(start: int, i: int): int {
    start + i * SLOT
  }

  predicate Overlaps(e: Event, slotStart: int) {
    e.start.Some? && e.end.Some? && e.start.value < slotStart + SLOT && e.end.value > slotStart
  }

  /** What one event claims of one slot. */
  function Claim(e: Event, slotStart: int): char {
    if Overlaps(e, slotStart) then BusyDigit(e.busyType) else '0'
  }

  /** `d` is the highest claim any event lays on the slot. */
  ghost predicate IsHighest(d: char, slotStart: int, events: seq<Event>) {
    && (forall e :: e in events ==> Claim(e, slotStart) <= d)
    && (d == '0' || exists e :: e in events && Claim(e, slotStart) == d)
  }

  /** `s` is the free/busy string of the window. */
  ghost predicate IsMerged(s: string, start: int, end: int, events: seq<Event>) {
    |s| == SlotCount(start, end) && forall i :: 0 <= i < |s| ==> IsHighest(s[i], SlotStart(start, i), events)
  }

  function Higher(a: char, b: char): char {
    if b > a then b else a
  }

  /** markBusySlots: raises every slot the event overlaps, in place. */
  method MarkBusySlots(digits: array<char>, start: int, e: Event)
    requires forall i :: 0 <= i < digits.Length ==> digits[i] >= '0'
    modifies digits
    ensures forall i :: 0 <= i < digits.Length ==> digits[i] == Higher(old(digits[i]), Claim(e, SlotStart(start, i)))
  {
    var d := BusyDigit(e.busyType);
    if d == '0' || e.start.None? || e.end.None? {
      return;
    }
    for i := 0 to digits.Length
      invariant forall j :: 0 <= j < i ==> digits[j] == Higher(old(digits[j]), Claim(e, SlotStart(start, j)))
      invariant forall j :: i <= j < digits.Length ==> digits[j] == old(digits[j])
    {
      var slotStart := SlotStart(start, i);
      if e.start.value < slotStart + SLOT && e.end.value > slotStart && d > digits[i] {
        digits[i] := d;
      }
    }
  }

  lemma RaiseHighest(d: char, slotStart: int, events: seq<Event>, e: Event)
    requires IsHighest(d, slotStart, events)
    ensures IsHighest(Higher(d, Claim(e, slotStart)), slotStart, events + [e])
  {
    var all := events + [e];
    assert e in all;
    if d != '0' {
      var x :| x in events && Claim(x, slotStart) == d;
      assert x in all;
    }
  }

  method QuantizeFreeBusy(start: int, end: int, events: seq<Event>) returns (s: string)
    ensures IsMerged(s, start, end, events)
  {
    var total := end - start;
    if total <= 0 {
      return "";
    }
    var slots := total / SLOT;
    if total % SLOT != 0 {
      slots := slots + 1;
    }
    var digits := new char[slots](_ => '0');
    for n := 0 to |events|
      invariant forall i :: 0 <= i < digits.Length ==> IsHighest(digits[i], SlotStart(start, i), events[..n])
      invariant forall i :: 0 <= i < digits.Length ==> digits[i] >= '0'
    {
      ghost var before := digits[..];
      MarkBusySlots(digits, start, events[n]);
      assert events[..n + 1] == events[..n] + [events[n]];
      forall i | 0 <= i < digits.Length ensures IsHighest(digits[i], SlotStart(start, i), events[..n + 1]) {
        RaiseHighest(before[i], SlotStart(start, i), events[..n], events[n]);
      }
    }
    assert events[..|events|] == events;
    s := digits[..];
  }

  /** The string depends only on which events there are, not on their order or repetition. */
  lemma OrderIrrelevant(s: string, t: string, start: int, end: int, events: seq<Event>, events': seq<Event>)
    requires IsMerged(s, start, end, events) && IsMerged(t, start, end, events')
    requires forall e :: e in events <==> e in events'
    ensures s == t
  {
    forall i | 0 <= i < |s| ensures s[i] == t[i] {
      HighestUnique(s[i], t[i], SlotStart(start, i), events, events');
    }
  }

  lemma HighestUnique(a: char, b: char, slotStart: int, events: seq<Event>, events': seq<Event>)
    requires IsHighest(a, slotStart, events) && IsHighest(b, slotStart, events')
    requires a >= '0' && b >= '0'
    requires forall e :: e in events <==> e in events'
    ensures a == b
  {
    if a != '0' {
      var e :| e in events && Claim(e, slotStart) == a;
      assert e in events';
    }
    if b != '0' {
      var e :| e in events' && Claim(e, slotStart) == b;
      assert e in events;
    }
  }

  lemma SlotCountSplit(start: int, end: int, k: nat)
    requires SlotStart(start, k) <= end
    ensures SlotCount(start, SlotStart(start, k)) == k
    ensures SlotCount(start, end) == k + SlotCount(SlotStart(start, k), end)
  {
    var total, rest := end - start, end - SlotStart(start, k);
    assert total == k * SLOT + rest;
    assert (k * SLOT) / SLOT == k && (k * SLOT) % SLOT == 0;
    assert total / SLOT == k + rest / SLOT && total % SLOT == rest % SLOT;
  }

  /** Cutting the window at any slot border cuts the string there. */
  lemma SplitsAtSlots(s: string, left: string, right: string, start: int, end: int, k: nat, events: seq<Event>)
    requires SlotStart(start, k) <= end
    requires IsMerged(s, start, end, events)
    requires IsMerged(left, start, SlotStart(start, k), events) && IsMerged(right, SlotStart(start, k), end, events)
    ensures s == left + right
  {
    SlotCountSplit(start, end, k);
    forall i | 0 <= i < |s| ensures s[i] == (left + right)[i] {
      if i < k {
        HighestUnique(s[i], left[i], SlotStart(start, i), events, events);
      } else {
        assert SlotStart(SlotStart(start, k), i - k) == SlotStart(start, i);
        HighestUnique(s[i], right[i - k], SlotStart(start, i), events, events);
      }
    }
  }

  /** One digit for each half hour begun: the string covers the window, and without its last digit would not. */
  lemma CoversWindow(s: string, start: int, end: int, events: seq<Event>)
    requires IsMerged(s, start, end, events)
    ensures |s| * 1_800_000_000_000 >= end - start
    ensures s != "" ==> (|s| - 1) * 1_800_000_000_000 < end - start
  {
  }

  predicate InHalfHour(t: int, slotStart: int) {
    slotStart <= t < slotStart + 1_800_000_000_000
  }

  predicate InEvent(t: int, e: Event) {
    e.start.Some? && e.end.Some? && e.start.value <= t < e.end.value
  }

  /** The event and the half hour from `slotStart` on have an instant in common. */
  ghost predicate Meets(e: Event, slotStart: int) {
    exists t :: InHalfHour(t, slotStart) && InEvent(t, e)
  }

  /**
   An event counts for a half hour exactly when the two have an instant in common; of the
   events that have none of their own, those that end no later than they start, exactly
   those count that start before the half hour is over and end after it has begun.
   */
  lemma OverlapsIff(e: Event, slotStart: int)
    ensures Overlaps(e, slotStart) <==>
            || Meets(e, slotStart)
            || (&& e.start.Some? && e.end.Some? && e.end.value <= e.start.value
                && slotStart < e.end.value && e.start.value < slotStart + 1_800_000_000_000)
  {
    if Overlaps(e, slotStart) && e.start.value < e.end.value {
      var t := if e.start.value < slotStart then slotStart else e.start.value;
      assert InHalfHour(t, slotStart) && InEvent(t, e);
    }
  }

  /** Some event of this status overlaps the slot. */
  ghost predicate Somebody(busyType: string, slotStart: int, events: seq<Event>) {
    exists e :: e in events && e.busyType == busyType && Overlaps(e, slotStart)
  }

  /** What a digit means: out of office over busy over tentative over free. */
  lemma DigitMeans(s: string, start: int, end: int, events: seq<Event>, i: nat)
    requires IsMerged(s, start, end, events) && i < |s|
    ensures var at := start + i * 1_800_000_000_000;
            var oof, busy, tentative := Somebody("OOF", at, events), Somebody("Busy", at, events),
                                        Somebody("Tentative", at, events);
            s[i] == if oof then '3' else if busy then '2' else if tentative then '1' else '0'
  {
    var at := SlotStart(start, i);
    assert IsHighest(s[i], at, events);
  }
}
