/**
 * The weekly planning page of the admin front end (pages/admin/Schedule.js):
 * reading "HH:MM" into minutes of the day, the overlap warning shown before
 * a slot is saved, and the calendar view that groups slots by day.
 * JavaScript numbers are modelled as Option<int>: None stands for NaN.
 */
module SchedulePage {
  import opened Wrappers
  import opened GoText
  import opened Sorting
  import opened ScheduleRepository

  /** Number(text) for the texts a time field holds: "" is 0, a signed decimal its value, anything else NaN. */
  function JsNumber(s: string): (r: Option<int>)
    ensures s == [] ==> r == Some(0)
    ensures AllDigits(s) && s != [] ==> r == Some(DecimalValue(s))
  {
    if s == [] then Some(0)
    else if IntSyntax(s) then Some(SignedValue(s))
    else None
  }

  /**
   * parseTime: split on ':', read the first two pieces as numbers and
   * return hours * 60 + minutes; a missing minutes piece is undefined, so
   * the result is NaN.
   */
  function ParseTime(t: string): Option<int> {
    var parts := Split(t, ':');
    if |parts| < 2 then None else TimeOf(parts[0], parts[1])
  }

  /** hours * 60 + minutes, NaN when either piece is not a number. */
  function TimeOf(hours: string, minutes: string): Option<int> {
    match (JsNumber(hours), JsNumber(minutes))
    case (Some(h), Some(m)) => Some(h * 60 + m)
    case _ => None
  }

  /** The hours of an "HH:MM" clock. */
  function Hours(t: string): (h: nat)
    requires IsClock(t)
    ensures h < 100
  {
    assert AllDigits(t[..2]) by {
      assert forall i :: 0 <= i < 2 ==> t[..2][i] == t[i];
    }
    DecimalValueBound(t[..2]);
    DecimalValue(t[..2])
  }

  /** The minutes field of an "HH:MM" clock. */
  function Minutes(t: string): (n: nat)
    requires IsClock(t)
    ensures n < 100
  {
    assert AllDigits(t[3..]) by {
      assert forall i :: 0 <= i < 2 ==> t[3..][i] == t[3 + i];
    }
    DecimalValueBound(t[3..]);
    DecimalValue(t[3..])
  }

  /**
   * The minutes since midnight of an "HH:MM" clock. When the minutes field
   * is below 60 the clock can be read back from the result, so comparing
   * results compares clocks.
   */
  function ClockMinutes(t: string): (m: nat)
    requires IsClock(t)
    ensures Minutes(t) < 60 ==> m / 60 == Hours(t) && m % 60 == Minutes(t)
  {
    Hours(t) * 60 + Minutes(t)
  }

  /** For clocks with a minutes field below 60, minutes since midnight order clocks hour first, then minute. */
  lemma ClockOrder(a: string, b: string)
    requires IsClock(a) && IsClock(b) && Minutes(a) < 60 && Minutes(b) < 60
    ensures ClockMinutes(a) < ClockMinutes(b) <==>
      Hours(a) < Hours(b) || (Hours(a) == Hours(b) && Minutes(a) < Minutes(b))
  {
    if Hours(a) < Hours(b) {
      assert Hours(a) * 60 + 60 <= Hours(b) * 60;
    } else if Hours(b) < Hours(a) {
      assert Hours(b) * 60 + 60 <= Hours(a) * 60;
    }
  }

  lemma DecimalValueBound(s: string)
    requires AllDigits(s) && |s| == 2
    ensures DecimalValue(s) < 100
  {
    var head := s[..1];
    assert head[..0] == [] && AllDigits(head);
    assert DecimalValue(head) == s[0] as int - '0' as int;
    assert DecimalValue(s) == DecimalValue(head) * 10 + (s[1] as int - '0' as int);
  }

  /** parseTime reads an "HH:MM" clock as hours * 60 + minutes. */
  lemma ParseClock(t: string)
    requires IsClock(t)
    ensures ParseTime(t) == Some(ClockMinutes(t))
  {
    var hh, mm := t[..2], t[3..];
    assert t == hh + [':'] + mm;
    assert ':' !in hh && ':' !in mm by {
      assert forall i :: 0 <= i < 2 ==> hh[i] == t[i] && mm[i] == t[3 + i];
    }
    SplitFirst(hh, mm, ':');
    SplitNoSeparator(mm, ':');
    assert Split(t, ':') == [hh, mm];
  }

  /** parseTime reads only the first two pieces of its text. */
  lemma ParseTimeHead(t: string, hours: string, minutes: string)
    requires |Split(t, ':')| >= 2 && Split(t, ':')[0] == hours && Split(t, ':')[1] == minutes
    ensures ParseTime(t) == TimeOf(hours, minutes)
  {
  }

  /** parseTime ignores a seconds field: "HH:MM:SS" reads as its "HH:MM". */
  lemma ParseIgnoresSeconds(t: string, ss: string)
    requires IsClock(t) && ':' !in ss
    ensures ParseTime(t + [':'] + ss) == Some(ClockMinutes(t))
  {
    var hh, mm := t[..2], t[3..];
    assert ':' !in hh && ':' !in mm by {
      assert forall i :: 0 <= i < 2 ==> hh[i] == t[i] && mm[i] == t[3 + i];
    }
    var tail := mm + [':'] + ss;
    assert t + [':'] + ss == hh + [':'] + tail;
    SplitFirst(hh, tail, ':');
    SplitFirst(mm, ss, ':');
    ParseTimeHead(t + [':'] + ss, hh, mm);
    ParseClock(t);
    SplitFirst(hh, mm, ':');
    SplitNoSeparator(mm, ':');
    assert t == hh + [':'] + mm;
    ParseTimeHead(t, hh, mm);
  }

  /** Two half-open minute intervals [start, end) share a minute. */
  predicate Overlaps(newStart: int, newEnd: int, existingStart: int, existingEnd: int) {
    newStart < existingEnd && newEnd > existingStart
  }

  /**
   * The test applied to one existing slot: the slot being edited and slots
   * on other days never conflict; a NaN anywhere makes both comparisons false.
   */
  predicate SlotConflicts(slot: TrainingSchedule, day: string, startTime: string, duration: Option<int>,
                          excludeId: Option<int>) {
    if excludeId == Some(slot.id) || slot.dayOfWeek != day then false
    else
      match (ParseTime(startTime), duration, ParseTime(slot.startTime))
      case (Some(newStart), Some(d), Some(existingStart)) =>
        Overlaps(newStart, newStart + d, existingStart, existingStart + slot.durationMinutes)
      case _ => false
  }

  /** checkTimeConflict: whether some slot in the schedule conflicts. */
  function CheckTimeConflict(slots: seq<TrainingSchedule>, day: string, startTime: string, duration: Option<int>,
                             excludeId: Option<int>): (r: bool)
    ensures r <==> exists i :: 0 <= i < |slots| && SlotConflicts(slots[i], day, startTime, duration, excludeId)
  {
    if slots == [] then false
    else
      var rest := CheckTimeConflict(slots[1..], day, startTime, duration, excludeId);
      assert forall i :: 1 <= i < |slots| ==> slots[i] == slots[1..][i - 1];
      assert rest ==> exists i :: 0 <= i < |slots| && SlotConflicts(slots[i], day, startTime, duration, excludeId) by {
        if rest {
          var j :| 0 <= j < |slots[1..]| && SlotConflicts(slots[1..][j], day, startTime, duration, excludeId);
          assert slots[j + 1] == slots[1..][j];
        }
      }
      SlotConflicts(slots[0], day, startTime, duration, excludeId) || rest
  }

  /** Conflict is symmetric: a slot overlaps another exactly when the other overlaps it. */
  lemma ConflictSymmetric(a: TrainingSchedule, b: TrainingSchedule)
    ensures SlotConflicts(a, b.dayOfWeek, b.startTime, Some(b.durationMinutes), None)
        <==> SlotConflicts(b, a.dayOfWeek, a.startTime, Some(a.durationMinutes), None)
  {
  }

  /** A new slot that starts when an existing one ends, or ends when it starts, does not conflict with it. */
  lemma BackToBack(slot: TrainingSchedule, startTime: string, duration: int, excludeId: Option<int>)
    requires ParseTime(slot.startTime).Some? && ParseTime(startTime).Some?
    requires || ParseTime(startTime).value == ParseTime(slot.startTime).value + slot.durationMinutes
             || ParseTime(startTime).value + duration == ParseTime(slot.startTime).value
    ensures !SlotConflicts(slot, slot.dayOfWeek, startTime, Some(duration), excludeId)
  {
  }

  /** A slot that is neither excluded nor empty conflicts with itself. */
  lemma ConflictsWithItself(slots: seq<TrainingSchedule>, i: int)
    requires 0 <= i < |slots| && ParseTime(slots[i].startTime).Some? && slots[i].durationMinutes > 0
    ensures CheckTimeConflict(slots, slots[i].dayOfWeek, slots[i].startTime, Some(slots[i].durationMinutes), None)
  {
    assert SlotConflicts(slots[i], slots[i].dayOfWeek, slots[i].startTime, Some(slots[i].durationMinutes), None);
  }

  /** The check asks whether some member of the schedule conflicts; positions do not matter. */
  lemma ConflictMembers(slots: seq<TrainingSchedule>, day: string, startTime: string, duration: Option<int>,
                        excludeId: Option<int>)
    ensures CheckTimeConflict(slots, day, startTime, duration, excludeId)
        <==> exists x :: x in slots && SlotConflicts(x, day, startTime, duration, excludeId)
  {
    if x :| x in slots && SlotConflicts(x, day, startTime, duration, excludeId) {
      var i :| 0 <= i < |slots| && slots[i] == x;
      assert SlotConflicts(slots[i], day, startTime, duration, excludeId);
    }
  }

  /** The slot being edited is ignored: dropping every slot with its id changes nothing. */
  lemma ExcludedIgnored(slots: seq<TrainingSchedule>, day: string, startTime: string, duration: Option<int>,
                        id: int)
    ensures CheckTimeConflict(slots, day, startTime, duration, Some(id))
         == CheckTimeConflict(Filter(slots, (s: TrainingSchedule) => s.id != id), day, startTime, duration, Some(id))
  {
    var others := Filter(slots, (s: TrainingSchedule) => s.id != id);
    ConflictMembers(slots, day, startTime, duration, Some(id));
    ConflictMembers(others, day, startTime, duration, Some(id));
    assert forall x :: x in others <==> x in slots && x.id != id;
  }

  /** Editing the only slot of a schedule never reports a conflict. */
  lemma EditAloneNoConflict(slot: TrainingSchedule)
    ensures !CheckTimeConflict([slot], slot.dayOfWeek, slot.startTime, Some(slot.durationMinutes), Some(slot.id))
  {
  }

  // ---------------------------------------------------------------- calendar view

  /** The day values of the week, Monday first. */
  const DaysOfWeek: seq<string> := ["Monday", "Tuesday", "Wednesday", "Thursday", "Friday", "Saturday", "Sunday"]

  /** The sort key of a slot; a start time that parses to NaN is taken as minute 0. */
  function StartKey(s: TrainingSchedule): int {
    match ParseTime(s.startTime)
    case Some(m) => m
    case None => 0
  }

  function OnDay(day: string): TrainingSchedule -> bool {
    (s: TrainingSchedule) => s.dayOfWeek == day
  }

  /**
   * groupedSchedules: for each of the seven days, the slots of that day
   * and no other, a permutation of them sorted by start minutes.
   */
  function Grouped(slots: seq<TrainingSchedule>): (g: map<string, seq<TrainingSchedule>>)
    ensures g.Keys == set d | d in DaysOfWeek
    ensures forall d :: d in g ==> Sorted(g[d], ByIntKey(StartKey))
    ensures forall d :: d in g ==> multiset(g[d]) == multiset(Filter(slots, OnDay(d)))
    ensures forall d, x :: d in g ==> (x in g[d] <==> x in slots && x.dayOfWeek == d)
  {
    IntKeyPreorder(StartKey);
    var g := map d | d in DaysOfWeek :: SortSeq(Filter(slots, OnDay(d)), ByIntKey(StartKey));
    assert forall d, x :: d in g ==> (x in g[d] <==> x in Filter(slots, OnDay(d))) by {
      forall d, x | d in g ensures x in g[d] <==> x in Filter(slots, OnDay(d)) {
        assert x in g[d] <==> x in multiset(g[d]);
      }
    }
    g
  }

  /** A slot of one of the seven days is shown under its own day; a slot of any other day is not shown. */
  lemma GroupedShowsEach(slots: seq<TrainingSchedule>, x: TrainingSchedule)
    requires x in slots
    ensures x.dayOfWeek in DaysOfWeek ==> x in Grouped(slots)[x.dayOfWeek]
    ensures forall d :: d in Grouped(slots) ==> (x in Grouped(slots)[d] <==> d == x.dayOfWeek)
  {
  }
}
