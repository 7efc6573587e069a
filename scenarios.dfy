/** Worked cases of the ordering rules and the weekday table. */
module Scenarios {
  import opened Wrappers
  import opened Values
  import opened Text
  import opened Ordering
  import opened Listings

  /** A day name whose characters lower-case one by one to `name` is looked up as `name`. */
  lemma DayIndexByName(day: string, name: string)
    requires |day| == |name|
    requires forall i :: 0 <= i < |day| ==> LowerChar(day[i]) == name[i]
    ensures DayIndex(day) == if name in Weekdays then Weekdays[name] else 7
  {
    assert Lower(day) == name;
  }

  /** The weekday name is matched whatever its case. */
  lemma CapitalisedMonday()
    ensures DayIndex("Monday") == 0
  {
    DayIndexByName("Monday", "monday");
  }

  lemma CapitalisedFriday()
    ensures DayIndex("Friday") == 4
  {
    DayIndexByName("Friday", "friday");
  }

  lemma UpperCaseTuesday()
    ensures DayIndex("TUESDAY") == 1
  {
    DayIndexByName("TUESDAY", "tuesday");
  }

  /** A name not in the table, and a missing day (""), get index 7. */
  lemma UnknownDays()
    ensures DayIndex("Funday") == 7 && DayIndex("") == 7
  {
  }

  lemma SortPair<T>(x: T, y: T, key: T -> SortKey, reverse: bool)
    ensures SortBy([x, y], key, reverse) ==
            if InOrder(key(x), key(y), reverse) then [x, y] else [y, x]
  {
  }

  lemma SortTriple<T>(x: T, y: T, z: T, key: T -> SortKey, reverse: bool)
    ensures SortBy([x, y, z], key, reverse) == Insert(z, SortBy([x, y], key, reverse), key, reverse)
  {
    assert [x, y, z][..2] == [x, y];
  }

  /** Inserting into a two-element ordered list. */
  lemma InsertIntoPair<T>(z: T, x: T, y: T, key: T -> SortKey, reverse: bool)
    requires InOrder(key(x), key(y), reverse)
    ensures Insert(z, [x, y], key, reverse) ==
            if !InOrder(key(x), key(z), reverse) then [z, x, y]
            else if !InOrder(key(y), key(z), reverse) then [x, z, y]
            else [x, y, z]
  {
  }

  /** Sorting three elements when the last belongs first and the first two are in order. */
  lemma LastToFront<T>(a: T, b: T, c: T, key: T -> SortKey, reverse: bool)
    requires InOrder(key(a), key(b), reverse) && !InOrder(key(a), key(c), reverse)
    ensures SortBy([a, b, c], key, reverse) == [c, a, b]
  {
    SortPair(a, b, key, reverse);
    SortTriple(a, b, c, key, reverse);
    InsertIntoPair(c, a, b, key, reverse);
  }

  /** Sorting three elements that arrive in exactly the opposite order. */
  lemma Reversed3<T>(a: T, b: T, c: T, key: T -> SortKey, reverse: bool)
    requires !InOrder(key(a), key(b), reverse) && !InOrder(key(b), key(c), reverse)
    ensures SortBy([a, b, c], key, reverse) == [c, b, a]
  {
    InOrderTotal(key(a), key(b), reverse);
    SortPair(a, b, key, reverse);
    SortTriple(a, b, c, key, reverse);
    InsertIntoPair(c, b, a, key, reverse);
  }

  /** Three comparable records with distinct dates, listed newest first. */
  lemma NewestFirstOfThree(a: Doc, b: Doc, c: Doc, field: string)
    requires DateComparable(a, field) && DateComparable(b, field) && DateComparable(c, field)
    requires DateOf(b, field) < DateOf(a, field) < DateOf(c, field)
    ensures OrderByDate([a, b, c], field, true) == Success([c, a, b])
  {
    var key := DateKey(field);
    assert Orderable([a, b, c], field);
    assert SortBy([a, b, c], key, true) == [c, a, b] by {
      assert key(a) == SortKey(DateOf(a, field), "");
      assert key(b) == SortKey(DateOf(b, field), "");
      assert key(c) == SortKey(DateOf(c, field), "");
      LastToFront(a, b, c, key, true);
    }
  }

  /** Posts at t0, t0 - h and t0 + h are listed as the newest, then t0, then the oldest. */
  lemma FeedNewestFirst(t0: Timestamp, h: nat)
    requires 0 < h <= t0
    ensures var a := map["text" := Str("A"), "created_at" := DateTime(t0)];
            var b := map["text" := Str("B"), "created_at" := DateTime(t0 - h)];
            var c := map["text" := Str("C"), "created_at" := DateTime(t0 + h)];
            OrderByDate([a, b, c], "created_at", true) == Success([c, a, b])
  {
    var a := map["text" := Str("A"), "created_at" := DateTime(t0)];
    var b := map["text" := Str("B"), "created_at" := DateTime(t0 - h)];
    var c := map["text" := Str("C"), "created_at" := DateTime(t0 + h)];
    NewestFirstOfThree(a, b, c, "created_at");
  }

  /** Two comparable records that arrive latest first are listed earliest first. */
  lemma EarliestFirstOfTwo(a: Doc, b: Doc, field: string)
    requires DateComparable(a, field) && DateComparable(b, field)
    requires DateOf(b, field) < DateOf(a, field)
    ensures OrderByDate([a, b], field, false) == Success([b, a])
  {
    var key := DateKey(field);
    assert Orderable([a, b], field);
    assert SortBy([a, b], key, false) == [b, a] by {
      assert key(a) == SortKey(DateOf(a, field), "");
      assert key(b) == SortKey(DateOf(b, field), "");
      SortPair(a, b, key, false);
    }
  }

  /** An assessment due in two days comes before one due in ten. */
  lemma AssessmentsEarliestFirst(now: Timestamp, day: nat)
    requires 0 < day
    ensures var a := map["title" := Str("A"), "due_date" := DateTime(now + 10 * day)];
            var b := map["title" := Str("B"), "due_date" := DateTime(now + 2 * day)];
            OrderByDate([a, b], "due_date", false) == Success([b, a])
  {
    var a := map["title" := Str("A"), "due_date" := DateTime(now + 10 * day)];
    var b := map["title" := Str("B"), "due_date" := DateTime(now + 2 * day)];
    EarliestFirstOfTwo(a, b, "due_date");
  }

  /** Three schedule items that arrive in exactly the opposite of schedule order. */
  lemma ScheduleReversed3(lib: Library, a: Doc, b: Doc, c: Doc)
    requires DayOf(lib, b) < DayOf(lib, a)
    requires DayOf(lib, c) == DayOf(lib, b) && StrLe(StartOf(lib, c), StartOf(lib, b))
    requires StartOf(lib, c) != StartOf(lib, b)
    ensures OrderSchedule(lib, [a, b, c]) == [c, b, a]
  {
    var key := ScheduleKey(lib);
    assert SortBy([a, b, c], key, false) == [c, b, a] by {
      assert key(a) == SortKey(DayOf(lib, a), StartOf(lib, a));
      assert key(b) == SortKey(DayOf(lib, b), StartOf(lib, b));
      assert key(c) == SortKey(DayOf(lib, c), StartOf(lib, c));
      if StrLe(StartOf(lib, b), StartOf(lib, c)) {
        StrLeAntisym(StartOf(lib, b), StartOf(lib, c));
      }
      Reversed3(a, b, c, key, false);
    }
  }

  /** A schedule item's slot is read from its `day` and `start_time` strings. */
  lemma SlotOf(lib: Library, d: Doc, day: string, start: string)
    requires "day" in d && d["day"] == Str(day)
    requires "start_time" in d && d["start_time"] == Str(start)
    ensures DayOf(lib, d) == DayIndex(day) && StartOf(lib, d) == start
  {
  }

  /** Friday 14:00, Monday 09:00, Monday 08:00 are listed Monday 08:00 first. */
  lemma ScheduleByDayThenTime(lib: Library, a: Doc, b: Doc, c: Doc)
    requires "day" in a && a["day"] == Str("Friday") && "start_time" in a && a["start_time"] == Str("14:00")
    requires "day" in b && b["day"] == Str("Monday") && "start_time" in b && b["start_time"] == Str("09:00")
    requires "day" in c && c["day"] == Str("Monday") && "start_time" in c && c["start_time"] == Str("08:00")
    ensures OrderSchedule(lib, [a, b, c]) == [c, b, a]
  {
    SlotOf(lib, a, "Friday", "14:00");
    SlotOf(lib, b, "Monday", "09:00");
    SlotOf(lib, c, "Monday", "08:00");
    CapitalisedMonday();
    CapitalisedFriday();
    EightBeforeNine();
    ScheduleReversed3(lib, a, b, c);
  }

  lemma EightBeforeNine()
    ensures StrLe("08:00", "09:00") && "08:00" != "09:00"
  {
  }

  /** Nothing fetched, nothing listed. */
  lemma EmptyListings(lib: Library, field: string, reverse: bool)
    ensures OrderByDate([], field, reverse) == Success([])
    ensures OrderSchedule(lib, []) == []
  {
  }
}
