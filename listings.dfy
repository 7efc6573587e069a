/**
 * The listing endpoints: each takes the records fetched from its collection,
 * orders them by the collection's rule and serializes each one.
 *
 *   feed          created_at, newest first
 *   lessons       date, newest first
 *   grades        date, newest first
 *   assessments   due_date, earliest first
 *   schedule      (weekday index, start_time), ascending
 *
 * A missing date counts as `datetime.min`. Python compares a datetime with a
 * value of another type by raising `TypeError`; the model reports that as
 * `Unorderable` whenever there are two or more records to compare.
 */
module Listings {
  import opened Wrappers
  import opened Values
  import opened Text
  import opened Ordering
  import opened Serialization

  datatype ListError = Unorderable(field: string)

  // ---------------------------------------------------------------- dates

  /** The field is missing or holds a datetime, so it compares with `datetime.min`. */
  predicate DateComparable(d: Doc, field: string)
  {
    field !in d || d[field].DateTime?
  }

  /** `d.get(field, datetime.min)`, for a record where that is a datetime. */
  function DateOf(d: Doc, field: string): (t: Timestamp)
    ensures field !in d ==> t == DateTimeMin
    ensures field in d && d[field].DateTime? ==> t == d[field].t
  {
    if field in d && d[field].DateTime? then d[field].t else DateTimeMin
  }

  function DateKey(field: string): Doc -> SortKey
  {
    d => SortKey(DateOf(d, field), "")
  }

  /** The records of `s` whose date is `t`, in the order of `s`. */
  function WithDate(s: seq<Doc>, field: string, t: Timestamp): seq<Doc>
  {
    Class(s, DateKey(field), SortKey(t, ""))
  }

  /** `sorted` raises only when it has two keys to compare and one is not a datetime. */
  predicate Orderable(docs: seq<Doc>, field: string)
  {
    |docs| <= 1 || forall i :: 0 <= i < |docs| ==> DateComparable(docs[i], field)
  }

  /**
   * `sorted(docs, key=lambda d: d.get(field, datetime.min), reverse=reverse)`:
   * a permutation of `docs`, newest first when `reverse` and oldest first
   * otherwise, in which records with the same date keep their fetched order.
   * A missing date is `datetime.min`, so those records come last when
   * `reverse` and first otherwise.
   */
  function OrderByDate(docs: seq<Doc>, field: string, reverse: bool): (r: Result<seq<Doc>, ListError>)
    ensures r.Success? <==> Orderable(docs, field)
    ensures r.Failure? ==> r.error == Unorderable(field)
    ensures r.Success? ==> |r.value| == |docs| && multiset(r.value) == multiset(docs)
    ensures r.Success? && reverse ==>
              forall i, j :: 0 <= i < j < |r.value| ==> DateOf(r.value[i], field) >= DateOf(r.value[j], field)
    ensures r.Success? && !reverse ==>
              forall i, j :: 0 <= i < j < |r.value| ==> DateOf(r.value[i], field) <= DateOf(r.value[j], field)
    ensures r.Success? && reverse ==>
              forall i, j :: (0 <= i < |r.value| && 0 <= j < |r.value| &&
                field !in r.value[j] && DateOf(r.value[i], field) > DateTimeMin) ==> i < j
    ensures r.Success? && !reverse ==>
              forall i, j :: (0 <= i < |r.value| && 0 <= j < |r.value| &&
                field !in r.value[i] && DateOf(r.value[j], field) > DateTimeMin) ==> i < j
    ensures r.Success? ==> forall t :: WithDate(r.value, field, t) == WithDate(docs, field, t)
  {
    if !Orderable(docs, field) then Failure(Unorderable(field))
    else
      var sorted := SortBy(docs, DateKey(field), reverse);
      DateOrderFacts(sorted, field, reverse);
      Success(sorted)
  }

  /** What ordering by the date key says about the dates themselves and about missing dates. */
  lemma DateOrderFacts(r: seq<Doc>, field: string, reverse: bool)
    requires Ordered(r, DateKey(field), reverse)
    ensures reverse ==> forall i, j :: 0 <= i < j < |r| ==> DateOf(r[i], field) >= DateOf(r[j], field)
    ensures !reverse ==> forall i, j :: 0 <= i < j < |r| ==> DateOf(r[i], field) <= DateOf(r[j], field)
    ensures reverse ==>
              forall i, j :: (0 <= i < |r| && 0 <= j < |r| &&
                field !in r[j] && DateOf(r[i], field) > DateTimeMin) ==> i < j
    ensures !reverse ==>
              forall i, j :: (0 <= i < |r| && 0 <= j < |r| &&
                field !in r[i] && DateOf(r[j], field) > DateTimeMin) ==> i < j
  {
  }

  // ------------------------------------------------------------- schedule

  /** The weekday table of `list_schedule`. */
  const Weekdays: map<string, int> := map[
    "monday" := 0, "tuesday" := 1, "wednesday" := 2, "thursday" := 3,
    "friday" := 4, "saturday" := 5, "sunday" := 6]

  const WeekdayNames: seq<string> :=
    ["monday", "tuesday", "wednesday", "thursday", "friday", "saturday", "sunday"]

  /** `order.get(day.lower(), 7)`: Monday..Sunday in any case are 0..6, anything else 7. */
  function DayIndex(day: string): (r: int)
    ensures 0 <= r <= 7
    ensures r < 7 ==> Lower(day) == WeekdayNames[r]
    ensures r == 7 <==> Lower(day) !in WeekdayNames
  {
    var name := Lower(day);
    if name in Weekdays then Weekdays[name] else 7
  }

  /** `str(d.get("day", ""))`'s weekday index. */
  function DayOf(lib: Library, d: Doc): (r: int)
    ensures 0 <= r <= 7
    ensures "day" !in d ==> r == 7
    ensures "day" in d && d["day"].Str? ==> r == DayIndex(d["day"].s)
  {
    DayIndex(PyStr(lib, GetOr(d, "day", Str(""))))
  }

  /** `str(d.get("start_time", ""))`. */
  function StartOf(lib: Library, d: Doc): (s: string)
    ensures "start_time" !in d ==> s == ""
    ensures "start_time" in d && d["start_time"].Str? ==> s == d["start_time"].s
  {
    PyStr(lib, GetOr(d, "start_time", Str("")))
  }

  function ScheduleKey(lib: Library): Doc -> SortKey
  {
    d => SortKey(DayOf(lib, d), StartOf(lib, d))
  }

  /** The schedule items of `s` on weekday index `day` starting at `start`, in the order of `s`. */
  function WithSlot(lib: Library, s: seq<Doc>, day: int, start: string): seq<Doc>
  {
    Class(s, ScheduleKey(lib), SortKey(day, start))
  }

  /**
   * The schedule order: a permutation of `docs`, ascending by weekday index
   * and then by `start_time` as a string, items in the same slot keeping
   * their fetched order. Items on an unrecognised or missing day come after
   * every recognised day; within a day an item with no `start_time` comes
   * before every item with a non-empty one.
   */
  function OrderSchedule(lib: Library, docs: seq<Doc>): (r: seq<Doc>)
    ensures |r| == |docs| && multiset(r) == multiset(docs)
    ensures forall i, j :: 0 <= i < j < |r| ==>
              DayOf(lib, r[i]) < DayOf(lib, r[j]) ||
              (DayOf(lib, r[i]) == DayOf(lib, r[j]) && StrLe(StartOf(lib, r[i]), StartOf(lib, r[j])))
    ensures forall i, j :: (0 <= i < |r| && 0 <= j < |r| &&
              DayOf(lib, r[i]) < 7 && DayOf(lib, r[j]) == 7) ==> i < j
    ensures forall i, j :: (0 <= i < |r| && 0 <= j < |r| && DayOf(lib, r[i]) == DayOf(lib, r[j]) &&
              "start_time" !in r[i] && StartOf(lib, r[j]) != "") ==> i < j
    ensures forall day, start :: WithSlot(lib, r, day, start) == WithSlot(lib, docs, day, start)
  {
    var sorted := SortBy(docs, ScheduleKey(lib), false);
    ScheduleOrderFacts(lib, sorted);
    sorted
  }

  /** What ordering by the schedule key says about weekday indexes and start times. */
  lemma ScheduleOrderFacts(lib: Library, r: seq<Doc>)
    requires Ordered(r, ScheduleKey(lib), false)
    ensures forall i, j :: 0 <= i < j < |r| ==>
              DayOf(lib, r[i]) < DayOf(lib, r[j]) ||
              (DayOf(lib, r[i]) == DayOf(lib, r[j]) && StrLe(StartOf(lib, r[i]), StartOf(lib, r[j])))
    ensures forall i, j :: (0 <= i < |r| && 0 <= j < |r| &&
              DayOf(lib, r[i]) < 7 && DayOf(lib, r[j]) == 7) ==> i < j
    ensures forall i, j :: (0 <= i < |r| && 0 <= j < |r| && DayOf(lib, r[i]) == DayOf(lib, r[j]) &&
              "start_time" !in r[i] && StartOf(lib, r[j]) != "") ==> i < j
  {
    forall i, j | 0 <= i < j < |r|
      ensures DayOf(lib, r[i]) < DayOf(lib, r[j]) ||
              (DayOf(lib, r[i]) == DayOf(lib, r[j]) && StrLe(StartOf(lib, r[i]), StartOf(lib, r[j])))
    {
      assert InOrder(ScheduleKey(lib)(r[i]), ScheduleKey(lib)(r[j]), false);
    }
    SlotFacts(lib, r);
  }

  /** What the (day, start) order implies about unknown days and missing start times. */
  lemma SlotFacts(lib: Library, r: seq<Doc>)
    requires forall i, j :: 0 <= i < j < |r| ==>
              DayOf(lib, r[i]) < DayOf(lib, r[j]) ||
              (DayOf(lib, r[i]) == DayOf(lib, r[j]) && StrLe(StartOf(lib, r[i]), StartOf(lib, r[j])))
    ensures forall i, j :: (0 <= i < |r| && 0 <= j < |r| &&
              DayOf(lib, r[i]) < 7 && DayOf(lib, r[j]) == 7) ==> i < j
    ensures forall i, j :: (0 <= i < |r| && 0 <= j < |r| && DayOf(lib, r[i]) == DayOf(lib, r[j]) &&
              "start_time" !in r[i] && StartOf(lib, r[j]) != "") ==> i < j
  {
    forall i, j | 0 <= i < |r| && 0 <= j < |r| && DayOf(lib, r[i]) == DayOf(lib, r[j]) &&
                  "start_time" !in r[i] && StartOf(lib, r[j]) != ""
      ensures i < j
    {
      EmptyIsLeast(StartOf(lib, r[j]));
    }
  }

  // ------------------------------------------------------------ endpoints

  /** `[_serialize(d) for d in docs]`. */
  function SerializeAll(lib: Library, docs: seq<Doc>): (r: seq<Doc>)
    ensures |r| == |docs|
    ensures forall i :: 0 <= i < |r| ==> r[i] == Serialized(lib, docs[i])
    ensures forall i :: 0 <= i < |r| ==> "_id" !in r[i]
  {
    seq(|docs|, i requires 0 <= i < |docs| => Serialized(lib, docs[i]))
  }

  /** The response of a dated listing: its ordered records, each serialized, or the sort's error. */
  function Respond(lib: Library, ordered: Result<seq<Doc>, ListError>): (r: Result<seq<Doc>, ListError>)
    ensures r.Success? <==> ordered.Success?
    ensures r.Failure? ==> r.error == ordered.error
    ensures r.Success? ==> |r.value| == |ordered.value| && forall i :: 0 <= i < |r.value| ==> "_id" !in r.value[i]
    ensures r.Success? ==> forall i :: 0 <= i < |r.value| ==> r.value[i] == Serialized(lib, ordered.value[i])
  {
    match ordered
    case Success(docs) => Success(SerializeAll(lib, docs))
    case Failure(e) => Failure(e)
  }

  /** `list_feed`: the fetched posts newest first by `created_at`, serialized. */
  function ListFeed(lib: Library, fetched: seq<Doc>): (r: Result<seq<Doc>, ListError>)
    ensures r.Success? <==> Orderable(fetched, "created_at")
    ensures r.Failure? ==> r.error == Unorderable("created_at")
    ensures r.Success? ==> r.value == SerializeAll(lib, OrderByDate(fetched, "created_at", true).value)
  {
    Respond(lib, OrderByDate(fetched, "created_at", true))
  }

  /** `list_lessons`: the fetched lessons newest first by `date`, serialized. */
  function ListLessons(lib: Library, fetched: seq<Doc>): (r: Result<seq<Doc>, ListError>)
    ensures r.Success? <==> Orderable(fetched, "date")
    ensures r.Failure? ==> r.error == Unorderable("date")
    ensures r.Success? ==> r.value == SerializeAll(lib, OrderByDate(fetched, "date", true).value)
  {
    Respond(lib, OrderByDate(fetched, "date", true))
  }

  /** `list_grades`: the fetched grades newest first by `date`, serialized. */
  function ListGrades(lib: Library, fetched: seq<Doc>): (r: Result<seq<Doc>, ListError>)
    ensures r.Success? <==> Orderable(fetched, "date")
    ensures r.Failure? ==> r.error == Unorderable("date")
    ensures r.Success? ==> r.value == SerializeAll(lib, OrderByDate(fetched, "date", true).value)
  {
    Respond(lib, OrderByDate(fetched, "date", true))
  }

  /** `list_assessments`: the fetched assessments earliest first by `due_date`, serialized. */
  function ListAssessments(lib: Library, fetched: seq<Doc>): (r: Result<seq<Doc>, ListError>)
    ensures r.Success? <==> Orderable(fetched, "due_date")
    ensures r.Failure? ==> r.error == Unorderable("due_date")
    ensures r.Success? ==> r.value == SerializeAll(lib, OrderByDate(fetched, "due_date", false).value)
  {
    Respond(lib, OrderByDate(fetched, "due_date", false))
  }

  /** `list_schedule`: the fetched items in schedule order, serialized; it never fails. */
  function ListSchedule(lib: Library, fetched: seq<Doc>): (r: seq<Doc>)
    ensures |r| == |fetched|
    ensures forall i :: 0 <= i < |r| ==> "_id" !in r[i] && r[i] == Serialized(lib, OrderSchedule(lib, fetched)[i])
  {
    SerializeAll(lib, OrderSchedule(lib, fetched))
  }
}
