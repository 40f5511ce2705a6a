/** The ordering window: which days can be ordered for, and how many there are. Days are numbered so
    that day 0 is a Sunday. */
module OrderWindow {
  import opened Sequences

  const WINDOW: nat := 30

  /** `date.format('d')`. */
  function Weekday(day: int): int {
    day % 7
  }

  predicate IsWeekend(day: int) {
    Weekday(day) == 0 || Weekday(day) == 6
  }

  /** The first day shown and the holidays. */
  datatype Config = Config(today: int, dayOffs: seq<int>) {
    predicate IsWeekendOrHoliday(day: int) {
      IsWeekend(day) || day in dayOffs
    }

    /** The day has shift buttons: it is one of the 30 shown and not off. */
    predicate CanOrder(day: int) {
      today <= day < today + WINDOW && !IsWeekendOrHoliday(day)
    }
  }

  /** Working days among the `n` days from `first`. */
  function WorkDays(first: int, n: nat): nat {
    if n == 0 then 0 else WorkDays(first, n - 1) + Working(first + n - 1)
  }

  lemma WeekdayAfter(day: int, i: nat)
    ensures Weekday(day + i) == (Weekday(day) + i) % 7
  {
    var q := day / 7;
    assert day == 7 * q + Weekday(day);
  }

  function Working(day: int): nat {
    if IsWeekend(day) then 0 else 1
  }

  lemma FiveOfSeven(d: int)
    ensures Working(d) + Working(d + 1) + Working(d + 2) + Working(d + 3)
          + Working(d + 4) + Working(d + 5) + Working(d + 6) == 5
  {
    WeekdayAfter(d, 1);
    WeekdayAfter(d, 2);
    WeekdayAfter(d, 3);
    WeekdayAfter(d, 4);
    WeekdayAfter(d, 5);
    WeekdayAfter(d, 6);
  }

  /** A week more is five working days more, wherever it starts. */
  lemma WeekMore(first: int, n: nat)
    ensures WorkDays(first, n + 7) == WorkDays(first, n) + 5
  {
    FiveOfSeven(first + n);
    assert WorkDays(first, n + 7) == WorkDays(first, n + 6) + Working(first + n + 6);
    assert WorkDays(first, n + 6) == WorkDays(first, n + 5) + Working(first + n + 5);
    assert WorkDays(first, n + 5) == WorkDays(first, n + 4) + Working(first + n + 4);
    assert WorkDays(first, n + 4) == WorkDays(first, n + 3) + Working(first + n + 3);
    assert WorkDays(first, n + 3) == WorkDays(first, n + 2) + Working(first + n + 2);
    assert WorkDays(first, n + 2) == WorkDays(first, n + 1) + Working(first + n + 1);
    assert WorkDays(first, n + 1) == WorkDays(first, n) + Working(first + n);
  }

  /** Any 30 consecutive days hold at least 8 weekend days. */
  lemma ThirtyDays(first: int)
    ensures 20 <= WorkDays(first, WINDOW) <= 22
  {
    WeekMore(first, 2);
    WeekMore(first, 9);
    WeekMore(first, 16);
    WeekMore(first, 23);
    assert WorkDays(first, 1) <= 1 && WorkDays(first, 2) <= 2;
  }

  ghost function WorkDaySet(first: int, n: nat): set<int> {
    set d | first <= d < first + n && !IsWeekend(d)
  }

  lemma {:induction false} WorkDaySetSize(first: int, n: nat)
    ensures |WorkDaySet(first, n)| == WorkDays(first, n)
  {
    if n == 0 {
    } else {
      WorkDaySetSize(first, n - 1);
      var last := first + n - 1;
      if IsWeekend(last) {
        assert WorkDaySet(first, n) == WorkDaySet(first, n - 1);
      } else {
        assert WorkDaySet(first, n) == WorkDaySet(first, n - 1) + {last};
      }
    }
  }

  lemma {:induction false} SubsetSize<T>(a: set<T>, b: set<T>)
    requires a <= b
    ensures |a| <= |b|
  {
    if a == {} {
    } else {
      var x :| x in a;
      SubsetSize(a - {x}, b - {x});
    }
  }

  /** So at most 22 different days can be ordered for. */
  lemma OrderableDays(cfg: Config, days: seq<int>)
    requires Distinct(days)
    requires forall i :: 0 <= i < |days| ==> cfg.CanOrder(days[i])
    ensures |days| <= 22
  {
    DistinctCardinality(days);
    var all := set d | d in days;
    assert all <= WorkDaySet(cfg.today, WINDOW);
    SubsetSize(all, WorkDaySet(cfg.today, WINDOW));
    WorkDaySetSize(cfg.today, WINDOW);
    ThirtyDays(cfg.today);
  }
}
