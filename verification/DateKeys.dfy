/**
 The date keys of the end-to-end helpers: a calendar date is read as local noon, moved by
 whole days with `setDate`, and printed as the date in London at that instant.
*/
module DateKeys {
  import opened CivilCalendar

  const MS_PER_HOUR := 3_600_000
  const MS_PER_DAY := 86_400_000
  const NOON := 43_200_000

  /**
   The two time zones, in milliseconds ahead of UTC: the machine's at noon of each local
   day, and London's at each instant.
  */
  datatype Zones = Zones(localAtNoon: int -> int, london: int -> int)

  /** The instant of local noon on the day. */
  function NoonInstant(z: Zones, n: int): int {
    n * MS_PER_DAY + NOON - z.localAtNoon(n)
  }

  /** `getLondonDateKey` */
  function LondonDateKey(z: Zones, instant: int): Date {
    DateOf((instant + z.london(instant)) / MS_PER_DAY)
  }

  /** A Date object that stays at local noon, as `parseDateKeyAtNoon` makes it. */
  class NoonDate {
    const zones: Zones
    var localDay: int

    constructor ParseDateKeyAtNoon(z: Zones, key: Date)
      ensures zones == z && localDay == DayOf(key)
    {
      zones := z;
      localDay := DayOf(key);
    }

    /** `getDate`: the day of the month. */
    function GetDate(): int
      reads this
    {
      DateOf(localDay).day
    }

    /** `getDay`: the weekday, Sunday first. Day 0 was a Thursday. */
    function GetDay(): int
      reads this
    {
      (localDay + 4) % 7
    }

    /** `setDate`: the same month, with any day of the month, in or out of range. */
    method SetDate(day: int)
      modifies this`localDay
      ensures localDay == old(localDay) + day - old(GetDate())
    {
      var today := DateOf(localDay);
      localDay := DayNumber(today.year, today.month, day);
    }

    /** The statement `d.setDate(d.getDate() + days)`: the date `days` days away. */
    method MoveBy(days: int)
      modifies this`localDay
      ensures localDay == old(localDay) + days
    {
      SetDate(GetDate() + days);
    }
  }

  /** The key printed for local noon of a day number. */
  function KeyAt(z: Zones, n: int): Date {
    LondonDateKey(z, NoonInstant(z, n))
  }

  /** `addDaysToDateKey` */
  method AddDaysToDateKey(z: Zones, key: Date, days: int) returns (r: Date)
    requires IsDate(key)
    ensures r == KeyAt(z, DayOf(key) + days)
  {
    var next := new NoonDate.ParseDateKeyAtNoon(z, key);
    next.MoveBy(days);
    assert next.localDay == DayOf(key) + days;
    return KeyAt(next.zones, next.localDay);
  }

  /** Days since Monday, from 0 to 6. */
  function WeekdayIndex(n: int): int {
    (n + 3) % 7
  }

  lemma NewYear2024()
    ensures DayOf(Date(2024, 1, 1)) == 19723
  {
    DayFromYearIsClosedForm(2024);
  }

  /** Weekdays follow each other in turn, and 1 January 2024 was a Monday. */
  lemma WeekdaysAreAnchored(n: int)
    ensures 0 <= WeekdayIndex(n) <= 6
    ensures WeekdayIndex(n + 1) == if WeekdayIndex(n) == 6 then 0 else WeekdayIndex(n) + 1
    ensures WeekdayIndex(DayOf(Date(2024, 1, 1))) == 0
  {
    NewYear2024();
  }

  /** The days to Monday, from the weekday as `getDay` numbers it. */
  function MondayOffset(day: int): int {
    if day == 0 then -6 else 1 - day
  }

  lemma WeekdayOffsets(n: int)
    ensures var day := (n + 4) % 7;
      MondayOffset(day) == -WeekdayIndex(n) && (day + 6) % 7 == WeekdayIndex(n)
  {
  }

  /** The lines the two week helpers share: the anchor's weekday, and a Date moved to its Monday. */
  method MoveToMonday(z: Zones, anchorKey: Date) returns (monday: NoonDate, day: int)
    requires IsDate(anchorKey)
    ensures fresh(monday) && monday.zones == z
    ensures monday.localDay == DayOf(anchorKey) - WeekdayIndex(DayOf(anchorKey))
    ensures (day + 6) % 7 == WeekdayIndex(DayOf(anchorKey))
  {
    monday := new NoonDate.ParseDateKeyAtNoon(z, anchorKey);
    day := monday.GetDay();
    WeekdayOffsets(monday.localDay);
    monday.MoveBy(MondayOffset(day));
  }

  /** `getMondayDateKey` */
  method GetMondayDateKey(z: Zones, anchorKey: Date) returns (r: Date)
    requires IsDate(anchorKey)
    ensures r == KeyAt(z, MondayOf(DayOf(anchorKey)))
  {
    var monday, day := MoveToMonday(z, anchorKey);
    assert monday.localDay == MondayOf(DayOf(anchorKey));
    return KeyAt(monday.zones, monday.localDay);
  }

  function MondayOf(n: int): int {
    n - WeekdayIndex(n)
  }

  /** Monday up to Wednesday, from then on two days back. */
  function OperationalStart(n: int): int {
    if WeekdayIndex(n) <= 2 then n - WeekdayIndex(n) else n - 2
  }

  /** `getOperationalWeekStartDateKey` */
  method GetOperationalWeekStartDateKey(z: Zones, anchorKey: Date) returns (r: Date)
    requires IsDate(anchorKey)
    ensures r == KeyAt(z, OperationalStart(DayOf(anchorKey)))
  {
    var monday, day := MoveToMonday(z, anchorKey);
    var weekdayIndex := (day + 6) % 7;
    if weekdayIndex <= 2 {
      assert monday.localDay == OperationalStart(DayOf(anchorKey));
      return KeyAt(monday.zones, monday.localDay);
    }
    assert DayOf(anchorKey) + -2 == OperationalStart(DayOf(anchorKey));
    r := AddDaysToDateKey(z, anchorKey, -2);
  }

  // -------------------------------------------------- when keys are integers

  /** How far the machine's clock is ahead of London's at local noon of the day. */
  function Lead(z: Zones, n: int): int {
    z.localAtNoon(n) - z.london(NoonInstant(z, n))
  }

  predicate NoonIsSameDay(z: Zones, n: int) {
    -12 * MS_PER_HOUR < Lead(z, n) <= 12 * MS_PER_HOUR
  }

  lemma DayOfOffset(n: int, ms: int)
    ensures (n * MS_PER_DAY + ms) / MS_PER_DAY == n <==> 0 <= ms < MS_PER_DAY
  {
  }

  /**
   Local noon falls on the same date in London exactly when the machine's clock is less than
   12 hours behind London's and at most 12 hours ahead of it.
  */
  lemma NoonKeepsTheDateExactlyWhen(z: Zones, n: int)
    ensures KeyAt(z, n) == DateOf(n) <==> NoonIsSameDay(z, n)
    ensures KeyAt(z, n) == DateOf(n) <==> DayOf(KeyAt(z, n)) == n
  {
    var instant := NoonInstant(z, n);
    var ms := NOON - Lead(z, n);
    assert instant + z.london(instant) == n * MS_PER_DAY + ms;
    DayOfOffset(n, ms);
    var m := (instant + z.london(instant)) / MS_PER_DAY;
    assert DayOf(KeyAt(z, n)) == m && DayOf(DateOf(n)) == n;
  }

  ghost predicate AlwaysSameDay(z: Zones) {
    forall n :: NoonIsSameDay(z, n)
  }

  /** Parsing and printing gives every date back exactly when the bound holds on every day. */
  lemma KeysRoundTripExactlyWhen(z: Zones)
    ensures AlwaysSameDay(z) <==> forall key :: IsDate(key) ==> KeyAt(z, DayOf(key)) == key
  {
    if AlwaysSameDay(z) {
      forall key | IsDate(key) ensures KeyAt(z, DayOf(key)) == key {
        KeyIsDate(z, DayOf(key));
        DateRoundTrip(key);
      }
    }
    if forall key :: IsDate(key) ==> KeyAt(z, DayOf(key)) == key {
      forall n ensures NoonIsSameDay(z, n) {
        var key := DateOf(n);
        assert IsDate(key) && KeyAt(z, DayOf(key)) == key;
        NoonKeepsTheDateExactlyWhen(z, n);
      }
    }
  }

  lemma KeyIsDate(z: Zones, n: int)
    requires AlwaysSameDay(z)
    ensures KeyAt(z, n) == DateOf(n) && DayOf(KeyAt(z, n)) == n
  {
    assert NoonIsSameDay(z, n);
    NoonKeepsTheDateExactlyWhen(z, n);
  }

  /** Under the bound, keys are day numbers: adding days is addition, and subtracting undoes it. */
  lemma AddingDaysIsAddition(z: Zones, key: Date, days: int)
    requires AlwaysSameDay(z) && IsDate(key)
    ensures var moved := KeyAt(z, DayOf(key) + days);
      && IsDate(moved)
      && DayOf(moved) == DayOf(key) + days
      && KeyAt(z, DayOf(moved) - days) == key
  {
    KeyIsDate(z, DayOf(key) + days);
    KeyIsDate(z, DayOf(key));
    DateRoundTrip(key);
  }

  /** Adding a and then b days is adding a + b days. */
  lemma AddingTwiceIsAddingTheSum(z: Zones, key: Date, a: int, b: int)
    requires AlwaysSameDay(z) && IsDate(key)
    ensures KeyAt(z, DayOf(KeyAt(z, DayOf(key) + a)) + b) == KeyAt(z, DayOf(key) + (a + b))
  {
    var sum := DayOf(KeyAt(z, DayOf(key) + a)) + b;
    assert sum == DayOf(key) + (a + b) by {
      AddingDaysIsAddition(z, key, a);
    }
  }

  /** A machine 13 hours ahead of London, as New Zealand is in its summer, loses a day at every step. */
  lemma ThirteenHoursAheadLosesADay(z: Zones, n: int)
    requires Lead(z, n) == 13 * MS_PER_HOUR
    ensures KeyAt(z, n) == DateOf(n - 1)
  {
    var instant := NoonInstant(z, n);
    assert instant + z.london(instant) == (n - 1) * MS_PER_DAY + (MS_PER_DAY + NOON - Lead(z, n));
    DayOfOffset(n - 1, MS_PER_DAY + NOON - Lead(z, n));
  }

  // ------------------------------------------------------------- the weeks

  /** The key of each week start, under the bound. */
  lemma WeekStartKeys(z: Zones, key: Date)
    requires AlwaysSameDay(z) && IsDate(key)
    ensures DayOf(KeyAt(z, MondayOf(DayOf(key)))) == MondayOf(DayOf(key))
    ensures DayOf(KeyAt(z, OperationalStart(DayOf(key)))) == OperationalStart(DayOf(key))
  {
    KeyIsDate(z, MondayOf(DayOf(key)));
    KeyIsDate(z, OperationalStart(DayOf(key)));
  }

  lemma MondayIsAMultiple(n: int)
    ensures MondayOf(n) == 7 * ((n + 3) / 7) - 3
    ensures MondayOf(n) <= n <= MondayOf(n) + 6
  {
  }

  /** Monday is a fixed point, and two days have the same Monday exactly when it is at most six days before both. */
  lemma MondayOfTheWeek(m: int, n: int)
    ensures WeekdayIndex(MondayOf(n)) == 0 && MondayOf(MondayOf(n)) == MondayOf(n)
    ensures MondayOf(m) == MondayOf(n) <==> 0 <= m - MondayOf(n) <= 6
  {
    MondayIsAMultiple(m);
    MondayIsAMultiple(n);
    MondayIsAMultiple(MondayOf(n));
  }

  /**
   `getMondayDateKey` is idempotent, and gives one key for each Monday-to-Sunday week and
   different keys for different weeks.
  */
  lemma MondayKeys(z: Zones, k: Date, l: Date)
    requires AlwaysSameDay(z) && IsDate(k) && IsDate(l)
    ensures var monday := KeyAt(z, MondayOf(DayOf(k)));
      && KeyAt(z, MondayOf(DayOf(monday))) == monday
      && (KeyAt(z, MondayOf(DayOf(l))) == monday <==> 0 <= DayOf(l) - DayOf(monday) <= 6)
  {
    WeekStartKeys(z, k);
    WeekStartKeys(z, l);
    MondayOfTheWeek(DayOf(l), DayOf(k));
  }

  lemma OperationalStartsIncrease(m: int, n: int)
    requires m <= n
    ensures OperationalStart(m) <= OperationalStart(n)
  {
    if n < m + 7 {
      var d := n - m;
      assert WeekdayIndex(n) == (WeekdayIndex(m) + d) % 7;
    }
  }

  /**
   The operational week start is 0, 1 or 2 days before the anchor, never passes a later
   anchor's start, and the seven days shown from it include the anchor.
  */
  lemma OperationalWeekKeys(z: Zones, k: Date, l: Date)
    requires AlwaysSameDay(z) && IsDate(k) && IsDate(l)
    ensures var start := KeyAt(z, OperationalStart(DayOf(k)));
      && DayOf(k) - DayOf(start) == (if WeekdayIndex(DayOf(k)) <= 2 then WeekdayIndex(DayOf(k)) else 2)
      && DayOf(start) <= DayOf(k) <= DayOf(KeyAt(z, DayOf(start) + 6))
      && (DayOf(k) <= DayOf(l) ==> DayOf(start) <= DayOf(KeyAt(z, OperationalStart(DayOf(l)))))
  {
    WeekStartKeys(z, k);
    WeekStartKeys(z, l);
    var start := KeyAt(z, OperationalStart(DayOf(k)));
    KeyIsDate(z, DayOf(start) + 6);
    if DayOf(k) <= DayOf(l) {
      OperationalStartsIncrease(DayOf(k), DayOf(l));
    }
  }
}
