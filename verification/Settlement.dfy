/** Value dates: the bounded search over a partial calendar, and what it finds in terms of an
    unbounded "n-th business day". */
module Settlement {
  import opened Domain

  type Calendar = map<Day, bool>

  /** The search gives up once it has moved more than this many days. */
  const SEARCH_DAYS := 366

  /** The calendar loaded for a deal covers the trade date and this many days after it. */
  const WINDOW_DAYS := 30

  predicate IsWeekday(d: Day) {
    d % 7 < 5
  }

  /** A row of the business calendar decides; without one, Monday to Friday are business days. */
  predicate Business(table: Calendar, d: Day) {
    if d in table then table[d] else IsWeekday(d)
  }

  function BusinessOn(table: Calendar): Day -> bool {
    (d: Day) => Business(table, d)
  }

  /** A search over a partial calendar treats a missing day as closed. */
  function OpenOn(calendar: Calendar): Day -> bool {
    (d: Day) => d in calendar && calendar[d]
  }

  /** How many days in (lo, hi] are business days. */
  function Count(business: Day -> bool, lo: Day, hi: Day): nat
    decreases hi - lo
  {
    if hi <= lo then 0 else Count(business, lo, hi - 1) + if business(hi) then 1 else 0
  }

  /** d settles a deal struck on start with offset n: for n = 0 the first business day on or after
      start, otherwise the n-th business day after it. */
  ghost predicate Settles(business: Day -> bool, start: Day, n: nat, d: Day) {
    && business(d)
    && if n == 0 then start <= d && forall e :: start <= e < d ==> !business(e)
       else start < d && Count(business, start, d) == n
  }

  function Offset(dealType: DealType): nat {
    match dealType
    case Tod => 0
    case Tom => 1
    case Spot => 2
    case Forward => 0
  }

  // ----- counting

  lemma {:induction false} CountSplit(business: Day -> bool, lo: Day, mid: Day, hi: Day)
    requires lo <= mid <= hi
    ensures Count(business, lo, hi) == Count(business, lo, mid) + Count(business, mid, hi)
    decreases hi - mid
  {
    if mid < hi {
      CountSplit(business, lo, mid, hi - 1);
    }
  }

  lemma {:induction false} CountNone(business: Day -> bool, lo: Day, hi: Day)
    ensures Count(business, lo, hi) == 0 <==> forall e :: lo < e <= hi ==> !business(e)
    decreases hi - lo
  {
    if lo < hi {
      CountNone(business, lo, hi - 1);
    }
  }

  lemma {:induction false} CountAgrees(b: Day -> bool, c: Day -> bool, lo: Day, hi: Day)
    requires forall e :: lo < e <= hi ==> b(e) == c(e)
    ensures Count(b, lo, hi) == Count(c, lo, hi)
    decreases hi - lo
  {
    if lo < hi {
      CountAgrees(b, c, lo, hi - 1);
    }
  }

  /** Offset zero asks for the first business day after the eve of the trade date. */
  lemma SettlesByCount(business: Day -> bool, start: Day, n: nat, d: Day)
    ensures Settles(business, start, n, d) <==>
              var eve := if n == 0 then start - 1 else start;
              eve < d && business(d) && Count(business, eve, d) == if n == 0 then 1 else n
  {
    if n == 0 {
      CountNone(business, start - 1, d - 1);
    }
  }

  lemma SettlesOnce(business: Day -> bool, start: Day, n: nat, d: Day, e: Day)
    requires Settles(business, start, n, d) && Settles(business, start, n, e)
    ensures d == e
  {
    SettlesInOrder(business, start, n, d, start, n, e);
    SettlesInOrder(business, start, n, e, start, n, d);
  }

  /** A later trade date or a larger offset never settles earlier. */
  lemma SettlesInOrder(business: Day -> bool, start: Day, n: nat, d: Day, start': Day, n': nat, d': Day)
    requires start <= start' && n <= n'
    requires Settles(business, start, n, d) && Settles(business, start', n', d')
    ensures d <= d'
    ensures start == start' && 1 <= n < n' ==> d < d'
  {
    SettlesByCount(business, start, n, d);
    SettlesByCount(business, start', n', d');
    var eve := if n == 0 then start - 1 else start;
    var eve' := if n' == 0 then start' - 1 else start';
    CountSplit(business, eve, eve', d');
    if d' < d {
      CountSplit(business, eve, d', d);
    }
  }

  /** Enough business days in a stretch contain the one asked for. */
  lemma {:induction false} SettlesWithin(business: Day -> bool, eve: Day, k: nat, last: Day) returns (d: Day)
    requires 1 <= k <= Count(business, eve, last)
    ensures eve < d <= last && business(d) && Count(business, eve, d) == k
    decreases last - eve
  {
    if k <= Count(business, eve, last - 1) {
      d := SettlesWithin(business, eve, k, last - 1);
    } else {
      d := last;
    }
  }

  // ----- the service

  /** Returns None where the service raises ValueError. */
  method AddBusinessDays(start: Day, businessDays: nat, calendar: Calendar) returns (r: Option<Day>)
    ensures r.Some? ==> Settles(OpenOn(calendar), start, businessDays, r.value) && r.value <= start + 366
    ensures r.None? ==> forall d :: Settles(OpenOn(calendar), start, businessDays, d) ==> d > start + 366
  {
    ghost var business := OpenOn(calendar);
    var current := start;
    if businessDays == 0 {
      while !(current in calendar && calendar[current])
        invariant start <= current <= start + SEARCH_DAYS
        invariant forall e :: start <= e < current ==> !business(e)
        decreases start + SEARCH_DAYS - current
      {
        current := current + 1;
        if current - start > SEARCH_DAYS {
          return None;
        }
      }
      return Some(current);
    }
    var added := 0;
    while added < businessDays
      invariant start <= current <= start + SEARCH_DAYS
      invariant added == Count(business, start, current) <= businessDays
      invariant added == businessDays ==> start < current && business(current)
      decreases start + SEARCH_DAYS - current
    {
      current := current + 1;
      if current in calendar && calendar[current] {
        added := added + 1;
      }
      if current - start > SEARCH_DAYS {
        forall d | Settles(business, start, businessDays, d)
          ensures d > start + SEARCH_DAYS
        {
          if d <= start + SEARCH_DAYS {
            CountSplit(business, start, d, current - 1);
          }
        }
        return None;
      }
    }
    return Some(current);
  }

  /** The value date as a function of the calendar, for the deal's specification. */
  ghost function ValueDate(tradeDate: Day, dealType: DealType, calendar: Calendar, explicit: Option<Day>)
    : (r: Option<Day>)
    ensures dealType.Forward? ==> (r.Some? <==> explicit.Some? && OpenOn(calendar)(explicit.value))
    ensures dealType.Forward? && r.Some? ==> r == explicit
    ensures !dealType.Forward? && r.Some? ==>
              Settles(OpenOn(calendar), tradeDate, Offset(dealType), r.value) && r.value <= tradeDate + SEARCH_DAYS
    ensures !dealType.Forward? && r.None? ==>
              forall d :: Settles(OpenOn(calendar), tradeDate, Offset(dealType), d) ==> d > tradeDate + SEARCH_DAYS
  {
    if dealType.Forward? then
      if explicit.Some? && explicit.value in calendar && calendar[explicit.value] then explicit else None
    else if exists d :: Settles(OpenOn(calendar), tradeDate, Offset(dealType), d) && d <= tradeDate + SEARCH_DAYS then
      var d :| Settles(OpenOn(calendar), tradeDate, Offset(dealType), d) && d <= tradeDate + SEARCH_DAYS;
      Some(d)
    else None
  }

  method CalculateValueDate(tradeDate: Day, dealType: DealType, calendar: Calendar, explicit: Option<Day>)
    returns (r: Option<Day>)
    ensures r == ValueDate(tradeDate, dealType, calendar, explicit)
  {
    if dealType.Forward? {
      if explicit.None? {
        return None;
      }
      if !(explicit.value in calendar && calendar[explicit.value]) {
        return None;
      }
      return explicit;
    }
    r := AddBusinessDays(tradeDate, Offset(dealType), calendar);
    var expected := ValueDate(tradeDate, dealType, calendar, explicit);
    if r.Some? && expected.Some? {
      SettlesOnce(OpenOn(calendar), tradeDate, Offset(dealType), r.value, expected.value);
    }
  }

  /** The calendar a request loads: every day from start to end, decided by the table. */
  function Window(table: Calendar, start: Day, end: Day): Calendar {
    map d | start <= d <= end :: Business(table, d)
  }

  method LoadCalendar(table: Calendar, start: Day, end: Day) returns (calendar: Calendar)
    ensures calendar == Window(table, start, end)
    ensures forall d :: d in calendar <==> start <= d <= end
    ensures forall d :: d in calendar ==> calendar[d] == if d in table then table[d] else d % 7 < 5
  {
    calendar := map d | d in table && start <= d <= end :: table[d];
    var current := start;
    while current <= end
      invariant start <= current
      invariant forall d :: d in calendar <==> start <= d <= end && (d in table || d < current)
      invariant forall d :: d in calendar ==> calendar[d] == Business(table, d)
      decreases end - current
    {
      if current !in calendar {
        calendar := calendar[current := IsWeekday(current)];
      }
      current := current + 1;
    }
  }

  /** Every day of the window is open as its row says, weekend or not, and without a row from Monday to
      Friday; outside the window every day is closed. */
  lemma WindowFollowsRows(table: Calendar, start: Day, end: Day, d: Day)
    ensures start <= d <= end && d in table ==> (OpenOn(Window(table, start, end))(d) <==> table[d])
    ensures start <= d <= end && d !in table ==> (OpenOn(Window(table, start, end))(d) <==> d % 7 < 5)
    ensures !(start <= d <= end) ==> !OpenOn(Window(table, start, end))(d)
    ensures d in table ==> (BusinessOn(table)(d) <==> table[d])
    ensures d !in table ==> (BusinessOn(table)(d) <==> d % 7 < 5)
  {
  }

  // ----- the window refines the unbounded calendar

  /** For an offset deal the windowed search finds exactly the business day the unbounded calendar
      names, whenever that day is within the window, and fails exactly otherwise. */
  lemma WindowedSettlementIsUnbounded(table: Calendar, tradeDate: Day, dealType: DealType, explicit: Option<Day>,
                                      d: Day)
    requires !dealType.Forward?
    ensures ValueDate(tradeDate, dealType, Window(table, tradeDate, tradeDate + WINDOW_DAYS), explicit) == Some(d)
       <==> Settles(BusinessOn(table), tradeDate, Offset(dealType), d) && d <= tradeDate + WINDOW_DAYS
  {
    var calendar := Window(table, tradeDate, tradeDate + WINDOW_DAYS);
    var n := Offset(dealType);
    var r := ValueDate(tradeDate, dealType, calendar, explicit);
    WindowAgrees(table, tradeDate, n, d);
    if r.Some? && Settles(OpenOn(calendar), tradeDate, n, d) {
      SettlesOnce(OpenOn(calendar), tradeDate, n, r.value, d);
    }
  }

  lemma WindowAgrees(table: Calendar, tradeDate: Day, n: nat, d: Day)
    ensures Settles(OpenOn(Window(table, tradeDate, tradeDate + WINDOW_DAYS)), tradeDate, n, d)
       <==> Settles(BusinessOn(table), tradeDate, n, d) && d <= tradeDate + WINDOW_DAYS
  {
    var open := OpenOn(Window(table, tradeDate, tradeDate + WINDOW_DAYS));
    var business := BusinessOn(table);
    assert forall e :: open(e) <==> tradeDate <= e <= tradeDate + WINDOW_DAYS && business(e);
    if d <= tradeDate + WINDOW_DAYS {
      CountAgrees(open, business, tradeDate, d);
    }
  }

  /** With one business day to find, it is the first after the start; with two, there is exactly one
      between. */
  lemma SettlesInWords(business: Day -> bool, start: Day, d: Day)
    ensures Settles(business, start, 1, d) <==> start < d && business(d) && forall e :: start < e < d ==> !business(e)
    ensures Settles(business, start, 2, d) <==>
              && start < d && business(d)
              && exists m :: start < m < d && business(m) && forall e :: start < e < d && e != m ==> !business(e)
  {
    if start < d && business(d) {
      CountNone(business, start, d - 1);
      if Settles(business, start, 2, d) {
        var m := SettlesWithin(business, start, 1, d - 1);
        OnlyOneBetween(business, start, m, d);
      }
      if m :| start < m < d && business(m) && forall e :: start < e < d && e != m ==> !business(e) {
        OnlyOneBetween(business, start, m, d);
      }
    }
  }

  lemma OnlyOneBetween(business: Day -> bool, start: Day, m: Day, d: Day)
    requires start < m < d && business(m)
    ensures Count(business, start, d - 1) == 1 <==> forall e :: start < e < d && e != m ==> !business(e)
  {
    CountSplit(business, start, m, d - 1);
    CountNone(business, start, m - 1);
    CountNone(business, m, d - 1);
  }

  /** The value date of each type in plain words: TOD the first business day from the trade date on, TOM
      the first after it, SPOT the second after it, FORWARD the agreed one if it is a business day; and
      always within the thirty days after the trade date. */
  lemma ValueDateInWords(table: Calendar, t: Day, explicit: Option<Day>, d: Day)
    ensures var calendar, b := Window(table, t, t + 30), BusinessOn(table);
      && (ValueDate(t, Tod, calendar, explicit) == Some(d) <==>
            t <= d <= t + 30 && b(d) && forall e :: t <= e < d ==> !b(e))
      && (ValueDate(t, Tom, calendar, explicit) == Some(d) <==>
            t < d <= t + 30 && b(d) && forall e :: t < e < d ==> !b(e))
      && (ValueDate(t, Spot, calendar, explicit) == Some(d) <==>
            && t < d <= t + 30 && b(d)
            && exists m :: t < m < d && b(m) && forall e :: t < e < d && e != m ==> !b(e))
      && (ValueDate(t, Forward, calendar, explicit) == Some(d) <==>
            explicit == Some(d) && t <= d <= t + 30 && b(d))
  {
    OffsetsInWords(table, t, explicit, d);
    SettlesInWords(BusinessOn(table), t, d);
    ForwardInWords(table, t, explicit, d);
  }

  lemma OffsetsInWords(table: Calendar, t: Day, explicit: Option<Day>, d: Day)
    ensures var calendar, b := Window(table, t, t + 30), BusinessOn(table);
      && (ValueDate(t, Tod, calendar, explicit) == Some(d) <==> Settles(b, t, 0, d) && d <= t + 30)
      && (ValueDate(t, Tom, calendar, explicit) == Some(d) <==> Settles(b, t, 1, d) && d <= t + 30)
      && (ValueDate(t, Spot, calendar, explicit) == Some(d) <==> Settles(b, t, 2, d) && d <= t + 30)
  {
    WindowedSettlementIsUnbounded(table, t, Tod, explicit, d);
    WindowedSettlementIsUnbounded(table, t, Tom, explicit, d);
    WindowedSettlementIsUnbounded(table, t, Spot, explicit, d);
  }

  lemma ForwardInWords(table: Calendar, t: Day, explicit: Option<Day>, d: Day)
    ensures ValueDate(t, Forward, Window(table, t, t + 30), explicit) == Some(d) <==>
              explicit == Some(d) && t <= d <= t + 30 && BusinessOn(table)(d)
  {
  }

  /** A TOD deal struck on a day whose row is open settles that day, a Saturday or Sunday too. */
  lemma OpenRowSettlesToday(table: Calendar, t: Day, explicit: Option<Day>)
    requires t in table && table[t]
    ensures ValueDate(t, Tod, Window(table, t, t + 30), explicit) == Some(t)
  {
    WindowFollowsRows(table, t, t + 30, t);
    ValueDateInWords(table, t, explicit, t);
  }

  /** Any value date a validation assigns, FORWARD included, lies within the loaded window. */
  lemma ValueDateInWindow(table: Calendar, tradeDate: Day, dealType: DealType, explicit: Option<Day>)
    ensures var r := ValueDate(tradeDate, dealType, Window(table, tradeDate, tradeDate + WINDOW_DAYS), explicit);
      r.Some? ==> tradeDate <= r.value <= tradeDate + WINDOW_DAYS && Business(table, r.value)
  {
    var r := ValueDate(tradeDate, dealType, Window(table, tradeDate, tradeDate + WINDOW_DAYS), explicit);
    if r.Some? && !dealType.Forward? {
      WindowedSettlementIsUnbounded(table, tradeDate, dealType, explicit, r.value);
    }
  }

  /** Offset searches keep their order: by deal type for one trade date, and by trade date for one
      deal type although each request loads its own window. */
  lemma SettlementOrder(table: Calendar, t: Day, k: DealType, x: Option<Day>, t': Day, k': DealType, x': Option<Day>)
    requires !k.Forward? && !k'.Forward?
    requires t <= t' && Offset(k) <= Offset(k')
    ensures var r := ValueDate(t, k, Window(table, t, t + WINDOW_DAYS), x);
      var r' := ValueDate(t', k', Window(table, t', t' + WINDOW_DAYS), x');
      r.Some? && r'.Some? ==> r.value <= r'.value && (t == t' && k.Tom? && k'.Spot? ==> r.value < r'.value)
  {
    var r := ValueDate(t, k, Window(table, t, t + WINDOW_DAYS), x);
    var r' := ValueDate(t', k', Window(table, t', t' + WINDOW_DAYS), x');
    if r.Some? && r'.Some? {
      WindowedSettlementIsUnbounded(table, t, k, x, r.value);
      WindowedSettlementIsUnbounded(table, t', k', x', r'.value);
      SettlesInOrder(BusinessOn(table), t, Offset(k), r.value, t', Offset(k'), r'.value);
    }
  }

  // ----- when the search succeeds

  /** The search succeeds exactly when the window holds as many business days as it needs. */
  lemma SucceedsIffEnoughDays(table: Calendar, tradeDate: Day, dealType: DealType, explicit: Option<Day>)
    requires !dealType.Forward?
    ensures ValueDate(tradeDate, dealType, Window(table, tradeDate, tradeDate + WINDOW_DAYS), explicit).Some? <==>
              match dealType
              case Tod => Count(BusinessOn(table), tradeDate - 1, tradeDate + WINDOW_DAYS) >= 1
              case Tom => Count(BusinessOn(table), tradeDate, tradeDate + WINDOW_DAYS) >= 1
              case Spot => Count(BusinessOn(table), tradeDate, tradeDate + WINDOW_DAYS) >= 2
  {
    var business := BusinessOn(table);
    var n := Offset(dealType);
    var eve := if n == 0 then tradeDate - 1 else tradeDate;
    var k := if n == 0 then 1 else n;
    var last := tradeDate + WINDOW_DAYS;
    var r := ValueDate(tradeDate, dealType, Window(table, tradeDate, last), explicit);
    if r.Some? {
      WindowedSettlementIsUnbounded(table, tradeDate, dealType, explicit, r.value);
      SettlesByCount(business, tradeDate, n, r.value);
      CountSplit(business, eve, r.value, last);
    }
    if Count(business, eve, last) >= k {
      var d := SettlesWithin(business, eve, k, last);
      SettlesByCount(business, tradeDate, n, d);
      WindowedSettlementIsUnbounded(table, tradeDate, dealType, explicit, d);
    }
  }

  function WeekdayOn(): Day -> bool {
    (d: Day) => IsWeekday(d)
  }

  /** Weekdays the table declares closed. */
  function ClosedWeekdayOn(table: Calendar): Day -> bool {
    (d: Day) => IsWeekday(d) && d in table && !table[d]
  }

  lemma DayInWeek(d: Day, k: nat)
    requires k <= 7
    ensures (d + k) % 7 == if d % 7 + k < 7 then d % 7 + k else d % 7 + k - 7
  {
  }

  lemma WeekHasFiveWeekdays(eve: Day)
    ensures Count(WeekdayOn(), eve, eve + 7) == 5
  {
    var w := WeekdayOn();
    forall e | eve < e <= eve + 7
      ensures w(e) <==> (eve % 7 + (e - eve) < 5 || 7 <= eve % 7 + (e - eve) < 12)
    {
      DayInWeek(eve, e - eve);
    }
    CountFirstDays(w, eve);
    CountFirstDays(w, eve + 4);
    CountSplit(w, eve, eve + 4, eve + 7);
  }

  lemma CountFirstDays(b: Day -> bool, t: Day)
    ensures Count(b, t, t) == 0
    ensures Count(b, t, t + 1) == if b(t + 1) then 1 else 0
    ensures Count(b, t, t + 2) == Count(b, t, t + 1) + if b(t + 2) then 1 else 0
    ensures Count(b, t, t + 3) == Count(b, t, t + 2) + if b(t + 3) then 1 else 0
    ensures Count(b, t, t + 4) == Count(b, t, t + 3) + if b(t + 4) then 1 else 0
  {
  }

  lemma {:induction false} WeekdaysAreOpenOrClosed(table: Calendar, lo: Day, hi: Day)
    ensures Count(WeekdayOn(), lo, hi) <= Count(BusinessOn(table), lo, hi) + Count(ClosedWeekdayOn(table), lo, hi)
    decreases hi - lo
  {
    if lo < hi {
      WeekdaysAreOpenOrClosed(table, lo, hi - 1);
    }
  }

  /** Thirty days hold at least twenty weekdays, so eighteen closed ones leave two for SPOT. */
  lemma SpotSurvivesEighteenHolidays(table: Calendar, tradeDate: Day, explicit: Option<Day>)
    requires Count(ClosedWeekdayOn(table), tradeDate, tradeDate + WINDOW_DAYS) <= 18
    ensures ValueDate(tradeDate, Spot, Window(table, tradeDate, tradeDate + WINDOW_DAYS), explicit).Some?
  {
    var t := tradeDate;
    WeekHasFiveWeekdays(t);
    WeekHasFiveWeekdays(t + 7);
    WeekHasFiveWeekdays(t + 14);
    WeekHasFiveWeekdays(t + 21);
    CountSplit(WeekdayOn(), t, t + 7, t + 14);
    CountSplit(WeekdayOn(), t, t + 14, t + 21);
    CountSplit(WeekdayOn(), t, t + 21, t + 28);
    CountSplit(WeekdayOn(), t, t + 28, t + 30);
    WeekdaysAreOpenOrClosed(table, t, t + 30);
    SucceedsIffEnoughDays(table, t, Spot, explicit);
  }

  /** Without calendar rows the value date depends on the weekday of the trade date only. */
  function DaysToSettle(dealType: DealType, weekday: nat): nat
    requires weekday < 7
  {
    match dealType
    case Tod => if weekday < 5 then 0 else 7 - weekday
    case Tom => if weekday < 4 then 1 else 7 - weekday
    case Spot => if weekday < 3 then 2 else if weekday < 5 then 4 else 8 - weekday
    case Forward => 0
  }

  lemma DefaultCalendarSettlement(table: Calendar, tradeDate: Day, dealType: DealType, explicit: Option<Day>)
    requires !dealType.Forward?
    requires forall d :: tradeDate <= d <= tradeDate + WINDOW_DAYS ==> d !in table
    ensures ValueDate(tradeDate, dealType, Window(table, tradeDate, tradeDate + WINDOW_DAYS), explicit)
         == Some(tradeDate + DaysToSettle(dealType, tradeDate % 7))
    ensures DaysToSettle(dealType, tradeDate % 7) <= 2 + Offset(dealType)
  {
    var b := BusinessOn(table);
    var t := tradeDate;
    forall e | t <= e <= t + 4
      ensures b(e) <==> (t % 7 + (e - t) < 5 || 7 <= t % 7 + (e - t) < 12)
    {
      DayInWeek(t, e - t);
    }
    CountFirstDays(b, t);
    var d := t + DaysToSettle(dealType, t % 7);
    assert Settles(b, t, Offset(dealType), d);
    WindowedSettlementIsUnbounded(table, t, dealType, explicit, d);
  }
}
