/** The dashboard controller: store sizes, and the revenue of one calendar
    year in total and month by month. Nothing here changes a store. */
module DashboardController {
  import opened Outcomes
  import opened Models
  import opened Digits
  import opened Stores

  const InvalidYear: string := "Invalid year parameter"

  /** A calendar year and a 0-based month (0 is January), as `getFullYear`
      and `getMonth` report them. */
  datatype YearMonth = YearMonth(year: int, month: int)

  /** A date string of the form `YYYY-MM-DD` with month 01..12 and day 01..31. */
  predicate IsDateString(s: string) {
    |s| == 10 &&
    IsDigit(s[0]) && IsDigit(s[1]) && IsDigit(s[2]) && IsDigit(s[3]) && s[4] == '-' &&
    IsDigit(s[5]) && IsDigit(s[6]) && s[7] == '-' && IsDigit(s[8]) && IsDigit(s[9]) &&
    1 <= 10 * DigitValue(s[5]) + DigitValue(s[6]) <= 12 &&
    1 <= 10 * DigitValue(s[8]) + DigitValue(s[9]) <= 31
  }

  /** The year and month written in a booking's `createdAt`; None for a
      string that `new Date` turns into an Invalid Date, whose year and month
      are NaN and equal nothing. */
  function CalendarMonth(s: string): (d: Option<YearMonth>)
    ensures d.Some? <==> IsDateString(s)
    ensures d.Some? ==> 0 <= d.value.year <= 9999 && 0 <= d.value.month < 12
  {
    if IsDateString(s) then
      Some(YearMonth(
        1000 * DigitValue(s[0]) + 100 * DigitValue(s[1]) + 10 * DigitValue(s[2]) + DigitValue(s[3]),
        10 * DigitValue(s[5]) + DigitValue(s[6]) - 1))
    else None
  }

  /** The `YYYY-MM-DD` form of a year in 0..9999, a 1-based month and a day,
      zero-padded as the stores write `createdAt`. */
  function DateString(year: int, month: int, day: int): (s: string)
    requires 0 <= year <= 9999 && 1 <= month <= 12 && 1 <= day <= 31
    ensures |s| == 10
  {
    [DigitChar(year / 1000), DigitChar(year / 100 % 10), DigitChar(year / 10 % 10), DigitChar(year % 10), '-',
     DigitChar(month / 10), DigitChar(month % 10), '-', DigitChar(day / 10), DigitChar(day % 10)]
  }

  /** Four decimal digits put back together give the number they came from. */
  lemma FourDigitsOf(year: int)
    requires 0 <= year <= 9999
    ensures 1000 * (year / 1000) + 100 * (year / 100 % 10) + 10 * (year / 10 % 10) + year % 10 == year
  {
    var a := year / 10;
    var b := a / 10;
    assert year == 10 * a + year % 10;
    assert a == 10 * b + a % 10;
    assert b == 10 * (b / 10) + b % 10;
    assert year / 100 == b;
    assert year / 1000 == b / 10;
  }

  /** The year and month read out of a date are the ones it was written with:
      a booking is counted in the month its `createdAt` names. */
  lemma CalendarMonthOfDateString(year: int, month: int, day: int)
    requires 0 <= year <= 9999 && 1 <= month <= 12 && 1 <= day <= 31
    ensures CalendarMonth(DateString(year, month, day)) == Some(YearMonth(year, month - 1))
  {
    var s := DateString(year, month, day);
    FourDigitsOf(year);
    assert 10 * DigitValue(s[5]) + DigitValue(s[6]) == month;
    assert 10 * DigitValue(s[8]) + DigitValue(s[9]) == day;
    assert IsDateString(s);
  }

  /** The year and month of `new Date(s)` as `getFullYear` and `getMonth`
      report them on a server whose clock is `offsetMinutes` ahead of UTC
      (negative west of Greenwich, from UTC-12:00 to UTC+14:00). `new Date`
      reads a bare `YYYY-MM-DD` as midnight UTC, and a negative offset moves
      that instant back into the previous local day: on the first of a month,
      into the previous month, and on the first of January into December of
      the previous year. */
  function LocalCalendarMonth(s: string, offsetMinutes: int): (d: Option<YearMonth>)
    requires -720 <= offsetMinutes <= 840
    ensures d.Some? <==> IsDateString(s)
    ensures offsetMinutes >= 0 ==> d == CalendarMonth(s)
    ensures d.Some? ==> 0 <= d.value.month < 12
  {
    match CalendarMonth(s)
    case None => None
    case Some(ym) =>
      if offsetMinutes < 0 && 10 * DigitValue(s[8]) + DigitValue(s[9]) == 1 then
        (if ym.month == 0 then Some(YearMonth(ym.year - 1, 11)) else Some(YearMonth(ym.year, ym.month - 1)))
      else Some(ym)
  }

  /** On a server at UTC-05:00 a booking dated 2024-01-01 is reported in
      December 2023, so `?year=2024` leaves it out, although its date names
      January 2024. */
  lemma LocalTimeMovesNewYearsDay()
    ensures CalendarMonth("2024-01-01") == Some(YearMonth(2024, 0))
    ensures LocalCalendarMonth("2024-01-01", -300) == Some(YearMonth(2023, 11))
  {
    CalendarMonthOfDateString(2024, 1, 1);
    assert DateString(2024, 1, 1) == "2024-01-01";
  }

  /** What a booking is tested against: the selected year (the first
      `filter` of `getDashboardStats`) or a 0-based month (the `filter` inside
      the monthly series). */
  datatype Criterion = OfYear(year: real) | OfMonth(month: int)

  /** A booking meets a criterion when its date is valid and its year, or its
      month, is the one asked for. */
  predicate Matches(b: Booking, c: Criterion) {
    var d := CalendarMonth(b.createdAt);
    d.Some? &&
    match c
    case OfYear(year) => d.value.year as real == year
    case OfMonth(month) => d.value.month == month
  }

  /** `Array.prototype.filter` with the callback `p`: the bookings for which
      `p` holds, in their original order. */
  function FilterBy(bs: seq<Booking>, p: Booking -> bool): (r: seq<Booking>)
    ensures |r| <= |bs|
  {
    if bs == [] then []
    else (if p(bs[0]) then [bs[0]] else []) + FilterBy(bs[1..], p)
  }

  /** A booking is kept exactly when it is one of the input and the callback holds of it. */
  lemma {:induction false} FilterByMembers(bs: seq<Booking>, p: Booking -> bool)
    ensures forall b :: b in FilterBy(bs, p) <==> b in bs && p(b)
  {
    if bs != [] {
      FilterByMembers(bs[1..], p);
      assert bs == [bs[0]] + bs[1..];
    }
  }

  /** Filtering distributes over concatenation: the filter keeps the
      original order and looks at each booking on its own. */
  lemma {:induction false} FilterByAppend(a: seq<Booking>, b: seq<Booking>, p: Booking -> bool)
    ensures FilterBy(a + b, p) == FilterBy(a, p) + FilterBy(b, p)
  {
    if a != [] {
      assert (a + b)[1..] == a[1..] + b;
      FilterByAppend(a[1..], b, p);
    } else {
      assert a + b == b;
    }
  }

  /** When the callback holds of every booking, the filter keeps them all. */
  lemma {:induction false} FilterByKeepsAll(bs: seq<Booking>, p: Booking -> bool)
    requires forall i :: 0 <= i < |bs| ==> p(bs[i])
    ensures FilterBy(bs, p) == bs
  {
    if bs != [] {
      FilterByKeepsAll(bs[1..], p);
    }
  }

  /** When the callback holds of no booking, the filter keeps none. */
  lemma {:induction false} FilterByDropsAll(bs: seq<Booking>, p: Booking -> bool)
    requires forall i :: 0 <= i < |bs| ==> !p(bs[i])
    ensures FilterBy(bs, p) == []
  {
    if bs != [] {
      FilterByDropsAll(bs[1..], p);
    }
  }

  /** The callback of the two filters of `getDashboardStats`. */
  function MatchesOf(c: Criterion): Booking -> bool {
    b => Matches(b, c)
  }

  /** The bookings that meet `c`, in their original order. */
  function Filter(bs: seq<Booking>, c: Criterion): (r: seq<Booking>)
    ensures |r| <= |bs|
  {
    FilterBy(bs, MatchesOf(c))
  }

  /** A booking is kept exactly when it is one of the input and meets the criterion. */
  lemma FilterMembers(bs: seq<Booking>, c: Criterion)
    ensures forall b :: b in Filter(bs, c) <==> b in bs && Matches(b, c)
  {
    FilterByMembers(bs, MatchesOf(c));
  }

  /** When no booking meets the criterion, the filter keeps none. */
  lemma FilterDropsAll(bs: seq<Booking>, c: Criterion)
    requires forall i :: 0 <= i < |bs| ==> !Matches(bs[i], c)
    ensures Filter(bs, c) == []
  {
    FilterByDropsAll(bs, MatchesOf(c));
  }

  /** When the bookings that meet the criterion are exactly the first k, the
      filter keeps exactly those. */
  lemma FilterPrefix(bs: seq<Booking>, k: nat, c: Criterion)
    requires k <= |bs|
    requires forall i :: 0 <= i < k ==> Matches(bs[i], c)
    requires forall i :: k <= i < |bs| ==> !Matches(bs[i], c)
    ensures Filter(bs, c) == bs[..k]
  {
    var p := MatchesOf(c);
    assert bs == bs[..k] + bs[k..];
    FilterByAppend(bs[..k], bs[k..], p);
    FilterByKeepsAll(bs[..k], p);
    FilterByDropsAll(bs[k..], p);
  }

  /** When exactly one booking meets the criterion, the filter keeps that one. */
  lemma FilterSingle(bs: seq<Booking>, j: nat, c: Criterion)
    requires j < |bs| && Matches(bs[j], c)
    requires forall i :: 0 <= i < |bs| && i != j ==> !Matches(bs[i], c)
    ensures Filter(bs, c) == [bs[j]]
  {
    var p := MatchesOf(c);
    assert bs == bs[..j] + ([bs[j]] + bs[j + 1..]);
    FilterByAppend(bs[..j], [bs[j]] + bs[j + 1..], p);
    FilterByAppend([bs[j]], bs[j + 1..], p);
    FilterByDropsAll(bs[..j], p);
    FilterByDropsAll(bs[j + 1..], p);
    assert [bs[j]][1..] == [];
  }

  /** A year that is not a whole number (`Number("2024.5")`) selects nothing. */
  lemma FractionalYearSelectsNothing(bs: seq<Booking>, year: real)
    requires year.Floor as real != year
    ensures Filter(bs, OfYear(year)) == []
  {
    FilterDropsAll(bs, OfYear(year));
  }

  /** The `reduce` of `getDashboardStats`: the sum of `totalPrice`, 0 for no bookings. */
  function Revenue(bs: seq<Booking>): int {
    if bs == [] then 0 else bs[0].totalPrice + Revenue(bs[1..])
  }

  /** Revenue adds up over a concatenation. */
  lemma {:induction false} RevenueAppend(a: seq<Booking>, b: seq<Booking>)
    ensures Revenue(a + b) == Revenue(a) + Revenue(b)
  {
    if a != [] {
      assert (a + b)[1..] == a[1..] + b;
      RevenueAppend(a[1..], b);
    } else {
      assert a + b == b;
    }
  }

  /** One entry of the monthly series. */
  datatype MonthRevenue = MonthRevenue(month: int, revenue: int)

  /** The `Array.from({ length: 12 }, ...)` series over the bookings of the
      selected year: entry i is month i + 1 and holds the revenue of the
      bookings whose 0-based month is i, 0 for a month without bookings. */
  function MonthlyRevenue(filtered: seq<Booking>): (series: seq<MonthRevenue>)
    ensures |series| == 12
    ensures forall i :: 0 <= i < 12 ==> series[i].month == i + 1
    ensures forall i :: 0 <= i < 12 ==> series[i].revenue == Revenue(Filter(filtered, OfMonth(i)))
  {
    seq(12, i requires 0 <= i < 12 => MonthRevenue(i + 1, Revenue(Filter(filtered, OfMonth(i)))))
  }

  /** The sum of the revenues of a series. */
  function SeriesTotal(series: seq<MonthRevenue>): int {
    if series == [] then 0 else SeriesTotal(series[..|series| - 1]) + series[|series| - 1].revenue
  }

  /** The revenue of the first k months. */
  function FirstMonthsRevenue(bs: seq<Booking>, k: nat): int {
    if k == 0 then 0 else FirstMonthsRevenue(bs, k - 1) + Revenue(Filter(bs, OfMonth(k - 1)))
  }

  /** Without bookings every month has revenue 0. */
  lemma {:induction false} NoBookingsNoRevenue(k: nat)
    ensures FirstMonthsRevenue([], k) == 0
  {
    if k > 0 {
      NoBookingsNoRevenue(k - 1);
    }
  }

  /** Taking the first booking off moves its price out of the month it falls in. */
  lemma {:induction false} FirstMonthsRevenueCons(bs: seq<Booking>, k: nat)
    requires bs != []
    ensures FirstMonthsRevenue(bs, k) == FirstMonthsRevenue(bs[1..], k) +
      (if exists m :: 0 <= m < k && Matches(bs[0], OfMonth(m)) then bs[0].totalPrice else 0)
  {
    if k > 0 {
      FirstMonthsRevenueCons(bs, k - 1);
      var b := bs[0];
      var head := if Matches(b, OfMonth(k - 1)) then [b] else [];
      RevenueAppend(head, Filter(bs[1..], OfMonth(k - 1)));
      if Matches(b, OfMonth(k - 1)) {
        assert Revenue(head) == b.totalPrice;
        assert !exists m :: 0 <= m < k - 1 && Matches(b, OfMonth(m));
      } else {
        assert (exists m :: 0 <= m < k && Matches(b, OfMonth(m))) ==
               (exists m :: 0 <= m < k - 1 && Matches(b, OfMonth(m)));
      }
    }
  }

  /** Every dated booking falls in exactly one of the twelve months, so the
      twelve monthly revenues add up to the revenue of all the bookings. */
  lemma {:induction false} MonthsCoverRevenue(bs: seq<Booking>)
    requires forall b :: b in bs ==> CalendarMonth(b.createdAt).Some?
    ensures FirstMonthsRevenue(bs, 12) == Revenue(bs)
  {
    if bs != [] {
      FirstMonthsRevenueCons(bs, 12);
      var m := CalendarMonth(bs[0].createdAt).value.month;
      assert Matches(bs[0], OfMonth(m));
      MonthsCoverRevenue(bs[1..]);
    } else {
      NoBookingsNoRevenue(12);
    }
  }

  /** The series total over the first k entries is the revenue of the first k months. */
  lemma {:induction false} SeriesTotalPrefix(filtered: seq<Booking>, k: nat)
    requires k <= 12
    ensures SeriesTotal(MonthlyRevenue(filtered)[..k]) == FirstMonthsRevenue(filtered, k)
  {
    if k > 0 {
      var series := MonthlyRevenue(filtered);
      assert series[..k][..k - 1] == series[..k - 1];
      SeriesTotalPrefix(filtered, k - 1);
    }
  }

  /** The twelve monthly revenues of a year add up to the revenue of that year. */
  lemma MonthlySumsToTotal(bs: seq<Booking>, year: real)
    ensures SeriesTotal(MonthlyRevenue(Filter(bs, OfYear(year)))) == Revenue(Filter(bs, OfYear(year)))
  {
    var filtered := Filter(bs, OfYear(year));
    var series := MonthlyRevenue(filtered);
    SeriesTotalPrefix(filtered, 12);
    assert series[..12] == series;
    FilterMembers(bs, OfYear(year));
    MonthsCoverRevenue(filtered);
  }

  /** The response body of `getDashboardStats`. */
  datatype DashboardStats = DashboardStats(
    totalHotels: nat,
    totalClients: nat,
    totalBookings: nat,
    totalRevenue: int,
    monthlyRevenue: seq<MonthRevenue>,
    year: real)

  /** The year the request selects: the current year when the parameter is
      absent or empty, else what `Number` makes of it (None standing for NaN). */
  function SelectedYear(yearParam: Option<string>, currentYear: int, numberOf: string -> Option<real>): (y: Option<real>)
    ensures (yearParam == None || yearParam == Some("")) ==> y == Some(currentYear as real)
    ensures yearParam.Some? && yearParam.value != "" ==> y == numberOf(yearParam.value)
  {
    match yearParam
    case Some(s) => if s != "" then numberOf(s) else Some(currentYear as real)
    case None => Some(currentYear as real)
  }

  /** `getDashboardStats`: 400 when the year parameter is NaN; otherwise the
      unfiltered store sizes, the revenue of the selected year in total and
      per month, and the selected year echoed back. */
  function GetDashboardStats(
    hotels: seq<Hotel>, clients: seq<Client>, bookings: seq<Booking>,
    yearParam: Option<string>, currentYear: int, numberOf: string -> Option<real>): (r: Response<DashboardStats>)
    ensures SelectedYear(yearParam, currentYear, numberOf).None? <==> r == BadRequest(InvalidYear)
    ensures r.BadRequest? || r.Ok?
    ensures r.Ok? ==>
      var year := SelectedYear(yearParam, currentYear, numberOf).value;
      var stats := r.value;
      stats.year == year &&
      stats.totalHotels == |hotels| && stats.totalClients == |clients| && stats.totalBookings == |bookings| &&
      stats.totalRevenue == Revenue(Filter(bookings, OfYear(year))) &&
      stats.monthlyRevenue == MonthlyRevenue(Filter(bookings, OfYear(year))) &&
      SeriesTotal(stats.monthlyRevenue) == stats.totalRevenue
  {
    match SelectedYear(yearParam, currentYear, numberOf)
    case None => BadRequest(InvalidYear)
    case Some(year) =>
      var filtered := Filter(bookings, OfYear(year));
      MonthlySumsToTotal(bookings, year);
      Ok(DashboardStats(|hotels|, |clients|, |bookings|, Revenue(filtered), MonthlyRevenue(filtered), year))
  }

  /** A year without bookings reports 0 revenue and twelve zero months, and
      still the full store sizes. */
  lemma EmptyYear(
    hotels: seq<Hotel>, clients: seq<Client>, bookings: seq<Booking>,
    yearParam: Option<string>, currentYear: int, numberOf: string -> Option<real>)
    requires SelectedYear(yearParam, currentYear, numberOf).Some?
    requires Filter(bookings, OfYear(SelectedYear(yearParam, currentYear, numberOf).value)) == []
    ensures var r := GetDashboardStats(hotels, clients, bookings, yearParam, currentYear, numberOf);
      r.Ok? && r.value.totalRevenue == 0 &&
      (forall i :: 0 <= i < 12 ==> r.value.monthlyRevenue[i].revenue == 0) &&
      r.value.totalHotels == |hotels| && r.value.totalClients == |clients| &&
      r.value.totalBookings == |bookings|
  {
  }

  /** A booking whose `createdAt` is a valid date in the given year and 0-based month. */
  predicate DatedIn(b: Booking, year: int, month: int) {
    CalendarMonth(b.createdAt) == Some(YearMonth(year, month))
  }

  /** The months the first four seed bookings fall in: January to April 2024. */
  lemma SeedBookingMonths2024(bs: seq<Booking>)
    requires bs == SeedBookings()
    ensures DatedIn(bs[0], 2024, 0) && DatedIn(bs[1], 2024, 1)
    ensures DatedIn(bs[2], 2024, 2) && DatedIn(bs[3], 2024, 3)
  {
  }

  /** The months the last two seed bookings fall in: January and February 2025. */
  lemma SeedBookingMonths2025(bs: seq<Booking>)
    requires bs == SeedBookings()
    ensures |bs| == 6 && DatedIn(bs[4], 2025, 0) && DatedIn(bs[5], 2025, 1)
  {
  }

  /** The prices of the first four seed bookings. */
  lemma SeedBookingPrices2024(bs: seq<Booking>)
    requires bs == SeedBookings()
    ensures bs[0].totalPrice == 1200 && bs[1].totalPrice == 900
    ensures bs[2].totalPrice == 1500 && bs[3].totalPrice == 700
  {
  }

  /** Of six bookings dated four in 2024 and then two in 2025, the filter for
      2024 keeps the first four. */
  lemma FirstFourOf2024(bs: seq<Booking>)
    requires |bs| == 6
    requires DatedIn(bs[0], 2024, 0) && DatedIn(bs[1], 2024, 1)
    requires DatedIn(bs[2], 2024, 2) && DatedIn(bs[3], 2024, 3)
    requires DatedIn(bs[4], 2025, 0) && DatedIn(bs[5], 2025, 1)
    ensures Filter(bs, OfYear(2024.0)) == bs[..4]
  {
    FilterPrefix(bs, 4, OfYear(2024.0));
  }

  /** A month that exactly one booking falls in has that booking's price as its revenue. */
  lemma MonthOfOne(f: seq<Booking>, j: nat, m: nat)
    requires m < 12 && j < |f| && Matches(f[j], OfMonth(m))
    requires forall i :: 0 <= i < |f| && i != j ==> !Matches(f[i], OfMonth(m))
    ensures MonthlyRevenue(f)[m].revenue == f[j].totalPrice
  {
    FilterSingle(f, j, OfMonth(m));
    var one := [f[j]];
    assert one[1..] == [];
    assert Revenue(one) == f[j].totalPrice;
  }

  /** A month that no booking falls in has revenue 0. */
  lemma MonthOfNone(f: seq<Booking>, m: nat)
    requires m < 12
    requires forall i :: 0 <= i < |f| ==> !Matches(f[i], OfMonth(m))
    ensures MonthlyRevenue(f)[m].revenue == 0
  {
    FilterDropsAll(f, OfMonth(m));
  }

  /** Four bookings at 1200, 900, 1500 and 700 bring in 4300. */
  lemma FourPricesRevenue(f: seq<Booking>)
    requires |f| == 4
    requires f[0].totalPrice == 1200 && f[1].totalPrice == 900
    requires f[2].totalPrice == 1500 && f[3].totalPrice == 700
    ensures Revenue(f) == 4300
  {
    assert f == [f[0]] + ([f[1]] + ([f[2]] + [f[3]]));
    RevenueAppend([f[0]], [f[1]] + ([f[2]] + [f[3]]));
    RevenueAppend([f[1]], [f[2]] + [f[3]]);
    RevenueAppend([f[2]], [f[3]]);
  }

  /** Four bookings dated January to April, one per month: booking i falls
      in month m exactly when i == m. */
  lemma FourMonthsApart(f: seq<Booking>)
    requires |f| == 4
    requires DatedIn(f[0], 2024, 0) && DatedIn(f[1], 2024, 1)
    requires DatedIn(f[2], 2024, 2) && DatedIn(f[3], 2024, 3)
    ensures forall i, m :: 0 <= i < 4 ==> (Matches(f[i], OfMonth(m)) <==> i == m)
  {
    forall i, m | 0 <= i < 4 ensures Matches(f[i], OfMonth(m)) <==> i == m {
      assert CalendarMonth(f[i].createdAt) == Some(YearMonth(2024, i));
    }
  }

  /** Four bookings dated January to April, one per month, at 1200, 900,
      1500 and 700: a series holding each price in its month and 0 in the
      eight other months. */
  lemma FourMonthSeries(f: seq<Booking>)
    requires |f| == 4
    requires DatedIn(f[0], 2024, 0) && DatedIn(f[1], 2024, 1)
    requires DatedIn(f[2], 2024, 2) && DatedIn(f[3], 2024, 3)
    requires f[0].totalPrice == 1200 && f[1].totalPrice == 900
    requires f[2].totalPrice == 1500 && f[3].totalPrice == 700
    ensures var s := MonthlyRevenue(f);
      s[0].revenue == 1200 && s[1].revenue == 900 && s[2].revenue == 1500 && s[3].revenue == 700 &&
      forall i :: 4 <= i < 12 ==> s[i].revenue == 0
  {
    FourMonthsApart(f);
    MonthOfOne(f, 0, 0);
    MonthOfOne(f, 1, 1);
    MonthOfOne(f, 2, 2);
    MonthOfOne(f, 3, 3);
    forall m | 4 <= m < 12 ensures MonthlyRevenue(f)[m].revenue == 0 {
      MonthOfNone(f, m);
    }
  }

  /** The shape of the seed bookings that the 2024 dashboard depends on. */
  predicate SeedShaped(bs: seq<Booking>) {
    |bs| == 6 &&
    DatedIn(bs[0], 2024, 0) && DatedIn(bs[1], 2024, 1) &&
    DatedIn(bs[2], 2024, 2) && DatedIn(bs[3], 2024, 3) &&
    DatedIn(bs[4], 2025, 0) && DatedIn(bs[5], 2025, 1) &&
    bs[0].totalPrice == 1200 && bs[1].totalPrice == 900 &&
    bs[2].totalPrice == 1500 && bs[3].totalPrice == 700
  }

  /** The seed bookings have that shape. */
  lemma SeedBookingsShaped(bs: seq<Booking>)
    requires bs == SeedBookings()
    ensures SeedShaped(bs)
  {
    SeedBookingMonths2024(bs);
    SeedBookingMonths2025(bs);
    SeedBookingPrices2024(bs);
  }

  /** The 2024 dashboard over bookings of the seed's shape. */
  lemma ShapedDashboard2024(
    hotels: seq<Hotel>, clients: seq<Client>, bookings: seq<Booking>,
    currentYear: int, numberOf: string -> Option<real>)
    requires SeedShaped(bookings)
    requires numberOf("2024") == Some(2024.0)
    ensures var r := GetDashboardStats(hotels, clients, bookings, Some("2024"), currentYear, numberOf);
      r.Ok? && r.value.year == 2024.0 && r.value.totalBookings == 6 &&
      r.value.totalRevenue == 4300 &&
      r.value.monthlyRevenue[0].revenue == 1200 && r.value.monthlyRevenue[1].revenue == 900 &&
      r.value.monthlyRevenue[2].revenue == 1500 && r.value.monthlyRevenue[3].revenue == 700 &&
      (forall i :: 4 <= i < 12 ==> r.value.monthlyRevenue[i].revenue == 0)
  {
    FirstFourOf2024(bookings);
    FourPricesRevenue(bookings[..4]);
    FourMonthSeries(bookings[..4]);
  }

  /** With the seed bookings and `?year=2024` the dashboard reports the
      revenue of the four 2024 bookings, 4300 in all, spread over January to
      April, with the other eight months at 0, and counts all six bookings. */
  lemma SeedDashboard2024(
    hotels: seq<Hotel>, clients: seq<Client>, bookings: seq<Booking>,
    currentYear: int, numberOf: string -> Option<real>)
    requires bookings == SeedBookings()
    requires numberOf("2024") == Some(2024.0)
    ensures var r := GetDashboardStats(hotels, clients, bookings, Some("2024"), currentYear, numberOf);
      r.Ok? && r.value.year == 2024.0 && r.value.totalBookings == 6 &&
      r.value.totalRevenue == 4300 &&
      r.value.monthlyRevenue[0].revenue == 1200 && r.value.monthlyRevenue[1].revenue == 900 &&
      r.value.monthlyRevenue[2].revenue == 1500 && r.value.monthlyRevenue[3].revenue == 700 &&
      (forall i :: 4 <= i < 12 ==> r.value.monthlyRevenue[i].revenue == 0)
  {
    SeedBookingsShaped(bookings);
    ShapedDashboard2024(hotels, clients, bookings, currentYear, numberOf);
  }
}
