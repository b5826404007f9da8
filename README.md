# Hotel table and revenue dashboard — a Dafny model

This project models the server-side business logic of a small tourism
platform, an Express application that keeps its data in in-memory arrays:

- **The hotel controller** keeps the module-level `hotels` array. It lists
  the array, creates a hotel after validating the body and giving it a fresh
  `h<n>` id, updates the supplied fields of one hotel found by id, and
  deletes a hotel found by id. `HotelStore` is a class whose
  `hotels: seq<Hotel>` field is reassigned by the methods `Create`, `Update`
  and `Delete`. They mirror `push`, the indexed write and `splice`.
  `NextHotelId` keeps the source's running-maximum loop.
- **The dashboard controller** is a pure function over the stores. It selects
  a year (the current one by default, and a 400 answer when the parameter is
  NaN). It filters the bookings of that year, adds up their prices, builds
  the 12-entry monthly series and reports the unfiltered store sizes.

Each HTTP answer is a `Response`: `Ok` for 200/201, `BadRequest(message)`
for 400 and `NotFound(message)` for 404, carrying the source's messages
word for word. JSON request fields are `JsValue`s (`Undefined`, a string, a
number or anything else), so the `typeof` tests of the validators are
modelled as they are written. `String.prototype.trim` strips the
ECMAScript WhiteSpace and LineTerminator characters.

The things the source reads from its environment become parameters:

- today's date (`today`);
- the current year (`currentYear`);
- the result of `Number` on the year parameter (`numberOf`, where `None`
  stands for NaN).

Modules, one per file:

- `Outcomes`: `Option`, `Response`.
- `JsText`: `trim`, `isNonEmptyString`, `isValidStars`.
- `Digits`: decimal digits, as `Number` reads them and a template literal
  prints them.
- `Models`: records and table invariants.
- `Stores`: seed data.
- `HotelIds`: `getNextHotelId`'s rule.
- `HotelsController`: handlers and `HotelStore`.
- `DashboardController`: `getDashboardStats`.

The invariant `HotelStore.Valid()` holds of the seed table
(`SeedStoreValid`) and is kept by every handler. It says that ids are
unique and of the form `h<positive integer>`, and that every record has a
non-blank name and city and a rating in 1..5.

## Model

| member | source | states |
|---|---|---|
| `JsText.Trim` | server/src/controllers/hotels.controller.ts:17 | the result is a contiguous slice of the input, and only whitespace lies outside it; the result neither starts nor ends with whitespace; it is empty exactly when the input is all whitespace |
| `JsText.TrimIdempotent` | server/src/controllers/hotels.controller.ts:43-44 | trimming an already trimmed string changes nothing |
| `JsText.IsNonEmptyString` | server/src/controllers/hotels.controller.ts:16-18 | `typeof value === "string"` and a non-empty trim; characterised by `IsNonEmptyStringIff` |
| `JsText.IsNonEmptyStringIff` | server/src/controllers/hotels.controller.ts:16-18 | `isNonEmptyString` holds exactly for strings with at least one non-whitespace character |
| `JsText.TrimmedStaysNonEmpty` | server/src/controllers/hotels.controller.ts:43-44 | the trimmed name or city of a valid body still passes `isNonEmptyString` |
| `JsText.IsValidStars` | server/src/controllers/hotels.controller.ts:20-22 | a number that is an integer between 1 and 5; characterised by `IsValidStarsIff` |
| `JsText.IsValidStarsIff` | server/src/controllers/hotels.controller.ts:20-22 | `isValidStars` holds exactly for the numbers 1, 2, 3, 4 and 5 |
| `Digits.DecimalRoundTrip` | server/src/controllers/hotels.controller.ts:10-13 | reading back the decimal form a template literal prints gives the number |
| `HotelIds.IdSuffix` | server/src/controllers/hotels.controller.ts:8-9 | an id has a suffix exactly when it matches `^h(\d+)$` |
| `HotelIds.MaxSuffix` | server/src/controllers/hotels.controller.ts:6-12 | the result bounds every matching suffix in the table; it is 0 or the suffix of some record |
| `HotelIds.FreshId` | server/src/controllers/hotels.controller.ts:13 | the id `h${max + 1}`; `FreshIdSuffix` and `FreshIdIsFresh` state what it is |
| `HotelIds.FreshIdSuffix` | server/src/controllers/hotels.controller.ts:13 | the allocated id matches `^h(\d+)$` and its suffix is max+1 |
| `HotelIds.PrintedIdSuffix` | server/src/controllers/hotels.controller.ts:8-13 | `h` followed by the printed form of n matches `^h(\d+)$` with suffix n |
| `HotelIds.FreshIdAbove` | server/src/controllers/hotels.controller.ts:5-14 | the corrected allocation: one more than the larger of the table's maximum and a high-water mark of every suffix ever issued |
| `HotelIds.FreshIdAboveNeverReused` | server/src/controllers/hotels.controller.ts:5-14 | the corrected allocation never repeats an id whose suffix the mark covers, differs from every id in the table, and equals `getNextHotelId`'s answer while nothing above the table's maximum was issued |
| `HotelIds.FreshIdIsFresh` | server/src/controllers/hotels.controller.ts:5-14 | the allocated id matches `^h(\d+)$` with suffix max+1; that suffix exceeds every suffix in use; the id differs from every id in the table |
| `Stores.SeedHotelsUnique` | server/src/data/hotels.store.ts:3-7 | the seed hotel ids are pairwise distinct |
| `Stores.SeedHotelsWellFormed` | server/src/data/hotels.store.ts:3-7 | every seed hotel has a non-blank name and city and a rating in 1..5 |
| `HotelsController.StarsOf` | server/src/controllers/hotels.controller.ts:45 | a validated rating is the integer in 1..5 equal to the number sent |
| `HotelsController.ValidCreate` | server/src/controllers/hotels.controller.ts:31-35 | name and city pass `isNonEmptyString` and stars pass `isValidStars`; `HotelStore.Create` answers 400 exactly when it fails |
| `HotelsController.NewHotel` | server/src/controllers/hotels.controller.ts:41-47 | the new record has the given id and date, the trimmed name and city, and the given stars; it is well-formed |
| `HotelsController.UpdateError` | server/src/controllers/hotels.controller.ts:68-78 | no error exactly when every supplied field is valid; each message is returned exactly when its field is the first invalid one, checked in the order name, city, stars |
| `HotelsController.ApplyUpdate` | server/src/controllers/hotels.controller.ts:80-86 | id and createdAt are kept; each supplied field is replaced (name and city trimmed) and each absent one kept; a well-formed record stays well-formed |
| `HotelsController.StarsOnlyUpdate` | server/src/controllers/hotels.controller.ts:76-86 | a body with only valid stars passes validation and changes nothing but the stars |
| `HotelsController.FindIndex` | server/src/controllers/hotels.controller.ts:57 | -1 exactly when no record has the id; otherwise the first position holding it |
| `HotelsController.RemoveAt` | server/src/controllers/hotels.controller.ts:101 | the table is one shorter; the records before k are kept, and the records after k move down by one, in order |
| `HotelsController.AppendFreshKeepsUnique` | server/src/controllers/hotels.controller.ts:42-49 | appending a record under the allocated id keeps ids unique |
| `HotelsController.ReplaceKeepsUnique` | server/src/controllers/hotels.controller.ts:80-88 | writing a record with the same id into its slot keeps ids unique |
| `HotelsController.RemoveKeepsUnique` | server/src/controllers/hotels.controller.ts:96-101 | removing the first match keeps ids unique; with unique ids, no record with that id is left |
| `HotelsController.AppendKeepsWellFormed` | server/src/controllers/hotels.controller.ts:41-49 | appending a well-formed record keeps the table well-formed |
| `HotelsController.RemoveKeepsWellFormed` | server/src/controllers/hotels.controller.ts:101 | removing a record keeps the table well-formed |
| `HotelsController.AppendFreshKeepsPositive` | server/src/controllers/hotels.controller.ts:42-49 | appending under the allocated id keeps every id of the form `h<positive integer>` |
| `HotelsController.ReplaceKeepsPositive` | server/src/controllers/hotels.controller.ts:80-88 | writing a record with the same id into its slot keeps the id form |
| `HotelsController.RemoveKeepsPositive` | server/src/controllers/hotels.controller.ts:101 | removing a record keeps the id form of the others |
| `HotelsController.SeedIdsPositive` | server/src/data/hotels.store.ts:4-6 | the seed ids `h1`, `h2`, `h3` have the form `h<positive integer>` |
| `HotelsController.SeedStoreValid` | server/src/data/hotels.store.ts:3-7 | the seed table has unique ids of the form `h<positive integer>` and well-formed records |
| `HotelsController.NextAfterTwo` | server/src/controllers/hotels.controller.ts:5-14 | a table holding `h1` and `h2` allocates `h3` |
| `HotelsController.DeleteMaxThenCreateReusesId` | server/src/controllers/hotels.controller.ts:5-14 | as written: deleting the seed's `h3` and creating again hands out `h3` a second time |
| `HotelsController.DeleteMaxThenCreateWithMark` | server/src/controllers/hotels.controller.ts:5-14 | with a high-water mark kept across the delete, the same sequence hands out an id other than `h1`, `h2`, `h3` |
| `HotelsController.HotelStore.constructor` | server/src/data/hotels.store.ts:3 | the store starts with the given table |
| `HotelsController.HotelStore.GetAll` | server/src/controllers/hotels.controller.ts:24-26 | answers 200 with the whole table, in order |
| `HotelsController.HotelStore.NextHotelId` | server/src/controllers/hotels.controller.ts:5-14 | the loop returns `h` followed by max+1; that id belongs to no record |
| `HotelsController.HotelStore.Create` | server/src/controllers/hotels.controller.ts:28-51 | on an invalid body, 400 with the payload message and the table unchanged; otherwise exactly one record is appended under the fresh id and returned, earlier records untouched; the invariant is kept |
| `HotelsController.HotelStore.Update` | server/src/controllers/hotels.controller.ts:53-91 | 404 and table unchanged for an unknown id; 400 with the first field's message and table unchanged; otherwise only the slot of the first match is rewritten with the updated record, which is returned; the invariant is kept |
| `HotelsController.HotelStore.Delete` | server/src/controllers/hotels.controller.ts:93-103 | 404 and table unchanged for an unknown id; otherwise the first match is spliced out and returned; the invariant is kept; with unique ids, a second delete of the same id finds nothing |
| `DashboardController.CalendarMonth` | server/src/controllers/dashboard.controller.ts:15-16 | a date string gives a year and month exactly when it is a valid `YYYY-MM-DD`; the year is in 0..9999 and the 0-based month in 0..11 |
| `DashboardController.CalendarMonthOfDateString` | server/src/controllers/dashboard.controller.ts:15-16 | the year and month read from a `YYYY-MM-DD` string are the ones it was written with |
| `DashboardController.LocalCalendarMonth` | server/src/controllers/dashboard.controller.ts:15-16 | as written, with the server's UTC offset: defined on the same strings as `CalendarMonth`; agrees with it at offsets of zero or more |
| `DashboardController.LocalTimeMovesNewYearsDay` | server/src/controllers/dashboard.controller.ts:23 | at UTC-05:00, a booking dated 2024-01-01 is reported in December 2023 instead of January 2024 |
| `DashboardController.Matches` | server/src/controllers/dashboard.controller.ts:15-16 | the two `filter` callbacks (lines 15-16 and 23): the date is valid and its year, or its 0-based month, equals the one asked for; `FilterSingle`, `FourMonthsApart` and `FractionalYearSelectsNothing` use it |
| `DashboardController.FilterBy` | server/src/controllers/dashboard.controller.ts:14-17 | `Array.prototype.filter` with a callback; the result is no longer than the input |
| `DashboardController.FilterByMembers` | server/src/controllers/dashboard.controller.ts:14-17 | a booking is kept exactly when it is one of the input and the callback holds of it |
| `DashboardController.FilterByAppend` | server/src/controllers/dashboard.controller.ts:14-17 | filtering distributes over concatenation, so original order is kept |
| `DashboardController.FilterByKeepsAll` | server/src/controllers/dashboard.controller.ts:14-17 | when the callback holds of every booking, all are kept, in order |
| `DashboardController.FilterByDropsAll` | server/src/controllers/dashboard.controller.ts:14-17 | when the callback holds of none, nothing is kept |
| `DashboardController.Filter` | server/src/controllers/dashboard.controller.ts:14-17 | the filter with the year or month criterion as callback; the result is no longer than the input |
| `DashboardController.FilterMembers` | server/src/controllers/dashboard.controller.ts:14-17 | a booking is kept exactly when it is one of the input and meets the year or month criterion |
| `DashboardController.FilterDropsAll` | server/src/controllers/dashboard.controller.ts:22-23 | when no booking meets the criterion, the month filter keeps none |
| `DashboardController.FilterPrefix` | server/src/controllers/dashboard.controller.ts:14-17 | when exactly the first k bookings match, the filter returns those k |
| `DashboardController.FilterSingle` | server/src/controllers/dashboard.controller.ts:22-23 | when exactly one booking matches, the filter returns that one |
| `DashboardController.FractionalYearSelectsNothing` | server/src/controllers/dashboard.controller.ts:8-16 | a year that is not a whole number, such as 2024.5, selects no booking |
| `DashboardController.Revenue` | server/src/controllers/dashboard.controller.ts:19 | the `reduce` adding up `totalPrice` from 0 (lines 19 and 24); `RevenueAppend` and `MonthlySumsToTotal` state what it adds up to |
| `DashboardController.RevenueAppend` | server/src/controllers/dashboard.controller.ts:19 | revenue adds up over a concatenation |
| `DashboardController.MonthlyRevenue` | server/src/controllers/dashboard.controller.ts:21-30 | exactly 12 entries; entry i has month i+1 and the revenue of the bookings of 0-based month i |
| `DashboardController.MonthsCoverRevenue` | server/src/controllers/dashboard.controller.ts:19-30 | every dated booking falls in exactly one month, so the twelve monthly revenues add up to the revenue of all bookings |
| `DashboardController.SeriesTotalPrefix` | server/src/controllers/dashboard.controller.ts:21-30 | the total of the first k entries of the series is the revenue of the first k months |
| `DashboardController.MonthlySumsToTotal` | server/src/controllers/dashboard.controller.ts:19-30 | the twelve monthly revenues of a year add up to that year's total revenue |
| `DashboardController.SelectedYear` | server/src/controllers/dashboard.controller.ts:7-8 | an absent or empty parameter selects the current year; any other value selects what `Number` makes of it |
| `DashboardController.GetDashboardStats` | server/src/controllers/dashboard.controller.ts:6-39 | 400 with the source's message exactly when the selected year is NaN; otherwise the store sizes are unfiltered, the selected year is echoed back, the total is the revenue of that year, the series is the monthly series of that year, and the series adds up to the total |
| `DashboardController.EmptyYear` | server/src/controllers/dashboard.controller.ts:19-35 | a year without bookings reports revenue 0, twelve zero months and the full store sizes |
| `DashboardController.MonthOfOne` | server/src/controllers/dashboard.controller.ts:22-24 | a month that exactly one booking falls in has that booking's price as its revenue |
| `DashboardController.MonthOfNone` | server/src/controllers/dashboard.controller.ts:22-24 | a month that no booking falls in has revenue 0 |
| `DashboardController.FirstFourOf2024` | server/src/controllers/dashboard.controller.ts:14-17 | given six bookings, four dated in 2024 then two in 2025, the 2024 filter keeps the first four |
| `DashboardController.FourPricesRevenue` | server/src/controllers/dashboard.controller.ts:19 | bookings at 1200, 900, 1500 and 700 bring in 4300 |
| `DashboardController.FourMonthsApart` | server/src/controllers/dashboard.controller.ts:23 | four bookings dated January to April, one per month: booking i falls in month m exactly when i = m |
| `DashboardController.FourMonthSeries` | server/src/controllers/dashboard.controller.ts:21-30 | those four bookings give a series of 1200, 900, 1500 and 700, then eight zero months |
| `DashboardController.SeedBookingsShaped` | server/src/data/bookings.store.ts:3-10 | the seed bookings are dated January to April 2024, then January and February 2025, and the first four cost 1200, 900, 1500 and 700 |
| `DashboardController.ShapedDashboard2024` | server/src/controllers/dashboard.controller.ts:6-39 | the 2024 dashboard over bookings of that shape |
| `DashboardController.SeedDashboard2024` | server/src/data/bookings.store.ts:4-9 | with the seed bookings and `?year=2024`: 200, year 2024, 6 bookings, revenue 4300, months 1200, 900, 1500 and 700, the other eight months 0 |

## Left out

- Express plumbing is not modelled: `req`, `res`, the status codes written
  to the socket, the routers and the server bootstrap. Handlers return a
  `Response`.
- The 500 "In-memory store corrupted" branch of `updateHotel` is left out.
  It cannot be reached, because `findIndex` returned a valid index.
- The clock is a parameter, not a call. `createHotel`'s date is `today`, and
  `getDashboardStats`'s default year is `currentYear`.
- `Number(yearParam)` is the parameter `numberOf`, and its parsing rules are
  not modelled. A parameter that is an array (`?year=a&year=b`) is not
  modelled either: the parameter is an optional string.
- JavaScript numbers are finite reals, and JSON has no NaN. An
  overflowing number in a body, such as `1e400`, parses to Infinity, which
  `isValidStars` rejects just as it rejects any real above 5; the model
  therefore has no separate Infinity value. A NaN year is the `None` of
  `numberOf`, and an infinite year would match nothing.
- Prices and id suffixes are unbounded integers. The precision that
  `Number(match[1])` loses on suffixes beyond 2^53 is not modelled.
- `updateHotel` with no request body at all is not modelled: it throws
  before validating. `createHotel` without a body is the all-`Undefined`
  payload, which answers 400.
- Dates are read only from `YYYY-MM-DD` strings, which is the form the
  stores write.
  - Any other form that `new Date` accepts is treated as an Invalid Date
    and matches no year.
  - A day past the end of its month (`2024-02-30`) is counted in the month
    it names, not rolled over.
- The time-zone shift of `new Date(...).getFullYear()` is described under
  Findings. The model uses the written year and month.
- `HotelsController.HotelStore.Create` allocates ids as the source does
  (`FreshId`, the maximum over the records still present), so it can hand
  out the id of a deleted hotel again; see Findings. The corrected
  allocation `FreshIdAbove` needs a high-water mark that the source does
  not keep, and is stated beside the store rather than inside it.
- `GetAll` returns the table as a value. The aliasing of the live array
  handed to `res.json` is not modelled.
- The clients store is not part of this model. The dashboard takes the
  clients table only for its length.
- Concurrent requests racing on `getNextHotelId` are out of scope, because
  handlers run one at a time.
- The React client, with its duplicated validation, and the fetch wrappers
  are out of scope, because they are UI state and network I/O.

## Findings

| source | as written | input that shows it | evidently intended | confidence | as-written member | corrected member |
|---|---|---|---|---|---|---|
| server/src/controllers/dashboard.controller.ts:15-16 | `new Date(b.createdAt)` reads a date-only string as midnight UTC, while `getFullYear` and `getMonth` report local time; on a server west of UTC, a booking on the first of a month lands in the previous month, and on January 1st in the previous year | `createdAt` "2024-01-01" on a server at UTC-05:00: counted in December 2023 and left out of `?year=2024` | each booking is counted in the year and month its `createdAt` names | not executed | `DashboardController.LocalCalendarMonth` and `DashboardController.LocalTimeMovesNewYearsDay` | `DashboardController.CalendarMonth` and `DashboardController.CalendarMonthOfDateString` |
| server/src/controllers/hotels.controller.ts:6-13 | `getNextHotelId` takes the maximum suffix over the records still in `hotels`, so deleting the record with the largest suffix makes the next create reuse its id | seed table, delete `h3`, then create a valid hotel: the new record is `h3` again, and seed booking b4 (server/src/data/bookings.store.ts:7), which names `h3`, now points at it | an id is never handed out twice, even after deletes | not executed | `HotelsController.DeleteMaxThenCreateReusesId` | `HotelIds.FreshIdAbove` and `HotelIds.FreshIdAboveNeverReused` |
