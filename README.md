# Short-link backend core, modelled in Dafny

This project models the core of a URL-shortening service written for
Node.js with Express and Mongoose. It covers four pieces:

- **Referrer classifier** (`getSource`). It maps an optional referrer string
  to one of `Direct`, `Social Media`, `Search Engines`, `Email` or `Other`.
  It lower-cases the input, then runs substring tests in a fixed order
  (`referrer.dfy`, on the string operations in `text.dfy`).
- **Day-label range generator** (`generateDateRange`). A loop emits one
  `"Mon DD"` label per day, in India Standard Time, from a start instant up
  to "now". An unparseable start gives an empty list (`date_range.dfy`). The
  loop takes the label function as a parameter and is called with
  `FormatDateInIst`. That function models `formatDateInIST` as a fully
  specified calendar computation (`calendar.dfy`).
- **Short-link record** (`url.model.js`). It covers the fields, the `trim`
  setters, the defaults (`isActive` true, `createdBy` null), the
  `timestamps` fields, the `required` validators and the unique index on
  `shortId` (`url_model.dfy`).
- **Three URL handlers** (`url.controler.js`). They are methods of a class
  that holds the collection as a map from `shortId` to record:
  - create a short link;
  - redirect through it, which appends one visit event;
  - report its click count.

  These are in `url_controller.dfy`.

Instants are integers (milliseconds since the Unix epoch). A day is
86 400 000 ms. India Standard Time is taken as the fixed offset UTC + 19 800 000 ms. The calendar is
the proleptic Gregorian one. The following become parameters:

- "now" (`new Date()`, `Date.now()`);
- the random id (`nanoid(8)`);
- the caller's user id (`req.userInfo?._id`);
- the parse result of `new Date(startDate)`, as `Option<int>` where `None`
  stands for an invalid date.

Handler outcomes are `Ok`, `ValidationError`, `NotFound` and `InternalError`.
The last one stands for the code's `catch` block, which answers 500.

The model follows the code as written, including where it departs from what
the service is meant to do:

- A redirect matches on `shortId` alone, so an inactive link is still
  redirected and counted.
- The pushed event carries only a timestamp. It has no ip, device type or
  source.
- `shortId` is not lower-cased by the schema.
- The date range counts elapsed 24-hour steps, not calendar days. When the
  time of day of "now" is earlier than that of the start, now's own IST
  day gets no label.
- The missing `return` after the 400 answers (`url.controler.js:49-54`,
  `71-76`) is modelled as a `NotFound` outcome with the store unchanged.
  The model does not treat it as a redirect or a count.

Two consequences of the code follow from the schema and Mongoose rather
than from the controller:

- A `url` made only of whitespace passes the handler's `!url` test. It then
  fails the `required` validator after trimming, in the catch block, so the
  outcome is `InternalError` and nothing is inserted.
- A redirect also updates `updatedAt`, because the schema's `timestamps`
  option applies to `findOneAndUpdate`.

## Model

| member | source | states |
|---|---|---|
| `Text.IncludesIffOccurs` | helper/getSource.js:6-32 | the left-to-right scan that models `includes` succeeds exactly when the pattern occurs at some position |
| `Text.LowerOfUpper` | helper/getSource.js:4 | lower-casing forgets case: lower(upper(s)) = lower(s), and lower-casing is idempotent |
| `Text.Trim` | models/url.model.js:8-13 | the trimmed string has no whitespace (ECMAScript WhiteSpace and LineTerminator) at either end |
| `Text.TrimStrips` | models/url.model.js:8-13 | the trimmed string is a slice of the input, and everything dropped is whitespace |
| `Referrer.Label` | helper/getSource.js:2-34 | every outcome is one of the five label strings the function returns |
| `Referrer.IncludesAnyIffOccursAny` | helper/getSource.js:6-32 | a left-to-right or-chain of `includes` tests holds exactly when some pattern of the list occurs |
| `Referrer.GetSource` | helper/getSource.js:1-35 | Direct iff the referrer is absent or empty; Social Media iff a social domain occurs in the lower-cased referrer; Search Engines iff none does and a search domain does; Email iff neither does and an email marker does; Other iff no pattern occurs |
| `Referrer.CaseInsensitive` | helper/getSource.js:4 | referrers that lower-case alike, including the upper-cased and lower-cased forms of one referrer, get the same category |
| `Referrer.SocialDomainWins` | helper/getSource.js:6-14 | a referrer containing any social domain, in any case, is Social Media whatever else it contains |
| `Referrer.AnyXDotComIsSocial` | helper/getSource.js:9 | any referrer containing `x.com` (so any host ending in it, such as `dropbox.com`) is Social Media |
| `Referrer.DropboxIsSocial` | helper/getSource.js:9 | `https://www.dropbox.com/home` is classified as Social Media |
| `Referrer.WebmailIsSearch` | helper/getSource.js:16-28 | a referrer containing `mail.google.com` or `mail.yahoo.com` is never Email, and is Search Engines when no social domain occurs |
| `Referrer.EmailExactly` | helper/getSource.js:25-32 | Email iff non-empty, no social or search domain, and `outlook.office.com` or `newsletter` occurs: the two webmail markers are unreachable |
| `Referrer.BlankIsOther` | helper/getSource.js:2-34 | a present, non-empty referrer made only of whitespace is Other, not Direct |
| `Calendar.MonthsFillYear` | helper/generateDateRange.js:5-14 | the twelve month lengths add up to the length of the year, 366 in a leap year and 365 otherwise |
| `Calendar.WalkSucc` | helper/generateDateRange.js:5-14 | for any positive month lengths, the day after a given day is the next day of the same month, or the first of the next month after a month's last day |
| `Calendar.WalkLast` | helper/generateDateRange.js:5-14 | for any positive month lengths, the last day counted from a month is the last day of the last month (31 December in the calendar) |
| `Calendar.FromEpochDaysSucc` | helper/generateDateRange.js:5-14 | consecutive day numbers map to consecutive calendar dates (across month and year ends, leap years included) |
| `Calendar.IstDateNextDay` | helper/generateDateRange.js:5-14 | an instant one day later falls on the next IST calendar date |
| `Calendar.EpochAnchors` | helper/generateDateRange.js:5-14 | the calendar is anchored: day 0 is 1970-01-01, day -1 is 1969-12-31, day 59 is 1970-03-01 |
| `Calendar.FormatDateInIst` | helper/generateDateRange.js:5-15 | every label is a month abbreviation, one space and two decimal digits, month first |
| `Calendar.FormatDateInIstRoundTrip` | helper/generateDateRange.js:11-14 | reading a label back gives the month and day of the instant in India Standard Time |
| `Calendar.IstMidnight` | helper/generateDateRange.js:7 | the day changes at 18:30 UTC: 1970-01-01T18:30Z is labelled 2 January, one millisecond earlier 1 January |
| `DateRange.DayCount` | helper/generateDateRange.js:20-23 | for start <= now the count n satisfies (n-1) days <= now - start < n days; it is 0 for a start after now |
| `DateRange.DayInstantValue` | helper/generateDateRange.js:22 | stepping the date forward one day at a time, i times, lands exactly i × 86 400 000 ms after the start |
| `DateRange.LabelEachDay` | helper/generateDateRange.js:20-23 | for any label function, the loop emits exactly as many labels as there are whole days from the start up to now, plus one; the i-th label is that of the instant i days after the start; the last labelled instant is <= now and the next one is past it |
| `DateRange.GenerateDateRange` | helper/generateDateRange.js:1-26 | an invalid start gives []; otherwise the i-th entry is the IST label of the instant i days after the start, for i < floor((now - start)/day) + 1; the last instant is <= now and one more step passes now; a start after now gives []; otherwise the first label is the start's |
| `DateRange.SameDayGivesOne` | helper/generateDateRange.js:20-22 | a start within one day before now (or equal to it) gives exactly one label |
| `DateRange.EarlierTimeOfDayMissesToday` | helper/generateDateRange.js:20-23 | the loop counts elapsed 24-hour steps, not calendar days: a start less than a day before now but on the previous IST day gives one label, and now's own day gets none |
| `DateRange.MissedTodayExample` | helper/generateDateRange.js:20-23 | a start at 12:00 IST and a now at 11:59:59.999 IST on the next day give a single label although now lies on the next IST day |
| `DateRange.ConsecutiveLabelDays` | helper/generateDateRange.js:21-22 | the instants behind the i-th and (i+1)-th labels fall on consecutive IST calendar days: no calendar day is skipped or repeated |
| `UrlModel.BuildDocument` | models/url.model.js:3-30 | a document is built iff both required strings are non-empty after trimming; it then holds the trimmed strings, `isActive` defaulting to true, `createdBy` as given (null when absent) and both timestamps set to now |
| `UrlModel.Insert` | models/url.model.js:4-9 | a record whose `shortId` is stored already is rejected; otherwise exactly one record is added, the others are kept and the collection invariant is preserved |
| `UrlController.NanoIdTrimmed` | controllers/url.controler.js:12 | an id drawn from the nanoid alphabet is unchanged by the `trim` setter |
| `UrlController.NewLinkDocument` | controllers/url.controler.js:13-18 | the create handler's document is rejected iff the trimmed url is empty; otherwise it holds the fresh id, the trimmed url, an empty history, `isActive` true, the caller as owner and now as both timestamps |
| `UrlController.VisitAt` | controllers/url.controler.js:41-43 | the pushed event carries the current timestamp and no ip, device type or source |
| `UrlController.Recorded` | controllers/url.controler.js:37-47 | on a known id, whatever its `isActive`, exactly one event is appended at the end of that record's history and only `updatedAt` also changes, to now; all other records are unchanged; an unknown id changes nothing; the collection invariant is kept |
| `UrlController.ReplayAppends` | controllers/url.controler.js:37-47 | n redirects append exactly their n events, in order, to the target record and leave every other record unchanged; on an unknown id they change nothing |
| `UrlController.CreatedThenRedirected` | controllers/url.controler.js:13-18 | a newly created link redirected through n times has exactly those n visits, so `totalClicks` is n |
| `UrlController.InsertedThenRedirected` | controllers/url.controler.js:37-47 | a record inserted with an empty history and redirected through n times holds exactly those n visits, in order |
| `UrlController.UrlCollection.HandleGenerateNewShortUrl` | controllers/url.controler.js:4-32 | falsy url: ValidationError, store unchanged; whitespace-only url or an id already stored: InternalError, store unchanged; otherwise exactly the new record is inserted under the returned id, which is the stored `shortId` and has length 8 |
| `UrlController.UrlCollection.HandleRedirect` | controllers/url.controler.js:34-64 | the new store is the one-event append of `Recorded`; a known id answers with its stored target url, an unknown id with NotFound |
| `UrlController.UrlCollection.HandleGetAnalytics` | controllers/url.controler.js:66-88 | read-only: a known id answers with the length of its visit history, an unknown id with NotFound |

## Left out

- `Text.ToLower`: only ASCII letters are lower-cased. JavaScript's full
  Unicode case mapping is not modelled. For example, the Kelvin sign
  lower-cases to an ASCII `k`, so a domain spelled with it would match in
  the source but not in the model.
- `Calendar.FormatDateInIst`: the month abbreviations are the three-letter
  English ones, September included as `Sep`. The locale data behind
  `Intl.DateTimeFormat("en-IN")` is not modelled. Current CLDR data for
  `en-IN` is understood to print `Sept`, so every September label of the
  running service would be 7 characters, not 6.
- `Calendar.IstDate`: the zone `Asia/Kolkata` is modelled as a fixed offset
  of UTC + 05:30 for all instants. The tz database gives that zone other
  offsets in the past: +06:30 during 1942-1945 and various local-time
  offsets before 1906. Labels of instants before late 1945 can therefore
  differ from the source's.
- `generateDateRange` steps its `Date` with `setDate` in the server's local
  time. The model steps by exactly 86 400 000 ms, so days that daylight
  saving makes longer or shorter are not modelled.
- `new Date(startDate)` parsing is not modelled. The model takes its
  outcome as a parameter.
- Randomness (`nanoid`), the clock and the identity supplied by the auth
  middleware are parameters. The create route is mounted without the auth
  middleware, so in the running service `createdBy` is always null. The
  model still accepts an owner.
- Store failures (an unreachable database) are not modelled. The store
  never fails, so `InternalError` arises only from validation and the
  duplicate key.
- Mongoose query casting and query-side setters on the `{shortId}` filter
  are not modelled. Ids are matched exactly.
- Non-string request values that Mongoose would cast (numbers, objects) are
  not modelled. The `url` and referrer are optional strings.
- Concurrency is not modelled. Each handler is one atomic transition, which
  is how `findOneAndUpdate` with `$push` behaves.
- HTTP status codes, JSON bodies, `res.redirect` and the "headers already
  sent" error after the missing `return` appear only as the abstract
  outcomes above.
- The `_id` of each `visitHistory` entry and the document's own `_id` and
  `__v` are not modelled.
- The authentication controller, token service, middleware, routes and
  database connection are framework glue with no logic of their own. They
  are not part of this model. The redirect handler is not mounted in
  `routes/url.route.js`.
- Period statistics, unique visitors, device and source breakdowns and
  daily series are not implemented in the source files modelled here.
