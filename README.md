# Currency converter server: a Dafny model

This project models the server side of a small currency converter. The server reads the
Turkish central bank's daily currency list (an XML document) and serves two JSON endpoints:

* `GET /rates`: today's table from currency code to rate against the lira. `TRY` is 1, unless the list itself
  carries a rated `TRY` entry, which overwrites the seeded 1.
* `GET /history`: a series of points for a currency pair over a range (`1D`, `1W`, `1M`, `1Y`).
  The series is built from one fetched document per step.

Five modules model `server.js`:

* `Wrappers`: the `Option` type that stands for JavaScript's `null` and `undefined`.
* `Decimal`: `Number#toString` for whole numbers and `String#padStart`. `DecimalValue` reads digits back.
* `DateKey`: `formatDate`, and the choice between today's document URL and the dated archive URL.
  `ParseDayKey` and `ParseArchiveUrl` are the inverses, used to prove that keys and URLs identify their date.
* `Rates`: a parsed `<Currency>` element (`Entry`), `getRateFromCurrencies` (`RateOf`) and the `/rates` loop.
  The loop is the method `BuildTable`. It is proved equal to the specification function `TableOf`.
* `History`: the step counts from the two `daysMap` objects and the constant series for base == target
  (`BuildUnitSeries`). It also covers the cross-rate loop (`BuildCrossSeries`, proved equal to `CrossSeries`)
  and the handler that chooses between the two loops (`HandleHistory`).

Rate values stay symbolic. `Parsed(t)` stands for `parseFloat(t)`, where `t` is the rate text after its
first comma became a dot. A cross-rate point keeps both looked-up rates instead of their rounded quotient.
Nothing outside the handlers is modelled. That includes the network, the XML parser and the clock.
They are parameters instead:

* `HandleRates` takes the result of fetching today's list. `None` means the fetch or the parse threw.
* `Upstream.fetch(i, url)` is the parsed list fetched at step `i`, or `None` when anything in the fetch threw.
* `Upstream.dateAt(i)` is the calendar date `i` days before now.

JavaScript object lookups follow the language:

* `daysMap[range]` for a name every object inherits, such as `"toString"` or `"__proto__"`, gives a non-number.
  Then `days - 1` is NaN and the loop does not run (`Lookup.Inherited`).
* Assigning a number to `rates["__proto__"]` adds no key (`ProtoKey`).

Two consequences of `server.js` as written:

* An unknown range is not an error. With equal currencies it gives an empty series.
  Otherwise it gives one step on the archive document for today's date (`UnknownRangeIsOneArchiveStep`).
* `"1D"` with different currencies is not hourly. It is one step on today's document, so the
  series has at most one point (`OneDayIsOneStep`). Only the base == target series has 25 hourly points.

## Model

| member | source | states |
|---|---|---|
| `Decimal.NatToDecimal` | server.js:19-20 | `toString` of a whole number is a non-empty digit string with no leading zero |
| `Decimal.IntToDecimal` | server.js:18 | the year's text starts with `-` exactly when the year is negative, and is all digits otherwise |
| `Decimal.PadStart` | server.js:19-20 | `padStart(w, fill)` has length max(len, w), ends with the original string and is `fill` before it |
| `Decimal.DecimalRoundTrip` | server.js:19-20 | reading back the digits `toString` wrote gives the number again |
| `Decimal.DecimalLength` | server.js:18 | `toString` of `n` has at most `k` characters exactly when `n < 10^k` |
| `Decimal.FourDigits` | server.js:18 | a year from 1000 to 9999 is written with exactly four characters |
| `Decimal.TwoDigitKey` | server.js:19-20 | `n.toString().padStart(2, "0")` for `n < 100` is two digits that spell `n` |
| `DateKey.FormatDate` | server.js:17-26 | no contract; specified by `DateKey.YearMonthKeyShape`, `DateKey.DayKeyShape`, `DateKey.DayKeyRoundTrip` and `DateKey.DayKeyCanonical` |
| `DateKey.YearTextShape` | server.js:18 | the year text of a four-digit year is four digits spelling the year |
| `DateKey.MonthTextShape` | server.js:19 | the month text is two digits spelling `getMonth() + 1` |
| `DateKey.DayTextShape` | server.js:20 | the day text is two digits spelling `getDate()` |
| `DateKey.YearMonthKeyShape` | server.js:17-25 | `yyyyMM` is 6 digits for a four-digit year: the year, then a month 01..12 |
| `DateKey.DayKeyShape` | server.js:17-25 | `ddMMMyyyy` is 8 digits: the day, then the numeric month (the same two digits as in `yyyyMM`), then the year |
| `DateKey.DayKeyRoundTrip` | server.js:20-24 | parsing the `ddMMyyyy` key gives back the date it was made from |
| `DateKey.CanonicalDecimal` | server.js:18 | a digit string without a leading zero is exactly what `toString` writes for its value |
| `DateKey.TwoDigitCanonical` | server.js:19-20 | every two-digit string is what `padStart(2, "0")` makes of its value |
| `DateKey.DayKeyCanonical` | server.js:20-24 | every key the parser accepts is the `formatDate` key of its date (converse of the round trip) |
| `DateKey.DocumentUrl` | server.js:99-101 | `"1D"` gives today's document URL; any other range gives a URL that starts with the archive base and ends in `.xml` |
| `DateKey.ArchiveUrlRoundTrip` | server.js:99-101 | outside `"1D"`, the archive URL `.../kurlar/yyyyMM/ddMMyyyy.xml` parses back to its date |
| `DateKey.DocumentUrlDistinct` | server.js:15 | `"1D"` always fetches today's document; other ranges fetch a different archive document for each date, never today's |
| `Rates.RateText` | server.js:40 | ForexSelling when present and non-empty, else BanknoteSelling, else no text; a chosen text is never empty |
| `Rates.ReplaceFirstComma` | server.js:42 | the replacement keeps the length and leaves a text without a comma unchanged |
| `Rates.ReplaceFirstCommaAt` | server.js:42 | only the first comma becomes a dot; every other character, later commas included, is kept |
| `Rates.ParseRate` | server.js:42 | no contract; specified by `Rates.ReplaceFirstCommaAt` and `Rates.RateOfFirstMatch` |
| `Rates.FirstWithCode` | server.js:38 | `find` gives the first entry with the code, or nothing when no entry carries it |
| `Rates.RateOf` | server.js:36-43 | `"TRY"` is 1 without looking at the list; a code no entry carries gives `null`; a rate always comes from a rated entry with that code |
| `Rates.RateOfFirstMatch` | server.js:37-42 | for another code, the first matching entry decides: its Forex text, else its Banknote text, else `null` |
| `Rates.RateOfIgnoresLaterEntries` | server.js:38 | entries after the first match never change the answer |
| `Rates.TableOf` | server.js:49-55 | no contract; specified by `Rates.TableHasLocal`, `Rates.TableKeys`, `Rates.TableValueIsLastAssignment` and `Rates.TableLocalIsOne` |
| `Rates.BuildTable` | server.js:49-55 | the `/rates` loop computes exactly `TableOf` of the list |
| `Rates.HandleRates` | server.js:46-60 | a failed fetch or parse gives the error response; otherwise the table, which always has `TRY` |
| `Rates.TableHasLocal` | server.js:49 | the seeded `TRY` key is never removed |
| `Rates.TableKeys` | server.js:49-55 | the keys are `TRY` plus every code some entry with a rate text carries (except `__proto__`); entries without a rate add no key |
| `Rates.TableValueIsLastAssignment` | server.js:53-54 | a key's value comes from the last rated entry with that code, a `TRY` entry included |
| `Rates.TableLocalIsOne` | server.js:49 | without a rated `TRY` entry, `TRY` stays 1 |
| `Rates.TableAgreesWithLookup` | server.js:36-55 | for a list with unique codes and no `TRY` or `__proto__` entry, the table has a key exactly when the lookup finds a rate, and the same rate |
| `History.UnitDays` | server.js:77-78 | no contract; specified by `History.UnitSeriesLength` and `History.CrossStepCount` |
| `History.CrossDays` | server.js:89-90 | no contract; specified by `History.CrossStepCount` |
| `History.OrOne` | server.js:90 | no contract; specified by `History.CrossStepCount` |
| `History.Iterations` | server.js:79 | no contract; specified by `History.CrossStepCount` and `History.UnitSeriesLength` |
| `History.CrossStepCount` | server.js:89-94 | `daysMap[range]`, else 1: 1 for `"1D"`, 7 for `"1W"`, 30 for `"1M"`, 365 for `"1Y"`; 1 for any other name; 0 for an inherited name |
| `History.UnitSeriesLength` | server.js:70-79 | the constant series has 25 points for `"1D"`, 7/30/365 for `"1W"`/`"1M"`/`"1Y"`, none for any other range |
| `History.Resolve` | server.js:65 | a missing `baseCurrency`, `targetCurrency` or `range` becomes `"TRY"`, `"USD"` or `"1D"`; a given one is kept as is |
| `History.StepWhen` | server.js:95-97 | a step's timestamp is `i` hours back for `"1D"`, `i` days back otherwise |
| `History.StepPoint` | server.js:103-118 | a step yields a point exactly when its document was fetched and parsed and both rates exist; the point carries both rates |
| `History.Steps` | server.js:94-122 | no contract; specified by `History.SeriesShape`, `History.SeriesMembers` and `History.SeriesWithoutGaps` |
| `History.CrossSeries` | server.js:89-122 | no contract; specified by `History.CrossSeriesShape`, `History.CrossSeriesMembers` and `History.CrossSeriesWithoutGaps` |
| `History.BuildUnitSeries` | server.js:67-85 | base == target: the series has `UnitSeriesLength` points, all rate 1, oldest first |
| `History.BuildCrossSeries` | server.js:89-124 | the counting-down loop, with `continue` on failures, computes exactly `CrossSeries` |
| `History.HandleHistory` | server.js:64-124 | with defaults applied: equal currencies give the all-1 series of `UnitSeriesLength` points, oldest first, each `StepWhen` of its distance back; otherwise the cross series, with at most one point per step |
| `History.SeriesShape` | server.js:94-118 | for any step function whose points carry their step as age: at most one point per step, ages strictly decreasing (oldest first), every age one of the steps walked |
| `History.SeriesMembers` | server.js:103-121 | a point is in the series exactly when some step walked produced it |
| `History.SeriesWithoutGaps` | server.js:103-121 | when no step fails, the series has exactly one point per step |
| `History.CrossSeriesShape` | server.js:89-122 | the cross series has at most `CrossStepCount` points, oldest first, all cross-rates; with `TRY` as base every base rate is 1 |
| `History.CrossSeriesMembers` | server.js:103-121 | a point is in the cross series exactly when some step had its document and both rates and produced it |
| `History.CrossSeriesWithoutGaps` | server.js:103-121 | when every step's document arrives with both rates, the series has one point per step |
| `History.OneDayIsOneStep` | server.js:89-101 | `"1D"` is a single step on today's document |
| `History.UnknownRangeIsOneArchiveStep` | server.js:89-101 | an unknown range is one step on the archive document of today's date |

## Left out

- HTTP plumbing is not modelled: Express routing, CORS, static files, the catch-all route and `app.listen` (server.js:11-13, 131-137).
- The network fetch and the XML parser (`fetchRatesFromXML`) are not modelled. They are the oracle `Upstream.fetch`, and the argument of `HandleRates`.
- A document whose `Tarih_Date.Currency` is missing is not modelled separately. It can only end one of two ways: the `/rates` loop throws, and with different currencies a lookup throws. Both are a failed fetch (`None`) in the model.
- A `<Currency>` element without a `CurrencyCode` attribute is not modelled: every `Entry` carries a code. In the source, an element with other attributes but no `CurrencyCode` has an `undefined` code. `/rates` stores it under the key `"undefined"`, and the `find` in `getRateFromCurrencies` passes over it. Only an element with no attributes at all has no `$`. Then `cur.$.CurrencyCode` throws: `/rates` fails as a whole, and a `/history` step is skipped only when a `find` for a code other than `TRY` reaches that element before a match.
- `parseFloat`, the target/base division and the `toFixed(4)` rounding are not modelled. They are floating-point work, and rates stay symbolic (`Parsed`, `CrossRate`).
- The ±1% `Math.random()` jitter on `"1D"` points is not modelled. It is random and floating-point.
- JavaScript `Date` arithmetic is not modelled: `setDate`/`setHours` rollover and `toISOString`. A date is the oracle `Upstream.dateAt`, and a timestamp is the step's distance back (`When`).
- The model does not cover `console.error` logging, the order of keys in the JSON output, or the outer `catch` of `/history`. The outer catch is unreachable once every step's failure is caught.
- `app.js` and `public/app.js` are not modelled. They hold browser DOM wiring, charting and float formatting.
- `DateKey.DayKeyShape`, `DateKey.YearMonthKeyShape`, `DateKey.ArchiveUrlRoundTrip` and `DateKey.DocumentUrlDistinct` are stated only for four-digit years. Other years have keys of other lengths, and a negative year gets a `-` sign.
- `Rates.TableAgreesWithLookup` is stated only for lists with unique codes. With duplicates, the table keeps the last rated entry and the lookup the first.
