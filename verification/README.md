# Train search bot: a verified model of its dialogue

The bot (`bot.py`) walks one user through a train search in four messages:
`/start`, the origin station, the destination station and a travel date in
`DD-MM-YYYY`. It checks the date, hands the trip to a search function, and
answers either "no trains found" or a list of at most ten trains with a
MakeMyTrip booking link carrying an affiliate tag. `/cancel` aborts and `/help`
answers at any time.

This project models that decision logic as pure Dafny functions and proves what
the handlers promise:

- `wrappers.dfy` (`Wrappers`): the `Option` type used for absent dictionary keys
  and absent availability.
- `text.dfy` (`Text`): Python's `str.strip()` with Python's whitespace set, and
  ASCII decimal numerals read (`int()`) and written (`%d`, `%m`, `%Y`).
- `dates.dfy` (`Dates`): `datetime.strptime(text, "%d-%m-%Y")` as `ParseDate`,
  which reads the fields by position from the left. It is proved equal to a
  pattern-level description (`ReadsAs`: one of the four day and month widths)
  plus the Gregorian calendar check.
- `links.dfy` (`Links`): `create_affiliate_link`, which parses the stored date
  again and writes it as `DDMMYYYY` between the unescaped stations and the
  affiliate tag.
- `results.dfy` (`Results`): train records, the truncation to ten, numbering
  from 1 and the conditional availability line.
- `dialogue.dfy` (`Dialogue`): the conversation as `Step(state, data, message,
  search) -> (state, data, replies, search made)` and `Run` over a message
  sequence. States are `FromStation`, `ToStation`, `Date` and `Ended`. `Ended`
  means "no conversation in progress". The train search is a function parameter
  `Query -> seq<TrainRecord>`.

Behaviour as `bot.py` has it, where the prompts suggest something stricter:

- The date check accepts one- or two-digit days and months (`1-1-2026`), not
  only `DD-MM-YYYY`. It rejects year 0 and days past the end of the month, with
  the leap-year rule. The day pattern's space-prefixed alternative can never
  match, because the text is stripped and the day comes first.
- The stored date is the stripped text as typed, not a normalised form. The
  search receives that text. Only the link re-encodes it, so `1-1-2026` and
  `01-01-2026` give the same link but different search queries.
- The per-user data is never cleared. `/start` and `/cancel` leave the old
  origin, destination and date in place, and each new conversation overwrites
  them one question at a time (`StartOnlyOutsideConversation`, `CancelEnds`).
- `/start` during a conversation is ignored rather than restarting it, because
  the conversation handler does not allow re-entry. `/cancel` outside a
  conversation is ignored too.
- Station names go into the link without URL escaping, so different station
  pairs can produce the same link (`StationsNotEscaped`).

## Model

| member | source | states |
|---|---|---|
| Text.Strip | bot.py:52 | The stripped text has no whitespace at either end and is no longer than the input. |
| Text.StripRecovers | bot.py:52 | For any trimmed text surrounded by whitespace, stripping returns exactly that text. Together with `StripSplits` this characterises `str.strip()` completely. |
| Text.StripSplits | bot.py:52 | Every text is leading whitespace, then its stripped form, then trailing whitespace. |
| Text.StripIdempotent | bot.py:52 | Stripping an already stripped reply changes nothing. |
| Text.PadTwo | bot.py:120 | `%d` and `%m` write two digits whose value is the field. |
| Text.Decimal | bot.py:120 | `%Y` writes a non-empty digit string whose value is the year. |
| Text.PadTwoOfDigits | bot.py:120 | Re-rendering a two-digit field gives back the same two characters. |
| Text.DecimalOfDigits | bot.py:120 | Any numeral without a leading zero is exactly the rendering of its own value, so reading and writing a year are inverse. |
| Text.DecimalOfFourDigits | bot.py:120 | Re-rendering a four-digit year of at least 1000 gives back the same four characters. |
| Text.DecimalFourDigits | bot.py:120 | Years 1000 to 9999 are written with exactly four digits. |
| Dates.IsLeapYear | bot.py:56 | The Gregorian rule `datetime` applies: divisible by 4, and not by 100 unless by 400. A definition with no contract of its own; `YearLength` and the leap-day examples state its consequences. |
| Dates.DaysInMonth | bot.py:56 | February has 29 days exactly in leap years, the 30-day months are exactly April, June, September and November, the 31-day months are exactly January, March, May, July, August, October and December, and every other case has 28. |
| Dates.YearLength | bot.py:56 | The month lengths add up to 366 days exactly in leap years and 365 otherwise. |
| Dates.IsCalendarDate | bot.py:56-58 | The range check `datetime` makes after the pattern: years 1 to 9999, months 1 to 12, days from 1 to the month's length. A definition with no contract of its own; `ParseDate` and `ParseDateIsStrptime` state what it accepts. |
| Dates.ParseDate | bot.py:55-58 | Every date the check accepts is a real calendar date with a year from 1 to 9999. |
| Dates.FieldValueIsDigitsValue | bot.py:56 | A one- or two-digit field read by position has the value Python's `int()` gives its characters. |
| Dates.FieldOfShape | bot.py:56 | A field of one or two digits followed by a hyphen is read with exactly its own width and value. |
| Dates.ParseDateIsStrptime | bot.py:55-63 | The check accepts a text, reading date d, exactly when the text is a 1-2 digit day, `-`, a 1-2 digit month, `-` and four year digits with nothing after, whose fields are d, and d is a real calendar date. |
| Dates.ParsedHasShape | bot.py:56 | Whatever the check accepts has one of the four shapes the pattern admits. |
| Dates.ShapeIsParsed | bot.py:56 | Every text of an admitted shape is accepted exactly when its fields form a calendar date, and is read as those fields. |
| Dates.CanonicalIsAccepted | bot.py:45-46 | Every calendar date with a four-digit year, written in the prompted `DD-MM-YYYY` form, is accepted and read back as the same date. |
| Dates.ReadsTwoTwo | bot.py:56 | A text of the padded `DD-MM-YYYY` shape reads digit by digit as day, month and year. |
| Dates.PromptExampleAccepted | bot.py:46 | The prompt's example `15-01-2026` is accepted as 15 January 2026. |
| Dates.UnpaddedAccepted | bot.py:56 | `1-1-2026` is accepted as 1 January 2026, although the prompt asks for two-digit fields. |
| Dates.PaddedAccepted | bot.py:56 | `01-01-2026` is accepted as the same date. |
| Dates.LeapDayAccepted | bot.py:56 | 29-02-2024 is accepted. |
| Dates.LeapCenturyAccepted | bot.py:56 | 29-02-2000 is accepted, because 2000 is divisible by 400. |
| Dates.CenturyNotLeap | bot.py:58-63 | 29-02-1900 is rejected, because 1900 is a century year not divisible by 400. |
| Dates.CommonYearRejected | bot.py:58-63 | 29-02-2026 is rejected. |
| Dates.FebruaryOverflowRejected | bot.py:58-63 | 31-02-2026 is rejected. |
| Dates.ThirtyDayMonthRejected | bot.py:58-63 | 31-04-2026 is rejected. |
| Dates.YearZeroRejected | bot.py:58-63 | 01-01-0000 is rejected. |
| Dates.MalformedRejected | bot.py:58-63 | A two-digit year, slashes, a trailing character and a three-digit day are all rejected. |
| Links.AffiliateLink | bot.py:116-128 | The link starts with the head carrying both stations, ends with the affiliate tail, and has only digits, at least one, between them. `LinkCarriesDate` states which eight digits. |
| Links.CompactDate | bot.py:119-120 | The date segment is all digits, and exactly eight of them for years from 1000. |
| Links.CompactDateRoundTrip | bot.py:118-120 | Reading the eight-digit segment back as DD, MM and YYYY gives the same calendar date. |
| Links.LinkCarriesDate | bot.py:116-128 | The link is the base URL with `?from=`, the origin verbatim, `&to=`, the destination verbatim and `&date=`, then eight digits that read back as the typed date, then `&affiliateId=` and the constant tag. |
| Links.SameDateSameLink | bot.py:119-120 | Two spellings of the same calendar date give the same link. |
| Links.CanonicalSegmentDropsHyphens | bot.py:118-120 | For a padded `DD-MM-YYYY` input, the segment is the input's digits with the hyphens removed. |
| Links.UnpaddedDateSegment | bot.py:119-120 | `1-1-2026` gives the segment `01012026`. |
| Links.PaddedDateSegment | bot.py:119-120 | `01-01-2026` gives the same segment, `01012026`. |
| Links.NewYear2026Segment | bot.py:120 | 1 January 2026 is written `01012026`. |
| Links.PromptDateSegment | bot.py:120 | 15 January 2026 is written `15012026`. |
| Links.MumbaiDelhiLink | bot.py:116-128 | Mumbai to Delhi on 15-01-2026 gives the link text for those stations, then `15012026`, then the affiliate tail. |
| Links.MumbaiDelhiHead | bot.py:123-126 | The text in front of the date for that trip is `https://www.makemytrip.com/railways?from=Mumbai&to=Delhi&date=`. |
| Links.StationsNotEscaped | bot.py:126 | An origin containing `&to=` gives the same link as a destination containing it, so the link does not determine the stations. |
| Results.Numbered | bot.py:93-102 | One entry per train in order, numbered from the given start. Each entry shows all five fields verbatim, and has an availability line exactly when the availability is truthy. |
| Results.FormatEntries | bot.py:93-102 | There are exactly min(10, number of trains) entries. Entry k is numbered k+1 and describes the k-th train returned. |
| Results.FormatListing | bot.py:87-110 | The header shows the stored origin, destination and date. The entries are exactly min(10, number of trains), and entry k describes train k under number k+1. The link is the affiliate link for the same origin, destination and date. |
| Results.OnlyFirstTenMatter | bot.py:93 | Appending trains after the tenth does not change the reply. |
| Results.EntryFor | bot.py:94-100 | One train's entry shows the given number and all five fields verbatim, with an availability line exactly when the availability is truthy. |
| Results.EntriesAreDescriptions | bot.py:93-102 | Each shown entry is the entry built from the train at the same position. |
| Results.TwelveTrainsShowTen | bot.py:93 | With twelve trains, exactly ten entries are shown, numbered 1 to 10. |
| Dialogue.SearchDate | bot.py:50-114 | A bad date yields the format hint, stays at the date question and changes nothing. A good date is stored as the stripped text, the conversation ends, and the search runs with the stored stations and that text. The second reply is the no-trains message exactly when the search found nothing, and otherwise the listing. |
| Dialogue.Step | bot.py:170-181 | Each turn moves along an allowed edge and keeps the data the next handler reads. A search happens exactly when a text at the date question passes the check, and then uses the stored stations and the stripped text. The origin changes only at the origin question, the destination only at the destination question, and the date only with a search. |
| Dialogue.Run | bot.py:170-178 | Over any message sequence, consecutive states are joined by allowed edges. Every search uses a date that passed the check, and there is at most one search per message. |
| Dialogue.BadDateRetries | bot.py:58-63 | A rejected date keeps the state and data and makes no search. |
| Dialogue.EmptyResultEnds | bot.py:75-84 | An empty search result gives exactly the searching notice and the no-trains message, with no listing or link, and ends the conversation. |
| Dialogue.ResultsListed | bot.py:86-114 | A non-empty result gives the searching notice and then the listing for exactly the stored stations, the typed date and the returned trains. |
| Dialogue.StationsStoredStripped | bot.py:30-48 | The origin answer stores the stripped text under the origin key only and asks for the destination. The destination answer does the same for the destination key and asks for the date. |
| Dialogue.CancelEnds | bot.py:130-137 | Cancel ends any active conversation without searching and leaves the data as it was. |
| Dialogue.HelpChangesNothing | bot.py:139-155 | Help answers in every state and changes neither state nor data. |
| Dialogue.StartOnlyOutsideConversation | bot.py:18-28 | Start opens a conversation at the origin question only when none is running, and keeps the old data. Inside a conversation it is ignored. |
| Dialogue.StepFillsInOrder | bot.py:32-57 | No turn stores a destination without an origin, or a date without a destination. |
| Dialogue.RunUnfold | bot.py:170-178 | A run is its first turn followed by the run from where that turn left off. |
| Dialogue.GoodDateEnds | bot.py:50-114 | A good date at the date question makes the one search, with the stored stations and the stripped text, and ends the conversation. |
| Dialogue.DateLeg | bot.py:50-63 | Any number of rejected dates, then a good one, keep the conversation at the date question once per rejected date and then end it. Exactly one search is made, with the stored stations and the stripped good date. |
| Dialogue.DestinationLeg | bot.py:39-63 | A destination answer, rejected dates and a good date visit the destination question, the date question once per answer there, and the end. They make exactly one search, with the stored origin. |
| Dialogue.OriginLeg | bot.py:30-63 | Origin, destination, rejected dates and a good date make exactly one search, with the three stripped answers. |
| Dialogue.StraightThroughRetrying | bot.py:170-178 | Start, origin, destination, any number of rejected dates and a good date visit the states in order, looping only at the date question. They make exactly one search, with the three stripped answers, whatever data was stored before. |
| Dialogue.StraightThrough | bot.py:170-178 | Start, origin, destination and a good date visit the states in order and end. They make exactly one search, with the three stripped answers, whatever data was stored before. |
| Dialogue.CancelThenRestart | bot.py:177 | Cancelling at the destination question makes no search, and a later start opens a fresh conversation. |

## Left out

- The Telegram transport is not modelled: `Update`, `ContextTypes`, async sending, `run_polling`, reply keyboards and Markdown parse modes. The model covers one user in one chat.
- The conversation state is kept per chat and user, but the stored answers (`context.user_data`) are kept per user only. A user with conversations open in two chats shares one set of stored answers between them, so an origin given in one chat can end up in the other chat's search. The model has one chat, so its stored data and its state belong to the same conversation; `StraightThrough` does not hold across chats.
- The real search (`scraper.py`) is not part of this model. It is a function parameter from query to train list. A `None` result and an empty list are both modelled as the empty list, because `not trains` treats them alike. The real search may answer differently at different times, and a pure parameter does not capture that. Each turn calls it at most once, so a single turn's behaviour is covered.
- Bot startup is not modelled: `main`, the `BOT_TOKEN` lookup and logging.
- Reply texts are modelled as reply kinds that carry the values they show. Emoji, line breaks and Markdown are left out. The greeting carries the user's first name as part of the start message.
- Train records always have the five text fields. A record missing one, which would raise `KeyError`, is not modelled.
- Only ASCII digits are modelled. Python's `\d` also matches other Unicode decimal digits.
- Links.CompactDate: for years below 1000 the year is written without padding. That is one platform's `strftime("%Y")` output, and other platforms differ. No contract claims anything for those years.
- Links.LinkCarriesDate: requires a year of at least 1000 for the same reason.
