# KSW ICS scraper — a verified model of its core

The scraper reads the fixture page of a football league and keeps a calendar
file up to date for one team. It works in four steps:

1. It turns every match the page pattern finds into a fixture, with the
   team names whitespace-normalised.
2. It keeps the fixtures that mention the configured team (`TEAM_NAME`,
   compared case-insensitively). It de-duplicates them on the key
   `(home, away, date, time or "")`, keeping the first of each key.
3. It fingerprints the fixture list: the list is sorted on
   `(date, time or "", home, away)`, serialised and hashed.
4. When the fingerprint differs from the one stored in `STATE_FILE`, it
   builds one calendar event per fixture, writes the calendar to
   `OUTPUT_ICS`, and then writes the new fingerprint.

Each event is built as follows:

- Its name is the opponent followed by ` – DOM` (home) or ` – WYJAZD` (away).
- A fixture with a kick-off time becomes a timed event lasting
  `EVENT_DURATION_HOURS`. A fixture without one becomes an all-day event.
- Each event has one display alarm, at `ALARM_TIME` on the Monday of the
  match week.

When no fixture is found, the run writes a debug dump instead and stops.

All of this is in `scrape_to_ics.py`. The model has one module per concern:

- `Wrappers`: `Option` and `Result`.
- `Text`: `normalize_space` (`re.sub(r"\s+", " ", s).strip()`), with
  `" ".join(s.split())` as an independent definition it is proved equal
  to; and `lower` and `in` on strings, which the team filter uses.
- `Civil`: dates and wall-clock times as `datetime` handles them; `to_dt`
  and `monday_alarm_for`.
- `Fixtures`: `parse_fixture_rows` after the pattern matching (the team
  filter and the de-duplication loop), and `is_home`.
- `Events`: `build_ics`.
- `Fingerprint`: `compute_hash`, with the sort and `hexdigest()`.
- `Publisher`: the decision logic of `main`, with the working directory as
  the `Site` class whose methods rewrite the calendar and state files.

The loops of the source are methods proved against functions that state what
they compute:

- the filter and de-duplication loops: `Fixtures.FilterMatches` and
  `Fixtures.DedupFixtures`;
- the event loop: `Events.BuildIcs`;
- `main`: `Publisher.Site.PublishFixtures` and `Publisher.Site.Run`.

The properties are lemmas about those functions:

- normalisation is idempotent and equals `" ".join(s.split())`;
- the de-duplicated list keeps exactly the first fixture of every key;
- the fingerprint ignores the order of the fixtures;
- after an update, a second run (or a run on a reordered page) reports
  `NO_CHANGE`;
- a failing run writes nothing;
- the calendar is written before the state file.

## Model

| member | source | states |
|---|---|---|
| Text.IsSpaceBounds | scrape_to_ics.py:19 | no character that `\s` matches lies strictly between U+0020 and U+0085 |
| Text.TrimStart | scrape_to_ics.py:19 | `lstrip` returns a suffix of the input that does not start with whitespace; it is the input itself exactly when that does not start with whitespace |
| Text.TrimStartDropsSpace | scrape_to_ics.py:19 | everything `lstrip` removes is whitespace |
| Text.TrimEnd | scrape_to_ics.py:19 | `rstrip` returns a prefix of the input that does not end in whitespace, and the input itself when that does not |
| Text.TrimEndDropsSpace | scrape_to_ics.py:19 | everything `rstrip` removes is whitespace |
| Text.Strip | scrape_to_ics.py:19 | `strip()` returns an infix of the input with no whitespace at either end; it returns the input unchanged exactly when the input has none there |
| Text.StripDropsSpace | scrape_to_ics.py:19 | the input is its `strip()` result with only whitespace before and after it |
| Text.CollapseRuns | scrape_to_ics.py:19 | `re.sub(r"\s+", " ", s)`: each maximal whitespace run becomes one plain space, other characters stay in place; Text.CollapseRunsSpacing, Text.CollapseAsJoin and Text.CollapseRunsFixesNormal state its properties |
| Text.CollapseRunsSpacing | scrape_to_ics.py:19 | after `re.sub(r"\s+", " ", s)`, every whitespace character is a plain space and no two are adjacent; the result is empty only for an empty input and starts with whitespace exactly when the input does |
| Text.NormalizeSpace | scrape_to_ics.py:18-19 | `normalize_space(s)`: the run collapse followed by `strip()`. Its results are stated by Text.NormalizeSpaceIsNormal, Text.NormalizeSpaceIdempotent and Text.NormalizeSpaceJoinsWords |
| Text.NormalizeSpaceIsNormal | scrape_to_ics.py:18-19 | `normalize_space` yields a string trimmed at both ends whose only whitespace is single plain spaces |
| Text.InfixKeepsSpacing | scrape_to_ics.py:19 | stripping a collapsed string keeps it collapsed |
| Text.CollapseRunsFixesNormal | scrape_to_ics.py:19 | a string of single plain spaces is a fixed point of the run collapse |
| Text.NormalizeSpaceIdempotent | scrape_to_ics.py:18-19 | `normalize_space(normalize_space(s)) == normalize_space(s)` |
| Text.FirstWord | scrape_to_ics.py:19 | the first word is the longest prefix without whitespace, and is non-empty when the string starts with a non-space |
| Text.FirstWordNoSpace | scrape_to_ics.py:19 | the first word holds no whitespace |
| Text.WordsAreWords | scrape_to_ics.py:19 | every piece `split()` returns is non-empty and free of whitespace |
| Text.JoinWordsEdges | scrape_to_ics.py:19 | `" ".join` of words is empty only for no words and has no whitespace at its ends |
| Text.CollapseWordPrefix | scrape_to_ics.py:19 | a leading run of non-whitespace passes through the run collapse unchanged |
| Text.WordsSkipLeadingSpace | scrape_to_ics.py:19 | `split()` ignores leading whitespace |
| Text.WordsFirst | scrape_to_ics.py:19 | on a string starting with a word, `split()` returns that word first and then the words of the rest |
| Text.CollapseSpaceTail | scrape_to_ics.py:19 | a whitespace-only tail after a word collapses to one space, or to nothing when it is empty |
| Text.CollapseAsJoin | scrape_to_ics.py:19 | collapsing a string that does not start with whitespace gives its words joined by single spaces, plus one space for any trailing whitespace |
| Text.CollapseLeading | scrape_to_ics.py:19 | a leading whitespace run collapses to a single space in front of the rest |
| Text.StripPadded | scrape_to_ics.py:19 | stripping removes exactly one optional space on each side of a string without edge whitespace |
| Text.NormalizeSpaceJoinsWords | scrape_to_ics.py:18-19 | `normalize_space(s)` equals `" ".join(s.split())` for every string |
| Text.Lower | scrape_to_ics.py:43 | `s.lower()`, one character at a time, for the scripts listed under "Left out" |
| Text.Contains | scrape_to_ics.py:43 | Python's `needle in hay` on strings: the needle occurs at some offset of the hay; Fixtures.MentionsJoinedNames and Fixtures.HomeMentionsTeam use it |
| Text.LowerAppend | scrape_to_ics.py:43 | lowering two strings one by one and concatenating them is lowering their concatenation, so the lowered parts joined at line 43 are the lowered `home + " " + away` |
| Civil.DaysBeforeYearClosedForm | scrape_to_ics.py:58 | the count of days before year `y` equals Python's closed form `365p + p/4 - p/100 + p/400` with `p = y - 1` |
| Civil.Ordinal | scrape_to_ics.py:69 | `date.toordinal()`: the days before the year and the month, plus the day |
| Civil.Weekday | scrape_to_ics.py:69 | `date.weekday()` lies in 0..6, Monday being 0 |
| Civil.OrdinalPositive | scrape_to_ics.py:69 | every valid date has ordinal at least 1, and only 0001-01-01 has ordinal 1 |
| Civil.PrevDay | scrape_to_ics.py:69 | the previous day is a valid date whose ordinal is one less |
| Civil.SubDays | scrape_to_ics.py:69 | `d - timedelta(days=k)` is a valid date whose ordinal is `k` less |
| Civil.MondayOf | scrape_to_ics.py:69 | `d - timedelta(days=d.weekday())` is a Monday, `weekday()` days before `d`, so within the six days before it |
| Civil.DecimalShort | scrape_to_ics.py:60 | `int()` of one, two or four ASCII digits is their positional value |
| Civil.ParseDate | scrape_to_ics.py:58 | `strptime(s, "%d.%m.%Y")` yields only valid dates, and only from strings of the `dd.mm.yyyy` shape; Civil.ParseDateExactlyFormatted states which strings exactly |
| Civil.FindColon | scrape_to_ics.py:60 | finds the first `:` of the string, or reports that there is none |
| Civil.ParseClock | scrape_to_ics.py:60-61 | `map(int, s.split(":"))` and `datetime(...)` (also at lines 68-70) yield only valid clock times; Civil.ParseClockShape states that only two digit runs around a single colon parse, Civil.ParseClockFields which clock such a text names and when it is out of range, Civil.ParseClockExactlyFormatted and Civil.ParseClockFormatted the round trip |
| Civil.Decimal | scrape_to_ics.py:60 | `int(s)` of a string of decimal digits, read left to right in base 10 (also at line 68); Civil.DecimalShort, Civil.DecimalTwoDigits and Civil.DecimalFourDigits state its values |
| Civil.DecimalTwoDigits | scrape_to_ics.py:58 | a number below 100 written as two digits reads back as itself |
| Civil.DecimalFourDigits | scrape_to_ics.py:58 | a number below 10000 written as four digits reads back as itself |
| Civil.TwoDigitsOfDecimal | scrape_to_ics.py:58 | a two-digit string is the two-digit form of its own value |
| Civil.FourDigitsOfDecimal | scrape_to_ics.py:58 | a four-digit string is the four-digit form of its own value |
| Civil.ParseDateExactlyFormatted | scrape_to_ics.py:58 | `strptime(s, "%d.%m.%Y")` on the `dd.mm.yyyy` shape yields `d` exactly when `d` is a valid date and `s` is its `dd.mm.yyyy` form |
| Civil.FormattedDateParses | scrape_to_ics.py:58 | every valid date parses back from its `dd.mm.yyyy` form |
| Civil.ParsedDateIsFormatted | scrape_to_ics.py:58 | every string that parses is the `dd.mm.yyyy` form of the date it yields |
| Civil.ParseClockFormatted | scrape_to_ics.py:60 | every valid `HH:MM` clock reads back from its text |
| Civil.ParseClockShape | scrape_to_ics.py:60 | a text parses only when it is two non-empty digit runs around its one colon, and then names the clock of their values; `"9"`, `"09:00:00"` and `"a:00"`, on which the unpacking or `int()` raises, are rejected |
| Civil.ParseClockFields | scrape_to_ics.py:60-61 | two digit runs around a colon name the clock of their `int()` values, and the text parses exactly when that clock is valid, so an hour of 24 or more or a minute of 60 or more makes `datetime(...)` fail |
| Civil.ParseClockExactlyFormatted | scrape_to_ics.py:60-61 | an `HH:MM` text parses to a clock exactly when the clock is valid and the text is its zero-padded form |
| Civil.HasTime | scrape_to_ics.py:59 | the truthiness of the time string: false for None and for "" (also at lines 83 and 95); Civil.ToDt and Events.EventTiming state what each case yields |
| Civil.ToDt | scrape_to_ics.py:57-62 | `to_dt` succeeds exactly when the date parses and, when the time is truthy, the time parses. It yields a valid datetime on the parsed date, at the parsed time or at midnight when the time is `None` or empty. It reports `BadDate` exactly when the date does not parse |
| Civil.MondayAlarmFor | scrape_to_ics.py:67-70 | `monday_alarm_for` succeeds exactly when the alarm time parses. It yields a valid datetime on the Monday of the match week, at most six days before it, at the alarm time. Otherwise it reports `BadAlarmTime` |
| Civil.AlarmOffset | scrape_to_ics.py:94-97 | `alarm_dt - start_ref` in minutes is the alarm clock time less the start clock time, less one day per day after Monday. It is positive exactly for a Monday match starting before the alarm, and lies within (-7 days, 1 day) |
| Civil.WallMinutes | scrape_to_ics.py:97 | a datetime's position in minutes on the wall clock, so that `alarm_dt - start_ref` is a difference of two of them; Civil.AlarmOffset states its value |
| Fixtures.Firsts | scrape_to_ics.py:49-55 | the first-occurrence positions below `n` are all below `n` |
| Fixtures.KeyOf | scrape_to_ics.py:51 | the key `(home, away, date, time or "")`; Fixtures.DedupNoDuplicateKeys, Fixtures.DedupKeepsKeys and Fingerprint.SortKeyMatchesKey state its role |
| Fixtures.Normalize | scrape_to_ics.py:35-38 | the fixture of a match: both team names through `normalize_space`, date and time as matched; Fixtures.FilterTeamNormalized states the names are normalised |
| Fixtures.Mentions | scrape_to_ics.py:43 | the filter test `TEAM.lower() in home.lower() + " " + away.lower()` |
| Fixtures.MentionsJoinedNames | scrape_to_ics.py:43 | the filter test holds exactly when the lowered team name occurs in the lowered `home + " " + away` |
| Fixtures.IsHome | scrape_to_ics.py:64-65 | `is_home`: the lowered home name equals the lowered team name |
| Fixtures.FilterTeam | scrape_to_ics.py:33-45 | the normalised matches that mention the team, in page order; Fixtures.FilterTeamMembers states its members and Fixtures.FilterMatches is its loop |
| Fixtures.Dedup | scrape_to_ics.py:49-55 | the `seen`-set de-duplication; Fixtures.DedupKeepsFirsts states that it keeps the first fixture of every key in order, and Fixtures.DedupFixtures is its loop |
| Fixtures.ParseFixtureRows | scrape_to_ics.py:33-55 | the returned list is the de-duplication of the normalised matches that mention the team. Every fixture in it mentions the team, no two share a key, and it keeps every key of the filtered list |
| Fixtures.FilterMatches | scrape_to_ics.py:33-45 | the loop over the matches returns, in order, the normalised matches for which `TEAM.lower()` occurs in `home.lower() + " " + away.lower()` |
| Fixtures.DedupFixtures | scrape_to_ics.py:49-55 | the `seen`-set loop returns the de-duplicated list, with no repeated key and the same set of keys as its input |
| Fixtures.FilterTeamStep | scrape_to_ics.py:43-45 | one turn of the filter appends the normalised match exactly when it mentions the team |
| Fixtures.DedupStep | scrape_to_ics.py:50-54 | one turn of the de-duplication appends the fixture exactly when its key is not yet in `seen`, and adds the key to `seen` |
| Fixtures.ParsedFixtures | scrape_to_ics.py:21-55 | every returned fixture mentions the team and has normalised names; no key repeats; every key of the filtered list is kept |
| Fixtures.KeySetSnoc | scrape_to_ics.py:53 | `seen.add(key)` adds exactly the key of the appended fixture |
| Fixtures.KeySetMembers | scrape_to_ics.py:51-53 | a key is in `seen` exactly when some fixture so far has it |
| Fixtures.FilterTeamMembers | scrape_to_ics.py:35-45 | a fixture survives the filter exactly when it is the normalised form of some match and mentions the team |
| Fixtures.FilterTeamNormalized | scrape_to_ics.py:35-36 | every kept fixture has whitespace-normalised team names |
| Fixtures.DedupSubset | scrape_to_ics.py:49-55 | de-duplication only drops fixtures |
| Fixtures.DedupNoDuplicateKeys | scrape_to_ics.py:49-55 | no two fixtures of the result share the key `(home, away, date, time or "")` |
| Fixtures.DedupKeepsKeys | scrape_to_ics.py:49-55 | the result has exactly the keys of the input |
| Fixtures.FirstsAreFirsts | scrape_to_ics.py:49-55 | the recorded positions are increasing and are exactly the first occurrences of their keys |
| Fixtures.FirstsOfPrefix | scrape_to_ics.py:49-55 | which positions are first occurrences depends only on the prefix up to them |
| Fixtures.LastIsFirst | scrape_to_ics.py:52 | the last fixture is the first of its key exactly when its key is not among the earlier ones |
| Fixtures.DedupKeepsFirsts | scrape_to_ics.py:49-55 | the result is, in order, the first fixture of every key: first-seen order is preserved |
| Fixtures.NoDuplicatesDetermine | scrape_to_ics.py:51 | in a list without repeated keys, equal keys mean equal fixtures |
| Fixtures.MatchedTimesDetermine | scrape_to_ics.py:28 | when times are absent or non-empty, as the pattern's optional time group gives them, equal keys mean equal fixtures |
| Fixtures.DedupEmpty | scrape_to_ics.py:49-55 | de-duplication returns an empty list exactly for an empty input |
| Fixtures.DedupSameElements | scrape_to_ics.py:49-55 | when equal keys mean equal fixtures, de-duplication keeps every distinct fixture |
| Fixtures.DistinctCounts | scrape_to_ics.py:49-55 | a list without repeated keys holds each fixture at most once |
| Fixtures.DistinctPermutation | scrape_to_ics.py:49-55 | two such lists with the same fixtures are permutations of each other |
| Fixtures.HomeMentionsTeam | scrape_to_ics.py:64-65 | a fixture `is_home` accepts always passes the team filter |
| Events.Attempts | scrape_to_ics.py:74-75 | one build outcome per fixture |
| Events.Calendar | scrape_to_ics.py:72-101 | the result of `build_ics`: every fixture's event in order, or the error of the first fixture that fails; Events.CalendarEvents and Events.CalendarFirstError state this |
| Events.BuildEvent | scrape_to_ics.py:75-98 | the event of one fixture, or the error of `to_dt` or `monday_alarm_for`; Events.EventErrors, Events.EventTiming, Events.EventAlarm and Events.TitleNamesOpponent state its properties |
| Events.Title | scrape_to_ics.py:76-81 | `f"{opponent} – {place}"` |
| Events.Description | scrape_to_ics.py:90-91 | the ticket note for home matches and the travel note for the others |
| Events.BuildIcs | scrape_to_ics.py:72-101 | `build_ics` returns the events of all fixtures in order, or the error of the first fixture whose date, time or alarm time does not parse |
| Events.CollectStep | scrape_to_ics.py:74-100 | one turn of the event loop either stops with the fixture's error or appends its event |
| Events.CollectKeepsError | scrape_to_ics.py:75 | once a fixture fails, the whole build fails with that error |
| Events.CollectAllOk | scrape_to_ics.py:74-100 | the build succeeds exactly when every fixture builds, and then yields one event per fixture in order |
| Events.CollectFirstError | scrape_to_ics.py:74-100 | a failed build reports the error of a fixture all of whose predecessors built |
| Events.CalendarEvents | scrape_to_ics.py:72-101 | the calendar holds one event per fixture, in order, exactly when every fixture builds |
| Events.CalendarFirstError | scrape_to_ics.py:72-101 | a failing calendar reports the error of the first fixture that does not build |
| Events.TitleNamesOpponent | scrape_to_ics.py:76-91 | the name starts with the opponent and ends in ` – DOM` exactly for home matches and in ` – WYJAZD` exactly for the others; the description is the ticket note exactly for home matches |
| Events.EventTiming | scrape_to_ics.py:83-88 | an event is timed exactly when the fixture has a truthy time, starting at the parsed date and time and lasting the configured hours; otherwise it is all-day on the parsed date |
| Events.EventAlarm | scrape_to_ics.py:93-98 | a built event's date, alarm time and any start time all parse; it has exactly one alarm, whose trigger is the alarm time on the week's Monday minus the start (midnight for all-day events), computed in minutes |
| Events.EventReminder | scrape_to_ics.py:75-98 | every built event has one alarm, whose trigger is the minutes from the parsed start (midnight for all-day events) to the alarm time on the week's Monday |
| Events.EventTrigger | scrape_to_ics.py:75-98 | with the fixture's start and the Monday alarm parsed, the event's one alarm is their difference in wall-clock minutes |
| Events.EventErrors | scrape_to_ics.py:75-94 | building an event fails exactly when the fixture's date or time, or the alarm time, does not parse; a bad fixture is reported before a bad alarm time |
| Fingerprint.StrLeReflexive | scrape_to_ics.py:104-105 | string `<=` is reflexive |
| Fingerprint.StrLeTotal | scrape_to_ics.py:104-105 | string `<=` is total |
| Fingerprint.StrLeAntisymmetric | scrape_to_ics.py:104-105 | string `<=` is antisymmetric |
| Fingerprint.StrLeTransitive | scrape_to_ics.py:104-105 | string `<=` is transitive |
| Fingerprint.SortKeyOf | scrape_to_ics.py:105 | the sort key `(date, time or "", home, away)`; Fingerprint.SortKeyMatchesKey relates it to the de-duplication key |
| Fingerprint.KeyLe | scrape_to_ics.py:105 | Python's `<=` on the key tuples: the first differing component decides; the KeyLe lemmas state that it is a total order |
| Fingerprint.KeyLeReflexive | scrape_to_ics.py:105 | the tuple order on sort keys is reflexive |
| Fingerprint.KeyLeTotal | scrape_to_ics.py:105 | the tuple order on sort keys is total |
| Fingerprint.KeyLeAntisymmetric | scrape_to_ics.py:105 | the tuple order on sort keys is antisymmetric |
| Fingerprint.KeyLeTransitive | scrape_to_ics.py:105 | the tuple order on sort keys is transitive |
| Fingerprint.InsertPermutes | scrape_to_ics.py:104-105 | inserting a fixture adds exactly that fixture |
| Fingerprint.SortedCons | scrape_to_ics.py:104-105 | a fixture no greater than every element of a sorted list can go in front of it |
| Fingerprint.InsertSorted | scrape_to_ics.py:104-105 | inserting into a sorted list keeps it sorted |
| Fingerprint.Sort | scrape_to_ics.py:104-105 | `sorted(...)` as an insertion sort on the key; Fingerprint.SortPermutes and Fingerprint.SortSorts state what it returns |
| Fingerprint.SortPermutes | scrape_to_ics.py:104-105 | `sorted(...)` returns a permutation of the fixtures |
| Fingerprint.SortSorts | scrape_to_ics.py:104-105 | `sorted(...)` returns the fixtures ordered by `(date, time or "", home, away)` |
| Fingerprint.SortKeyMatchesKey | scrape_to_ics.py:104-105 | two fixtures have equal sort keys exactly when they have equal de-duplication keys |
| Fingerprint.SortedHeads | scrape_to_ics.py:104-105 | two sorted lists of the same fixtures start alike, when equal keys mean equal fixtures |
| Fingerprint.SortedUnique | scrape_to_ics.py:104-105 | two sorted lists of the same fixtures are equal, when equal keys mean equal fixtures |
| Fingerprint.Hex | scrape_to_ics.py:107 | `hexdigest()` has two characters per byte |
| Fingerprint.HexDigitsOnly | scrape_to_ics.py:107 | `hexdigest()` consists of lower-case hexadecimal digits only |
| Fingerprint.HexDigitInjective | scrape_to_ics.py:107 | different nibbles have different hexadecimal digits |
| Fingerprint.ByteOfNibbles | scrape_to_ics.py:107 | a byte is determined by its two hexadecimal digits |
| Fingerprint.HexInjective | scrape_to_ics.py:107 | different digests have different `hexdigest()` texts |
| Fingerprint.StripHex | scrape_to_ics.py:140 | `.strip()` leaves a `hexdigest()` text unchanged |
| Fingerprint.ComputeHash | scrape_to_ics.py:103-107 | `compute_hash`: `hexdigest()` of the digest of the sorted fixtures |
| Fingerprint.HashLength | scrape_to_ics.py:107 | the fingerprint is 64 hexadecimal digits long, so it is never the empty string that stands for a missing state file |
| Fingerprint.HashIgnoresOrder | scrape_to_ics.py:103-107 | the fingerprint is the same for every permutation of the fixtures, when equal keys mean equal fixtures |
| Fingerprint.HashDeterminesDigest | scrape_to_ics.py:103-107 | equal fingerprints mean equal digests of the sorted fixtures |
| Publisher.Site.constructor | scrape_to_ics.py:140 | a site starts with the given calendar and state files and no writes yet |
| Publisher.Site.Run | scrape_to_ics.py:127-151 | a run leaves the outcome and files that one step of `main` on the page's matches gives |
| Publisher.Site.PublishFixtures | scrape_to_ics.py:131-151 | from the parsed fixtures on, the outcome and the files are those of `main`'s decision: the debug dump, no change, an update writing the calendar and then the state, or an error writing nothing |
| Publisher.Stored | scrape_to_ics.py:140 | the stripped content of the state file, or "" while it is missing; Publisher.StoredHash and Publisher.FirstRunPublishes state its role |
| Publisher.Publish | scrape_to_ics.py:131-151 | `main` from the parsed fixtures on; Publisher.PublishCases states its decision table |
| Publisher.Step | scrape_to_ics.py:127-151 | one run of `main` from the page's matches: the parse followed by Publisher.Publish |
| Publisher.PublishCases | scrape_to_ics.py:131-151 | the outcome is `NoFixtures` exactly for no fixtures; `NoChange` exactly when the fingerprint equals the stripped stored one; `Updated` or `Failed` when it differs, as the calendar builds or not. It also gives the files each outcome leaves |
| Publisher.NothingParsed | scrape_to_ics.py:127-137 | a run finds nothing exactly when no match mentions the team; it then only writes the debug dump |
| Publisher.UpdateWritesCalendarThenState | scrape_to_ics.py:139-149 | a run updates exactly when it finds fixtures whose fingerprint differs from the stored one and all of them build. It then writes the calendar of all fixtures first and the new fingerprint second |
| Publisher.FailureWritesNothing | scrape_to_ics.py:142-157 | a failing run leaves both files untouched and reports the error of the first fixture that does not build |
| Publisher.FirstRunPublishes | scrape_to_ics.py:131-149 | with a missing or blank state file, a run never reports `NO_CHANGE`: it updates or fails exactly when it finds fixtures |
| Publisher.RepublishNoChange | scrape_to_ics.py:139-151 | publishing the same fixtures again after an update or a no-change run reports `NO_CHANGE` and writes nothing |
| Publisher.StoredHash | scrape_to_ics.py:140 | a state file holding a fingerprint reads back, stripped, as that fingerprint |
| Publisher.SecondRunNoChange | scrape_to_ics.py:127-151 | a second run on the same page after an update or a no-change run reports `NO_CHANGE` |
| Publisher.PermutedFixturesNoChange | scrape_to_ics.py:139-151 | after `UPDATED` or `NO_CHANGE`, publishing a permutation of the same fixtures reports `NO_CHANGE` |
| Publisher.SameMatchesSameFixtures | scrape_to_ics.py:33-55 | two pages with the same matches, in any order and repetition, give fixture lists that are permutations of each other |
| Publisher.ReorderedPageNoChange | scrape_to_ics.py:127-151 | after `UPDATED` or `NO_CHANGE`, a run on a page with the same matches in another order or repetition reports `NO_CHANGE` |

## Left out

- The download (`requests.get` with its headers and timeout) is not
  modelled. Nor is the page pattern of `parse_fixture_rows`
  (scrape_to_ics.py:24-30, 33, 37-38). The matches it finds are the input:
  a sequence of candidates with raw `home`/`away` groups, the `date` group
  and the optional `time` group.
- Printing, the match counter used only for debug output, and the content
  of `debug.html` (the first 5000 characters of the page) are not modelled.
  The model records only that the file is written.
- Reading settings from the environment is not modelled; the settings are
  the parameters `Config` and `team`.
- `TIMEZONE` and `dateutil` zones are not modelled. Every datetime of the
  scraper carries the same `tzinfo` object, and Python subtracts two such
  datetimes on the wall clock, ignoring their UTC offsets. So the alarm
  trigger, computed here on wall-clock minutes, is the program's own
  `alarm_dt - start_ref`, even across a DST change.
- `EVENT_DURATION_HOURS` is a Python `float`; the model uses a `real`,
  without binary floating point rounding.
- Text.LowerChar covers ASCII, Latin-1 and Latin Extended-A, the scripts
  the league's team names use. Other scripts, and U+0130 (which lowers to
  two code points), are left unchanged.
- Civil.ParseClock reads ASCII digits only. It rejects the non-ASCII
  decimal digits that `\d` in the page pattern matches and `int()` reads
  (Arabic-Indic digits, for example). It also rejects the signs,
  underscores and surrounding whitespace that `int()` accepts in
  `ALARM_TIME`.
- Civil.ParseDate reads ASCII digits only. It rejects the non-ASCII
  decimal digits that `\d` in the page pattern matches and `strptime`
  accepts, so `to_dt` of such a date is `BadDate` here where Python parses
  it. It also rejects the single-digit day and month fields `strptime`
  accepts, which the page pattern never yields.
- The JSON serialisation and SHA-256 of `compute_hash` are the parameter
  `digest`; only the sort before them and `hexdigest()` after them are
  modelled.
- The ics serialisation (`cal.serialize_iter()`) is the parameter
  `render`. The order in which `cal.events`, a set, yields the events and
  the event UIDs the library generates are not modelled; the model passes
  the events in fixture order.
- Exceptions other than a bad date or time are not modelled, and neither
  are the traceback and `exit(1)`. These include I/O errors while reading
  or writing files and a failing download. A date or time error is the
  `Failed` outcome, which writes nothing, as the exception does.
- Publisher.Site.PublishFixtures: a crash between writing `OUTPUT_ICS` and
  `STATE_FILE` is not modelled. Each run completes; the model records the
  order of the two writes.

Three facts about the code that the model keeps:

- Team names are not checked to be non-empty or different from each other.
- A fixture whose date or time does not parse is not dropped. It makes
  `to_dt` raise, and the whole run ends in the `ERROR` branch without
  writing.
- A missing time and an empty time share a de-duplication key, since the
  key uses `time or ""`.
