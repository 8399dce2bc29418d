# Football matches digest — a Dafny model

The notifier script fetches the day's fixtures from football-data.org, turns each
match into one display line, keeps the first five, and posts a Telegram message.
This project models the digest builder at its centre:

- `format_matches`: for each match record it reads the home team, away team,
  competition and `utcDate`; converts the kickoff from UTC to Africa/Lagos
  (West Africa Time, a fixed UTC+1) and renders it as `HH:MM`; builds
  `"{home} vs {away} ({competition}) at {HH:MM} NG"`; and returns the first five
  lines. A missing key, or a timestamp `fromisoformat` rejects, ends the whole call.
  This happens even past the fifth record, because every record is formatted
  before the slice.
- The message assembly in `main`: the header `"*Today's Top Football Matches* \n\n"`
  followed by the lines joined with newlines, or `"No top matches today."` when
  nothing was fetched.
- The decision in `get_today_matches` once a response is in hand: no matches
  unless the status is 200, and an absent `matches` key reads as none.

Files:

- `wrappers.dfy`: `Option` (a missing key) and `Result` (an exception ends the call).
- `kickoff.dfy` (module `KickoffTime`): times of day, the +60-minute shift to
  Africa/Lagos, the `%H:%M` rendering, and a parser that inverts it.
- `text.dfy` (module `Text`): Python's `str.join`, `str.split` and `str.count`,
  with the round trip `Split(Join(parts)) == parts` for a non-empty list of
  parts that do not contain the separator.
- `football_matches.dfy` (module `FootballMatches`): records, per-record
  formatting, and `FormatAll`/`FormatTop` as the reference definition of the
  formatting pass. It also holds the method `FormatMatches`, the loop of
  `format_matches` proved against that definition, and the message assembly.

The script substitutes no defaults, skips no record and numbers no lines. A
missing key or a rejected timestamp fails the whole call. The kickoff is a
24-hour `HH:MM` followed by " NG".

## Model

| member | source | states |
|---|---|---|
| `KickoffTime.LagosIsOneHourAhead` | football_matches.py:44-46 | Converting a UTC time of day to Africa/Lagos (+60 minutes, modulo a day) gives hour `(h + 1) mod 24` and leaves the minutes unchanged |
| `KickoffTime.TwoDigits` | football_matches.py:46 | A number below 100 becomes exactly two decimal digits whose value is that number (zero padding of `%H`/`%M`) |
| `KickoffTime.Render` | football_matches.py:46 | `%H:%M` is five characters: two digits spelling the hour, ":", and two digits spelling the minute |
| `KickoffTime.RenderThenParse` | football_matches.py:46 | Parsing a rendered time gives back that time |
| `KickoffTime.ParseThenRender` | football_matches.py:46 | Every string the parser accepts is the rendering of what it parses to, so `%H:%M` is one-to-one onto well-formed `HH:MM` strings |
| `KickoffTime.Kickoff` | football_matches.py:44-46 | The kickoff text is five characters with no newline, and parses as the UTC hour plus one (mod 24) with the UTC minutes |
| `KickoffTime.LateKickoffWraps` | football_matches.py:44-46 | A 23:30 UTC kickoff is shown as "00:30"; the date is dropped |
| `Text.SplitJoin` | football_matches.py:75 | Splitting newline-joined, newline-free lines on the newline gives back exactly those lines, in order |
| `Text.JoinSeparatorCount` | football_matches.py:75 | Joining n newline-free lines puts exactly n - 1 newlines in the text |
| `FootballMatches.FormatMatch` | football_matches.py:37-48 | A record formats iff it has all four keys and a parseable timestamp. Otherwise the error names the first missing key in read order (home, away, competition, utcDate), or is the ISO-format error. A success is exactly `home + " vs " + away + " (" + competition + ") at " + kickoff + " NG"` |
| `FootballMatches.LineShowsLagosKickoff` | football_matches.py:44-48 | Every line ends in " NG", and the five characters before that parse as the UTC kickoff moved one hour on |
| `FootballMatches.LineIsSingleLine` | football_matches.py:48 | A line holds no newline unless one of its names does |
| `FootballMatches.FormatAllOk` | football_matches.py:36-51 | When every record formats, the pass yields exactly those lines in input order |
| `FootballMatches.FormatAllFirstError` | football_matches.py:36-42 | The pass fails with the error of the first record that fails; nothing is skipped or defaulted |
| `FootballMatches.FormatAllLines` | football_matches.py:36-51 | A successful pass has one line per record, and line i is built from record i |
| `FootballMatches.FormatAllSucceeds` | football_matches.py:36-51 | The pass succeeds iff every record is complete |
| `FootballMatches.IncompleteRecordFailsCall` | football_matches.py:36-53 | An incomplete record at any position, including past the fifth, makes `format_matches` fail |
| `FootballMatches.FormatMatches` | football_matches.py:31-53 | The loop appending to `top_matches`, then the slice, equals the reference pass truncated to five lines. It succeeds iff all records are complete. On success it returns `min(5, n)` lines, and line i is the formatting of record i |
| `FootballMatches.ComposeMessage` | football_matches.py:74-77 | No matches gives exactly "No top matches today.". Otherwise the message exists iff every record is complete, and it starts with the fixed header |
| `FootballMatches.MessageBodyLines` | football_matches.py:75 | After the header, the message splits on newlines into exactly `min(5, n)` lines, line i built from record i, with `min(5, n) - 1` newlines (names of the first `min(5, n)` records without newlines) |
| `FootballMatches.FailedFetchSendsSentinel` | football_matches.py:22-29 | A non-200 response, an absent `matches` key or an empty list leads to the sentinel message, never an error |

## Left out

- HTTP: the GET of fixtures and the POST to Telegram are network I/O. The response enters the model as a value (`Response`: status and optional `matches`), and the message is the model's result. What is sent and Telegram's Markdown rendering are not modelled.
- `response.json()` failing on a body that is not JSON is not modelled.
- Reading the wall clock for "today" (`datetime.now`) is nondeterministic and only feeds the request URL, so it is left out.
- `datetime.fromisoformat` and pytz are foreign library code. `utcDate` enters as an already-split UTC time of day (`Timestamp.Iso`), or as `Unparseable` for a string `fromisoformat` rejects. Seconds and the date are dropped, as `%H:%M` drops them. Only the `Z` suffix the provider sends is modelled; a timestamp with another offset is not.
- Values of the wrong JSON type (a `null` name that the f-string would render as "None", or a `null` team object that would raise `TypeError`) are not modelled. A name is a string or absent.
- `print` logging is left out.
- `API_TOKEN`, `BOT_TOKEN` and `CHAT_ID` are never defined in the file, and the model leaves them out.
- FootballMatches.MessageBodyLines: the exact line count after the header is stated only when the first `min(5, n)` records have names without newlines. A newline inside a team or competition name would split one record across several lines.
- `MissingKey(field)` names the lookup that failed, not the payload of Python's `KeyError`. That payload is only the missing key (`'homeTeam'`, `'utcDate'`, or `'name'` for any of the three nested names), so Python tells the three `name` lookups apart only through the traceback line.
