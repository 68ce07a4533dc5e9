# lgogwebui download daemon: a Dafny model

This project models the core of an early revision of lgogwebui: a web front end and a
daemon that drive the `lgogdownloader` command-line tool to download GOG games and keep
each game's download state in a SQLite table.

- `results.dfy` (module `Results`): `Option` and `Result`, for nullable columns, failed lookups and raised exceptions.
- `models.dfy` (module `Models`): the `Status` enumeration with its declared values 1 to 5. The `games` table is a class
  `Game` whose `state` and other columns are assigned in place. `Active` names the states with a download in
  progress (queued, running). The `Event` trace records what is observable outside the process: session commits, and
  calls to `Popen` with the downloader's argument vector (recorded whether or not `Popen` then raised). `QueryOne` models `Query.one()` on a name filter, including the two
  exceptions it raises.
- `daemon.dfy` (module `Daemon`): `download(session, game)` is the method `Download`, a retry loop of up to five attempts.
  Each attempt's outcome (an exit code, or an exception) is an input in place of `Popen`. The method is proved
  against the specification functions `LeadingFailures`, `AttemptsMade`, `FinalState` and `DownloadTrace`, and the
  retry policy is proved about those functions. One iteration of `main` is the method `Tick`: the update countdown and
  the dispatch of every queued or running game. `CountdownAfter` and `UpdateSchedule` describe the countdown over
  many iterations.
- `webui.dfy` (module `WebUi`): `library()` is the method `Library`. It writes a download flag into each catalogue entry
  in place. The `/download/<game>` route is the method `DownloadRoute`.

The front end compares the state column with the string literals `'queue'` and `'running'` and assigns `'queue'`.
The enumeration's members are `queued` and `running`. The model reads `'queue'` as `Queued` and `'running'` as `Running`.
The comparisons as written are modelled separately; see "## Findings".

This revision has five states (no `missing`, no `stop`). Its retry loop has no credentials check, no progress
parsing and no platform mask. The downloader's argument vector is exactly `lgogdownloader --download --game ^name$`.

## Model

| member | source | states |
|---|---|---|
| `Models.StatusValue` | models.py:16-21 | every member's value lies in 1..5 |
| `Models.StatusFromValue` | models.py:16-21 | `Status(v)` exists exactly for 1 <= v <= 5, and the member found has value v |
| `Models.StatusRoundTrip` | models.py:16-21 | looking up a member's value gives back that member |
| `Models.StatusMembers` | models.py:16-21 | there are exactly five members, new, queued, running, done and failed, with values 1 to 5 in that order |
| `Models.StatusValueInjective` | models.py:16-21 | distinct members have distinct values |
| `Models.Game.constructor` | models.py:23-31 | a row needs its id, its name (at most 250 characters) and its platform; progress and state start out NULL |
| `Models.QueryOne` | lgogwebui.py:31 | `one()` raises NoResultFound exactly when no row has the name and MultipleResultsFound exactly when two do; otherwise it returns the one row with that name |
| `Daemon.DownloadCommand` | lgogdaemon.py:37-42 | the argument vector is `lgogdownloader --download --game` and one pattern, from which `GameFromCommand` recovers the name |
| `Daemon.GameFromCommand` | lgogdaemon.py:37-42 | a recognised argument vector is exactly the prefix followed by `^name$` |
| `Daemon.DownloadCommandInjective` | lgogdaemon.py:37-42 | two different games never get the same command |
| `Daemon.LeadingFailures` | lgogdaemon.py:34-59 | the count of failed attempts before the first success: all earlier attempts failed and the next one, if any, succeeded |
| `Daemon.AttemptsMade` | lgogdaemon.py:31-59 | between one and five attempts are made; every attempt but the last failed, and the last succeeded unless five were made |
| `Daemon.FinalState` | lgogdaemon.py:60-63 | the final state is failed exactly when all five attempts failed and done exactly when one succeeded |
| `Daemon.DownloadTraceShape` | lgogdaemon.py:30-64 | running is committed before the first attempt; there are one to five calls to `Popen`, all with this game's command; the last commit is a final state other than running |
| `Daemon.StopsAtFirstSuccess` | lgogdaemon.py:50-56 | when attempt i is the first with exit code 0, exactly i + 1 attempts are made and the game ends done |
| `Daemon.AllFailedIsFailed` | lgogdaemon.py:57-61 | five failed attempts use up the budget and the game ends failed |
| `Daemon.FailureKindIrrelevant` | lgogdaemon.py:50-59 | a non-zero exit code and a raised exception each count as one failed attempt: exchanging one for the other changes nothing the download does |
| `Daemon.LeadingFailuresSameSuccesses` | lgogdaemon.py:50-59 | only which attempts succeed decides how many failures precede the first success |
| `Daemon.Download` | lgogdaemon.py:30-64 | marks the game running and commits, then calls `Popen` once per attempt of `AttemptsMade`, then commits `FinalState`; name, platform and progress are unchanged, so the row stays valid |
| `Daemon.DownloadAsWritten` | lgogdaemon.py:30-64 | as written, every attempt raises NameError before `Popen`: its trace is `DownloadTraceAsWritten`, and the game always ends failed |
| `Daemon.DownloadTraceAsWritten` | lgogdaemon.py:43-64 | the as-written download only commits, never calls `Popen`, and its last commit is failed |
| `Daemon.NameErrorDiscrepancy` | lgogdaemon.py:43-57 | when the first attempt would succeed, the intended download calls `Popen` once and ends done, and its trace differs from the as-written trace |
| `Daemon.NextCountdown` | lgogdaemon.py:19-28 | after an iteration the countdown is in [0, 720); it is decremented, and from 0 it is reset to 720 first, giving 719 |
| `Daemon.CountdownAfter` | lgogdaemon.py:17-28 | starting from 720, the countdown stays within [0, 720] for ever |
| `Daemon.CountdownClosedForm` | lgogdaemon.py:17-28 | after n >= 1 iterations the countdown is 719 - (n - 1) mod 720 |
| `Daemon.UpdateSchedule` | lgogdaemon.py:17-28 | `update()` runs at the start of iteration n + 1 exactly when n is a positive multiple of 720 |
| `Daemon.TickTraceDispatched` | lgogdaemon.py:22-26 | in one iteration every commit is for a queued or running game, and every such game is committed as running |
| `Daemon.Tick` | lgogdaemon.py:18-28 | `update()` runs exactly when the countdown is 0; every queued or running game ends in its `FinalState`; every other game keeps its state; no name, platform or progress changes, so every row stays valid |
| `WebUi.ColumnValue` | lgogwebui.py:20-23 | a state read back from the column is NULL or an enum member, never a string |
| `WebUi.FlagAsWritten` | lgogwebui.py:19-26 | as written, the flag is 1 when the directory exists and -1 otherwise, whatever the state |
| `WebUi.RouteGuardAsWritten` | lgogwebui.py:32 | as written, the guard holds for every state, running included |
| `WebUi.DownloadFlag` | lgogwebui.py:19-26 | the flag is always -1, 0 or 1 |
| `WebUi.DownloadFlagMeaning` | lgogwebui.py:19-26 | flag 0 exactly for queued or running, whether or not the directory exists; otherwise 1 exactly when the directory exists and -1 exactly when it does not |
| `WebUi.FlagDiscrepancy` | lgogwebui.py:21-24 | a queued game whose directory exists gets flag 1 as written and 0 as intended |
| `WebUi.RouteGuardDiscrepancy` | lgogwebui.py:32 | a running game passes the guard as written but not the intended one |
| `WebUi.EntryFlag` | lgogwebui.py:20-26 | an entry's flag is in {-1, 0, 1}, and there is none exactly when its lookup raises |
| `WebUi.Library` | lgogwebui.py:13-27 | with no data the page is an error message. Otherwise every entry gets its flag, in order and in place. If a lookup raises, the entries before it are flagged, it holds -1 and the rest are untouched |
| `WebUi.DownloadRoute` | lgogwebui.py:30-35 | a lookup error changes nothing. A running game is left unchanged with no commit. Any other game is set to queued with one commit. Only that record's state changes |

## Left out

- Launching the downloader (`Popen`, `communicate`, return codes): each attempt's outcome is an input.
- Daemon.Download: `communicate()` is called without a timeout (lgogdaemon.py:45; `TimeoutExpired` is imported but unused), so an attempt that never returns leaves the game `running` and blocks the daemon's loop: no later game of that iteration is dispatched and `update()` never runs again. The model assumes every attempt ends with an outcome, so `Download` and `Daemon.Tick` promise a final state only for attempts that return.
- Daemon.Download: one outcome per possible attempt (five) is required as input; outcomes after the loop stops are not used.
- The SQLAlchemy engine, session and query mechanics: rows are objects in memory, and a commit is an `Event` in the returned trace.
  A commit writes every changed row; the model records only the row the operation changed.
- Daemon.Tick: requires distinct primary keys among the rows, as the table guarantees, and five attempt outcomes per row.
- The infinite `while True` loop of `main`, `time.sleep`, table creation and all logging: one iteration is modelled.
  `CountdownAfter` describes the countdown over any number of iterations.
- `update()`: an empty stub; `Tick` reports only whether it ran.
- Flask routing, `render_template`, `redirect`, reading `gamedetails.json` and `os.path.isdir`.
  The catalogue is an input array, null when the file's JSON value is `null`; a missing, empty or malformed file raises while loading, which is not modelled. The library directories are an input set of names.
- A catalogue without a `games` key, or an entry without `gamename`: the resulting KeyError is not modelled.
- `library()` queries `Game.state`, so `one()` returns a row tuple rather than the state. As written, that tuple fails both string comparisons too.
- `DownloadRoute` as written assigns the string `'queue'`, which is not a `Status` member. What the ORM does with it at commit is not modelled; the model writes `Queued`.
- Models.Game.constructor: requires the name to fit the declared length of 250, although SQLite does not enforce it.
- static/js/lgogwebui.js (front-end polling), main.py (logging configuration) and config.py (paths and constants, unused by the core) are not part of this model.
- Interleaving of the two processes: the daemon runs downloads one after another, but the web front end is a separate process writing the same `games` rows. The route can run between a download's two commits (lgogdaemon.py:33 and :64), which is the case its `running` guard exists for. The model treats `Download` and `DownloadRoute` as atomic and never interleaves them.
- A `Spawn` event records each call to `Popen`, also when `Popen` itself raised (for example when `lgogdownloader` is not on the path); the model does not tell such a call apart from one that started the downloader.

## Findings

| source | as written | input that shows it | evidently intended | confidence | as-written member | corrected member |
|---|---|---|---|---|---|---|
| lgogdaemon.py:43 | `logger.debug(...)`, but no `logger` is defined; only `logging` is imported, so each attempt raises NameError before `Popen` and the bare except swallows it | any queued game whose download would succeed: five NameErrors, no call to `Popen`, state failed | `logging.debug(...)`, so the downloader runs and a zero exit code ends the game done | high (not executed) | `Daemon.DownloadAsWritten`, `Daemon.NameErrorDiscrepancy` | `Daemon.Download` |
| lgogwebui.py:21-23 | `state == 'queue'` and `state == 'running'` compare an enum member (or a row) with a string, which is never equal | a queued game whose directory exists: flag 1 | compare with `Status.queued` and `Status.running`, so active games get flag 0 | high (not executed) | `WebUi.FlagAsWritten`, `WebUi.FlagDiscrepancy` | `WebUi.DownloadFlag` |
| lgogwebui.py:32 | `db_game.state != 'running'` compares an enum member with a string, so it holds for every state | a running game: it is set back to queued | compare with `Status.running`, so a running game is left alone | high (not executed) | `WebUi.RouteGuardAsWritten`, `WebUi.RouteGuardDiscrepancy` | `WebUi.DownloadRoute` |
