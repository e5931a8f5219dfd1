# Authenticator refresh engine, modelled in Dafny

This project models the core of a command-line authenticator (`src/lib.js`).
The authenticator shows live time-based one-time codes for a set of stored
accounts. The modelled core does four things:

- `generate2FACode` reads its arguments flexibly: a function in the interval
  position is the callback, and the interval then defaults to 30. It runs the
  callback once, straight away, with a freshly derived code. Only then does it
  register a recurring cron job with the pattern `*/<interval> * * * * *`.
- `updateTotp` starts one such job per account. Each job has its own closure,
  which writes the account's display label (`issuer(name)` or `name`) and its
  current code into that account object, in place.
- `getTimeout` computes the seconds left in the current window from the
  clock's seconds-of-minute.
- The two entry points: `run` starts every account and renders a table row per
  account on each display tick. `getByService` keeps the accounts with a given
  name, refreshes them and reports the first one. Both fail when there is
  nothing to show.

The code-derivation library is the uninterpreted function
`derive(secret, counter)`. It is a constant of the `Scheduler`, and the time
counter it reads is a parameter. The clock's seconds-of-minute is also a
parameter (`Second`, 0 to 59). Each firing of a registered job is an explicit
`Fire` step.

Files:

- `wrappers.dfy`: `Option`, `Result` and `Outcome`.
- `countdown.dfy`: `GetTimeout` and the least-next-boundary property.
- `cron.dfy`: how the pattern string is built, split into fields and read back.
- `accounts.dfy`: the `Account` class, the label, and the name filter and
  first-match selection.
- `engine.dfy`: argument shifting, the `Scheduler` class (`GenerateCode`,
  `Fire`, `UpdateTotp`, `Run`, `GetByService`), one display `Tick`, and three
  client scenarios.

The state that the source updates in place is modelled as a class.
`Account.totp` and `Account.nameWithIssuer` are mutable fields. The account's
name, issuer and secret are `const`. The collection is an `array<Account>`,
and `array?` stands for a store result that may be absent. The scheduler keeps
the registered jobs as a `seq<Job>`. It also keeps a ghost record of events,
which shows that each callback ran before its job was registered. Each job's
callback is the datatype value `UpdateAccount(account)`: the per-iteration
closure, which captures that account alone.

What the source does that a reader might not expect:

- The label is recomputed on every firing (`src/lib.js:50`), not set once when
  the job starts.
- The derivation never receives the interval (`src/lib.js:23`, `26`).
- There is no stop operation and no handling of a failed derivation
  (`src/lib.js:17-29`).
- `run` with an empty collection throws (`src/lib.js:80`); it is not a silent
  no-op.

## Model

| member | source | states |
|---|---|---|
| `Countdown.GetTimeout` | src/lib.js:37-41 | the countdown lies in [1, interval]; it equals the full interval exactly when the seconds sit on a boundary, so it is never 0 |
| `Countdown.NextBoundary` | src/lib.js:40 | seconds + countdown is a boundary (a multiple of the interval), and no boundary lies strictly between the seconds and it: it is the least boundary after the seconds |
| `Countdown.DefaultWindow` | src/lib.js:37 | with the default interval 30, used at both call sites, the countdown is in [1, 30] and is 30 exactly at seconds 0 and 30 |
| `Cron.ParseDecimalOfDecimal` | src/lib.js:25 | the decimal rendering of the interval in the pattern reads back as the same number |
| `Cron.PatternFields` | src/lib.js:25 | the pattern has six space-separated fields: the first is the `*/` step and the other five are `*` |
| `Cron.PatternOfInterval` | src/lib.js:25 | the pattern built for interval n has six fields, constrains only the seconds field, and reads back as a step of n |
| `Engine.ShiftArgs` | src/lib.js:18-21 | a function in the interval position becomes the callback and the interval becomes 30; otherwise the third argument must be callable, or the call fails; the effective interval is never a function |
| `Engine.Show` | src/lib.js:25 | the interpolated interval renders as `undefined`, or as the safe integer (at most 2^53 - 1 in absolute value) in decimal with a leading `-` when negative, and never holds a space |
| `Engine.EffectiveSchedule` | src/lib.js:18-25 | after shifting, the registered pattern has six fields, and its seconds field reads back as a step of 30 when the callback came in the interval position, and as a step of n for a given non-negative safe-integer interval n |
| `Engine.DefaultPatternEvery30` | src/lib.js:20-25 | every refresh job's pattern is the string `*/30 * * * * *`: six fields, a 30-second step on the seconds field |
| `Accounts.Label` | src/lib.js:50 | the label is the bare name exactly when there is no truthy issuer; otherwise it is the issuer, `(`, the name and `)`, in that order |
| `Accounts.Account.Publish` | src/lib.js:50-51 | the callback body sets the account's label from its own name and issuer and sets its code to the given one |
| `Engine.Scheduler.GenerateCode` | src/lib.js:17-29 | with a callable callback: runs it once with derive(secret) on its own account, then registers exactly one job with the shifted interval's pattern, the same secret and the same callback, in that order; with none: fails and registers nothing |
| `Engine.Scheduler.Fire` | src/lib.js:25-28 | a firing writes a freshly derived code and the label into the job's own account only; every other account keeps its code and label, and the jobs are unchanged |
| `Engine.Scheduler.StartAccount` | src/lib.js:48-52 | one iteration of updateTotp leaves that account current (derive of its own secret, its own label) and appends exactly one job on the default pattern bound to that account, after its callback ran |
| `Engine.Scheduler.StartAt` | src/lib.js:48-52 | the i-th iteration of updateTotp writes only account i: the accounts before it stay current, account i becomes current, and exactly its job and its two events are appended |
| `Engine.JobsForAt` | src/lib.js:48-49 | the i-th job that updateTotp registers belongs to the i-th account: the default pattern, that account's secret and a callback bound to that account |
| `Engine.Scheduler.UpdateTotp` | src/lib.js:47-54 | afterwards every account holds derive of its own secret and its own label; one job per account is appended in array order; the array keeps its length and order |
| `Engine.Scheduler.Run` | src/lib.js:60-81 | an absent or empty collection fails with NoAccountFound and schedules nothing; otherwise every account is started as by UpdateTotp |
| `Engine.Tick` | src/lib.js:67-78 | a display tick yields exactly one row per account, in array order: the account's label, its code and the default countdown at that row's own clock reading, which lies in [1, 30] |
| `Accounts.FilterByName` | src/lib.js:91 | the filter keeps exactly the accounts whose name equals the requested one and is no longer than its input |
| `Accounts.FilterByNameAppend` | src/lib.js:91 | filtering distributes over concatenation, so the kept accounts stay in their original relative order |
| `Accounts.FilterByNameFirst` | src/lib.js:91-97 | the first kept account is the one at the lowest index with the requested name |
| `Accounts.SelectFirst` | src/lib.js:91-99 | the selection is empty exactly when no account has the name; otherwise it is the account with that name at the lowest index |
| `Engine.Scheduler.StartMatches` | src/lib.js:91-93 | the filtered copy holds exactly the accounts named `app`, in order; afterwards each of them is current, no account of another name changes, and one job per match is appended in order |
| `Engine.Scheduler.GetByService` | src/lib.js:90-102 | no collection fails; no match fails with NoAccountFound and registers nothing; otherwise every matching account is refreshed, no other account changes, one job per match is appended in order, and the output is the first match's code, or its label, code and countdown |

## Left out

- The code derivation itself: the HMAC, the dynamic truncation and the time counter of the one-time-password library. `derive` is an uninterpreted total function, and its counter is a parameter that is not tied to the cron interval. The source never passes the interval to the library.
- The cron library's firing semantics and timers. A firing is the explicit `Fire` step. A step of n in the seconds field fires at the seconds-of-minute that are multiples of n, which is every n seconds only when n divides 60; the model states the pattern, not the firing times. The model does not claim that `GetTimeout` matches the cron firing times; for intervals that do not divide 60 it does not.
- Clock reads: the seconds-of-minute and the derivation counter are parameters.
- The 1000 ms `setInterval` display loop, table rendering, logging, console output and `process.exit`. `Run` only starts the jobs; each display tick is a separate `Tick` call. The jobs that `GetByService` registers stay in `jobs`, because the process exit that ends them is not modelled.
- The password-gated account store: its result is an input array, and `null` stands for a missing collection.
- The two error strings differ by a typo. Both are the single error `NoAccountFound`. A non-callable callback is `CallbackNotAFunction`. Calling `filter` on a missing collection is `AccountsUnavailable`.
- Countdown.GetTimeout: requires a positive interval. JavaScript gives NaN for 0 and a differently signed result for a negative interval; every call site uses the default 30.
- Engine.ShiftArgs: argument values are limited to undefined, the refresh callback and integers of at most 2^53 - 1 in absolute value (`SafeInt`), which a template literal writes as their exact digits. Other JavaScript values (strings, fractional numbers, other functions, larger numbers that render rounded or as `1e+21`) are not modelled.
- Concurrency between timer callbacks: each firing is one atomic step. A single-threaded event loop gives the same result.
- Engine.Scheduler.GetByService: does not state the ghost event record, which `UpdateTotp` states for the accounts it starts.
- Engine.Scheduler.UpdateTotp, Engine.Scheduler.Run, Engine.Scheduler.GetByService: one clock reading (`counter`, and `seconds` for the query's countdown) stands for the whole synchronous loop. The source reads the clock once per account (`src/lib.js:23`), so a loop that crosses a step boundary could leave earlier and later accounts on adjacent counters.
