# DotnetRateLimiter.Redis, modelled in Dafny

This project models the admission logic of DotnetRateLimiter.Redis, a distributed
rate limiter whose state lives in Redis. A limiter owns one Redis key. Each call
runs one Lua script atomically on that key, and the C# side turns the script's
reply into a `RateLimitResponse` (`ActiveCount`, `IsSuccessful`). There are three
algorithms:

- **Fixed window** (`FixedWindowLimiter`): an integer counter that `INCRBY`
  increments. It is gated by `rate - before - inc >= 0` when only successes are
  recorded. The key gets its expiry on the first increment of a window.
- **Sliding window** (`SlidingWindowLimiter`): a sorted set of requests scored by
  their tick. Each call does these steps in order:
  - evicts the expired scores;
  - counts what is left;
  - adds `inc` members named `score-index`, with `index` continuing after the
    members already at that score;
  - refreshes the expiry.
- **Token bucket** (`TokenBucketLimiter`): a JSON document
  `{NextRefillTicks, TokenCount}`. It is refilled lazily when its refill time has
  come, clamped to `[0, capacity]`, drawn on, and written back on every call.

Each algorithm also has a self-healing step, run once when the limiter is built. It
deletes the key if it holds something the algorithm cannot use.

The generic engine (`Engine`) builds the limiter as follows:
- it registers the script's `ARGV[i]` slots in the dictionaries and the order list;
- it collapses the script's white space;
- it checks the settings;
- it repairs the key.

It then serves `Limit`, `Delete` and `Count`. `Limit` checks `count`, assembles the
positional arguments into an array, runs the script and parses the reply.

The lease adapter (`LeaseAdapter`) exposes an inner limiter as a .NET
`RateLimiter`. It has these parts:
- zero-permit probes;
- leases counted as successful or failed;
- waiters that poll the inner limiter from a queue until they succeed or are
  cancelled;
- a one-way `Dispose` that cancels every queued waiter.

## Model structure

- `wrappers.dfy`: `Option` and `Result`.
- `decimal.dfy`: the decimal text of integers. It covers `long.ToString()`, Lua's
  `tonumber`, Redis' canonical integers and .NET's 64-bit parse.
- `redis_store.dfy`: the keyspace (`Db`) and the commands the scripts issue, as
  functions on the value under one key (`Slot`). The commands are `GET`, `INCRBY`,
  `EXPIRE`/`EXPIREAT`, `ZREMRANGEBYSCORE`, `ZCARD`, `ZCOUNT` and `ZADD`.
- `parameters.dfy`: these pieces of the generic engine:
  - the settings and the argument checks;
  - the `Parameter` slots and their names;
  - the layouts each algorithm registers;
  - the argument values sent and how a script reads them back;
  - the reply-to-count parse and the white-space collapse of the script text.
- `fixed_window.dfy`, `sliding_window.dfy`, `token_bucket.dfy`: for each algorithm,
  these parts:
  - the self-healing step;
  - the script as a transition `Script(slot, args, mode) -> Outcome(slot', reply)`;
  - an imperative `RunScript` that follows the Lua statements and is proved equal
    to `Script`;
  - the reply parsing and `Count`;
  - lemmas about single calls and about runs of calls.
- `engine.dfy`: the `Limiter` class, its construction (`Create`), and `Limit`,
  `Delete` and `Count` against a `Server` holding the database.
- `lease_adapter.dfy`: the `RedisRateLimiter` lease adapter as a class over an
  inner limiter whose responses are given in advance.

## Model

| member | source | states |
|---|---|---|
| Decimal.NatToString | DotnetRateLimiter.Redis/Redis/Internal/RateLimiting/RateLimiter.cs:155 | the decimal text of a natural number is non-empty and all digits; it starts with '0' exactly for 0; it has one digit exactly below 10 |
| Decimal.IntToString | DotnetRateLimiter.Redis/Redis/Internal/RateLimiting/RateLimiter.cs:155 | `ToString()` of an integer is all digits for a non-negative value, and '-' followed by digits for a negative one |
| Decimal.NatToStringValue | DotnetRateLimiter.Redis/Redis/Internal/RateLimiting/RateLimiter.cs:155 | the digits written for `n` have the value `n` |
| Decimal.ParseIntToString | DotnetRateLimiter.Redis/Redis/Internal/RateLimiting/FixedWindowRateLimiter.cs:65 | Lua's `tonumber` reads back what `ToString()` wrote, and that text is a canonical Redis integer |
| Decimal.IntToStringInjective | DotnetRateLimiter.Redis/Redis/Internal/RateLimiting/RateLimiter.cs:155 | different integers have different decimal texts |
| Decimal.ParseLong | DotnetRateLimiter.Redis/Redis/Internal/RateLimiting/RateLimiter.cs:181-189 | a successful 64-bit parse yields a value within the `long` range |
| Decimal.ParseLongOfIntToString | DotnetRateLimiter.Redis/Redis/Internal/RateLimiting/RateLimiter.cs:181-189 | the client parses any in-range integer's text back to that integer |
| RedisStore.Put | DotnetRateLimiter.Redis/Redis/Internal/RateLimiting/RateLimiter.cs:38 | a script's write to KEYS[1] sets that key's slot and leaves every other key unchanged |
| RedisStore.SetExpiry | DotnetRateLimiter.Redis/Redis/Internal/RateLimiting/FixedWindowRateLimiter.cs:75-77 | EXPIRE/EXPIREAT on an existing key keeps its value and records the expiry, except that EXPIRE with a time that is not positive deletes the key; a missing key stays missing |
| RedisStore.Expire | DotnetRateLimiter.Redis/Redis/Internal/RateLimiting/FixedWindowRateLimiter.cs:75-77 | EXPIRE/EXPIREAT fails exactly when its argument is not an integer, with the not-an-integer error, and otherwise acts as `SetExpiry` |
| RedisStore.Get | DotnetRateLimiter.Redis/Redis/Internal/RateLimiting/FixedWindowRateLimiter.cs:82 | GET fails exactly on a key that is not of string type, and returns nil exactly on a missing key |
| RedisStore.IncrBy | DotnetRateLimiter.Redis/Redis/Internal/RateLimiting/FixedWindowRateLimiter.cs:65 | a successful INCRBY stores the new value as canonical decimal text and keeps the key's expiry |
| RedisStore.RemoveScoreRange | DotnetRateLimiter.Redis/Redis/Internal/RateLimiting/SlidingWindowRateLimiter.cs:90 | a member survives exactly when its score is outside `[min, max]`, with its score unchanged |
| RedisStore.ZRemRangeByScore | DotnetRateLimiter.Redis/Redis/Internal/RateLimiting/SlidingWindowRateLimiter.cs:90 | ZREMRANGEBYSCORE never leaves an empty sorted set behind |
| RedisStore.ZAddAll | DotnetRateLimiter.Redis/Redis/Internal/RateLimiting/SlidingWindowRateLimiter.cs:73 | ZADD's reply counts exactly the members the set gained; no existing member is lost |
| RedisStore.ZAdd | DotnetRateLimiter.Redis/Redis/Internal/RateLimiting/SlidingWindowRateLimiter.cs:73 | a successful ZADD leaves a non-empty sorted set under the key |
| Parameters.NowTicks | DotnetRateLimiter.Redis/Redis/Internal/RateLimiting/RateLimiter.cs:157-161 | `Now` is the provider's ticks when a provider is set, and `UtcNow` otherwise |
| Parameters.TotalSecondsText | DotnetRateLimiter.Redis/Redis/Internal/RateLimiting/RateLimiter.cs:162-166 | `TotalSeconds.ToString()` of an interval is the integer text of its seconds when it is a whole number of seconds, and text with a decimal point otherwise |
| Parameters.TotalSecondsTextReadsBack | DotnetRateLimiter.Redis/Redis/Internal/RateLimiting/FixedWindowRateLimiter.cs:77 | `tonumber` of the interval-seconds text is an integer exactly when the interval is a whole number of seconds, and then it is that number |
| Parameters.CheckKeyArgument | DotnetRateLimiter.Redis/Redis/Internal/RateLimiting/RateLimiter.cs:74-80 | a key is rejected exactly when it is null or empty |
| Parameters.CheckCountArgument | DotnetRateLimiter.Redis/Redis/Internal/RateLimiting/RateLimiter.cs:82-88 | a count is rejected exactly when it is not positive |
| Parameters.CheckArguments | DotnetRateLimiter.Redis/Redis/Internal/RateLimiting/FixedWindowRateLimiter.cs:138-145 | the settings pass exactly when the key is set, the interval provider is set, and rate (or capacity) is positive; the key is checked first, then the interval |
| Parameters.ParameterName | DotnetRateLimiter.Redis/Redis/Internal/RateLimiting/RateLimiter.cs:176-179 | a slot name has the shape `ARGV[...]` |
| Parameters.SlotIndexOfParameterName | DotnetRateLimiter.Redis/Redis/Internal/RateLimiting/RateLimiter.cs:176-179 | the name given to index `i` reads back as Lua's 1-based `ARGV` index `i + 1` |
| Parameters.ParameterNameInjective | DotnetRateLimiter.Redis/Redis/Internal/RateLimiting/RateLimiter.cs:176-179 | different indices get different slot names |
| Parameters.BaseLayout | DotnetRateLimiter.Redis/Redis/Internal/RateLimiting/RateLimiter.cs:94-124 | the base registrations are four distinct parameters named `ARGV[1]`..`ARGV[4]` by position, all with a null default, none of them Rate or Expiration |
| Parameters.LookupOfAt | DotnetRateLimiter.Redis/Redis/Internal/RateLimiting/RateLimiter.cs:103-121 | after the registrations, each parameter's entry in the name dictionary and in the default-value dictionary is the one it was registered with |
| Parameters.LayoutWellFormed | DotnetRateLimiter.Redis/Redis/Internal/RateLimiting/FixedWindowRateLimiter.cs:107-125 | each algorithm's layout extends the base layout, has distinct parameters, names slot `i` `ARGV[i+1]`, and has 6 slots (5 for a window without an expiration provider) |
| Parameters.SlidingLayoutAsWrittenSharesName | DotnetRateLimiter.Redis/Redis/Internal/RateLimiting/SlidingWindowRateLimiter.cs:118-136 | as written, the sliding window with an expiration provider names both Rate and Expiration `ARGV[5]`, so its names are not positional |
| Parameters.ParameterValue | DotnetRateLimiter.Redis/Redis/Internal/RateLimiting/RateLimiter.cs:151-174 | a value is computed for every parameter except Rate and RefillRate, and except Expiration when there is no expiration provider |
| Parameters.SentValue | DotnetRateLimiter.Redis/Redis/Internal/RateLimiting/RateLimiter.cs:137-145 | a parameter with no computed value is sent as its registered default |
| Parameters.OrderedValues | DotnetRateLimiter.Redis/Redis/Internal/RateLimiting/RateLimiter.cs:126-149 | the argument list has one value per registered slot, in registration order, each the computed value or else the default |
| Parameters.ArgNumberReadsBack | DotnetRateLimiter.Redis/Redis/Internal/RateLimiting/FixedWindowRateLimiter.cs:65-77 | with positional names, a script reading `tonumber(ARGV[...])` through the name dictionary gets the number that was sent for that parameter |
| Parameters.WindowArgNumbers | DotnetRateLimiter.Redis/Redis/Internal/RateLimiting/FixedWindowRateLimiter.cs:107-136 | a window script reads the interval ticks, now, the count, the rate and (when set) the expiration that the client meant to send, and reads the interval seconds as an integer exactly when the interval is whole seconds |
| Parameters.WindowArgsRoundTrip | DotnetRateLimiter.Redis/Redis/Internal/RateLimiting/FixedWindowRateLimiter.cs:107-136 | binding a window script's arguments from the registered layout recovers exactly the intended arguments |
| Parameters.BucketArgsRoundTrip | DotnetRateLimiter.Redis/Redis/Internal/RateLimiting/TokenBucketRateLimiter.cs:129-144 | binding the bucket script's arguments recovers capacity (`ARGV[5]`), refill rate (`ARGV[6]`), now, span and count as intended |
| Parameters.SlidingAsWrittenReadsRateAsExpiration | DotnetRateLimiter.Redis/Redis/Internal/RateLimiting/SlidingWindowRateLimiter.cs:118-136 | as written, the sliding window's EXPIREAT reads the rate instead of the expiration instant |
| Parameters.WindowExpiry | DotnetRateLimiter.Redis/Redis/Internal/RateLimiting/FixedWindowRateLimiter.cs:75-77 | the expiry is EXPIREAT(expiration) with an expiration provider, and otherwise EXPIRE(interval seconds), which is refused exactly when those seconds are not an integer |
| Parameters.RedisValueToLong | DotnetRateLimiter.Redis/Redis/Internal/RateLimiting/RateLimiter.cs:181-189 | a null value counts as 0, a string is parsed as a 64-bit integer, and a result is always within the `long` range |
| Parameters.ParseLongRejectsJson | DotnetRateLimiter.Redis/Redis/Internal/RateLimiting/TokenBucketRateLimiter.cs:48-53 | text starting with '{' never parses as a count |
| Parameters.StringCount | DotnetRateLimiter.Redis/Redis/Internal/RateLimiting/FixedWindowRateLimiter.cs:49-54 | `Count` fails exactly on a non-string key, is 0 on a missing key, parses a plain string, and is null on a bucket document |
| Parameters.SkipWhitespace | DotnetRateLimiter.Redis/Redis/Internal/RateLimiting/RateLimiter.cs:26 | skipping a run yields a suffix that does not start with white space |
| Parameters.CollapseWhitespace | DotnetRateLimiter.Redis/Redis/Internal/RateLimiting/RateLimiter.cs:26 | the collapsed text is empty exactly when the input is, and starts with a space where the input starts with white space |
| Parameters.CollapseHasNoRuns | DotnetRateLimiter.Redis/Redis/Internal/RateLimiting/RateLimiter.cs:26 | after the collapse, no two white-space characters are adjacent and every white-space character is a space |
| Parameters.CollapseFixesNormalText | DotnetRateLimiter.Redis/Redis/Internal/RateLimiting/RateLimiter.cs:26 | text without runs and with only spaces as white space is left unchanged |
| Parameters.CollapseIdempotent | DotnetRateLimiter.Redis/Redis/Internal/RateLimiting/RateLimiter.cs:26 | collapsing twice gives the same text as collapsing once |
| Parameters.CollapseKeepsNonWhitespace | DotnetRateLimiter.Redis/Redis/Internal/RateLimiting/RateLimiter.cs:26 | the collapse keeps every non-white-space character, in order |
| FixedWindowLimiter.InitialSetup | DotnetRateLimiter.Redis/Redis/Internal/RateLimiting/FixedWindowRateLimiter.cs:18-47 | the key is deleted exactly when it exists and is not of string type or holds a non-empty string starting with '{'; otherwise it is unchanged |
| FixedWindowLimiter.InitialSetupIdempotent | DotnetRateLimiter.Redis/Redis/Internal/RateLimiting/FixedWindowRateLimiter.cs:18-47 | running the self-healing step twice is the same as running it once |
| FixedWindowLimiter.ScriptErrorKeepsOnlyIncrement | DotnetRateLimiter.Redis/Redis/Internal/RateLimiting/FixedWindowRateLimiter.cs:64-90 | a script that fails has written nothing, unless its EXPIRE refused non-integer seconds, and then the INCRBY made before it stays |
| FixedWindowLimiter.RunScript | DotnetRateLimiter.Redis/Redis/Internal/RateLimiting/FixedWindowRateLimiter.cs:62-91 | the statement-by-statement script (GET, gated INCRBY, expire on the first increment) has the outcome of the transition `Script` |
| FixedWindowLimiter.Response | DotnetRateLimiter.Redis/Redis/Internal/RateLimiting/FixedWindowRateLimiter.cs:93-105 | the response succeeds exactly when something was added, and reports the counter after the call |
| FixedWindowLimiter.GetOnCounter | DotnetRateLimiter.Redis/Redis/Internal/RateLimiting/FixedWindowRateLimiter.cs:65-82 | on a counter, GET reads its value and INCRBY adds to it and keeps the expiry |
| FixedWindowLimiter.ScriptOnCounter | DotnetRateLimiter.Redis/Redis/Internal/RateLimiting/FixedWindowRateLimiter.cs:64-90 | on a counter `c`, a refused call replies `(0, 0)` and leaves the key alone; an admitted call raises it to `c + inc` and replies `(inc, c + inc)`; on the first increment (`c` = 0) a non-integer EXPIRE fails after the increment, a non-positive one deletes the key, and otherwise the window's expiry is set; later increments keep the expiry |
| FixedWindowLimiter.ResponseOnCounter | DotnetRateLimiter.Redis/Redis/Internal/RateLimiting/FixedWindowRateLimiter.cs:68-105 | a call fails exactly on an admitted first increment with non-integer seconds; otherwise it reports `(c + inc, success)` when admitted and `(0, failure)` when refused |
| FixedWindowLimiter.GatedCounterWithinRate | DotnetRateLimiter.Redis/Redis/Internal/RateLimiting/FixedWindowRateLimiter.cs:68-73 | in gated mode a counter at or below the rate stays at or below the rate, whether or not the script fails |
| FixedWindowLimiter.InitialSetupKeepsCounter | DotnetRateLimiter.Redis/Redis/Internal/RateLimiting/FixedWindowRateLimiter.cs:18-47 | the self-healing step never deletes a counter |
| FixedWindowLimiter.CountReadsCounter | DotnetRateLimiter.Redis/Redis/Internal/RateLimiting/FixedWindowRateLimiter.cs:49-54 | `Count` of a counter within the `long` range is its value |
| FixedWindowLimiter.GatedUnitCalls | DotnetRateLimiter.Redis.Tests/RateLimiting/FixedWindowRateLimiterTest.cs:87-90 | `n` gated unit calls on a missing key, with an expiry Redis records: call `i` succeeds with count `i + 1` while `i < rate`, and later calls fail with count 0; the counter ends at `min(n, rate)` |
| FixedWindowLimiter.UngatedUnitCalls | DotnetRateLimiter.Redis.Tests/RateLimiting/FixedWindowRateLimiterTest.cs:106-110 | `n` ungated unit calls, with an expiry Redis records, all succeed, call `i` reporting `i + 1`, and leave the counter at `n` |
| FixedWindowLimiter.NonPositiveIntervalNeverLimits | DotnetRateLimiter.Redis/Redis/Internal/RateLimiting/FixedWindowRateLimiter.cs:75-77 | with an interval of zero seconds or less every first increment deletes the counter, so `n` unit calls all succeed reporting 1 and the key ends missing |
| FixedWindowLimiter.FractionalIntervalNeverExpires | DotnetRateLimiter.Redis/Redis/Internal/RateLimiting/RateLimiter.cs:162-166 | with non-integer interval seconds the window's first call fails after its increment, leaving a counter without expiry, and the next admitted call succeeds and still sets none |
| SlidingWindowLimiter.InitialSetup | DotnetRateLimiter.Redis/Redis/Internal/RateLimiting/SlidingWindowRateLimiter.cs:18-36 | the key is deleted exactly when it exists and is not a sorted set |
| SlidingWindowLimiter.InitialSetupIdempotent | DotnetRateLimiter.Redis/Redis/Internal/RateLimiting/SlidingWindowRateLimiter.cs:18-36 | running the self-healing step twice is the same as running it once |
| SlidingWindowLimiter.MemberNameInjective | DotnetRateLimiter.Redis/Redis/Internal/RateLimiting/SlidingWindowRateLimiter.cs:69 | member names `score-index` with non-negative index never collide for different (score, index) |
| SlidingWindowLimiter.NameRangeSize | DotnetRateLimiter.Redis/Redis/Internal/RateLimiting/SlidingWindowRateLimiter.cs:65-71 | the names for indices `lo..hi` at one score are `hi - lo + 1` distinct members |
| SlidingWindowLimiter.Items | DotnetRateLimiter.Redis/Redis/Internal/RateLimiting/SlidingWindowRateLimiter.cs:60-71 | the ZADD arguments are `count` pairs (none for a count that is not positive) |
| SlidingWindowLimiter.ItemsAt | DotnetRateLimiter.Redis/Redis/Internal/RateLimiting/SlidingWindowRateLimiter.cs:60-71 | the `j`-th ZADD pair is the score and the member `score-(existing + j + 1)` |
| SlidingWindowLimiter.ZAddArguments | DotnetRateLimiter.Redis/Redis/Internal/RateLimiting/SlidingWindowRateLimiter.cs:60-71 | the `for` loop with its running index builds exactly `Items` |
| SlidingWindowLimiter.RunScript | DotnetRateLimiter.Redis/Redis/Internal/RateLimiting/SlidingWindowRateLimiter.cs:58-97 | the statement-by-statement script (ZREMRANGEBYSCORE, ZCARD, gated ZCOUNT/ZADD, expire) has the outcome of the transition `Script` |
| SlidingWindowLimiter.ScriptErrorKeepsEarlierWrites | DotnetRateLimiter.Redis/Redis/Internal/RateLimiting/SlidingWindowRateLimiter.cs:86-96 | with a positive count a failed script either hit a key of another type and wrote nothing, or had its EXPIRE refuse non-integer seconds after the eviction and the ZADD |
| SlidingWindowLimiter.Response | DotnetRateLimiter.Redis/Redis/Internal/RateLimiting/SlidingWindowRateLimiter.cs:99-116 | the response succeeds exactly when something was added, reporting `active + count` then and `active` otherwise |
| SlidingWindowLimiter.Count | DotnetRateLimiter.Redis/Redis/Internal/RateLimiting/SlidingWindowRateLimiter.cs:38-46 | `Count` is null on a missing key, the set's size on a sorted set, and an error on any other type |
| SlidingWindowLimiter.RemoveScoreRangeIndexed | DotnetRateLimiter.Redis/Redis/Internal/RateLimiting/SlidingWindowRateLimiter.cs:90 | eviction removes whole scores, so the members left at each score are still `s-1..s-k` |
| SlidingWindowLimiter.EvictedIndexed | DotnetRateLimiter.Redis/Redis/Internal/RateLimiting/SlidingWindowRateLimiter.cs:90-91 | eviction keeps the naming invariant and never grows the set |
| SlidingWindowLimiter.FreshMembersKeys | DotnetRateLimiter.Redis/Redis/Internal/RateLimiting/SlidingWindowRateLimiter.cs:65-71 | the members a call adds are exactly the names `score-(k+1)..score-(k+c)`, all scored `score` |
| SlidingWindowLimiter.ZAddAllFresh | DotnetRateLimiter.Redis/Redis/Internal/RateLimiting/SlidingWindowRateLimiter.cs:60-73 | when the new names are not in the set, ZADD adds all `c` of them and reports `c` |
| SlidingWindowLimiter.IndexedNamesPastCountAreFresh | DotnetRateLimiter.Redis/Redis/Internal/RateLimiting/SlidingWindowRateLimiter.cs:61-71 | under the naming invariant, names past the count already at the score are not yet members |
| SlidingWindowLimiter.MembersAtAfterFresh | DotnetRateLimiter.Redis/Redis/Internal/RateLimiting/SlidingWindowRateLimiter.cs:60-73 | adding the new names changes only the members at the call's score, by exactly those names |
| SlidingWindowLimiter.ZAddIndexed | DotnetRateLimiter.Redis/Redis/Internal/RateLimiting/SlidingWindowRateLimiter.cs:60-73 | under the naming invariant ZADD adds exactly `inc` new members, and the invariant still holds afterwards |
| SlidingWindowLimiter.NameRangeJoin | DotnetRateLimiter.Redis/Redis/Internal/RateLimiting/SlidingWindowRateLimiter.cs:65-71 | the names `1..k` and `k+1..k+c` at one score together are the names `1..k+c` |
| SlidingWindowLimiter.ScriptOnIndexed | DotnetRateLimiter.Redis/Redis/Internal/RateLimiting/SlidingWindowRateLimiter.cs:75-96 | on an indexed set, the script fails exactly when the interval seconds are not an integer, and otherwise replies with the size after eviction as `active`; an admitted call adds exactly `inc` fresh members and a refused one adds none, even when EXPIRE fails; the naming invariant is kept; a non-positive EXPIRE deletes the set, and otherwise the window's expiry is set |
| SlidingWindowLimiter.GatedCardWithinRate | DotnetRateLimiter.Redis/Redis/Internal/RateLimiting/SlidingWindowRateLimiter.cs:75-80 | in gated mode a set at or below the rate stays at or below the rate, whether or not the script fails |
| SlidingWindowLimiter.ResponseOnIndexed | DotnetRateLimiter.Redis/Redis/Internal/RateLimiting/SlidingWindowRateLimiter.cs:99-116 | a call fails exactly when the interval seconds are not an integer; otherwise it reports `(active + inc, success)` when admitted and `(active, failure)` when refused |
| SlidingWindowLimiter.NoEvictionAtNow | DotnetRateLimiter.Redis/Redis/Internal/RateLimiting/SlidingWindowRateLimiter.cs:90 | with a positive interval, members scored at the current tick are never evicted |
| SlidingWindowLimiter.ScriptKeepsAllAt | DotnetRateLimiter.Redis/Redis/Internal/RateLimiting/SlidingWindowRateLimiter.cs:60-93 | calls at one instant keep every member scored at that instant |
| SlidingWindowLimiter.UnitCallAtNow | DotnetRateLimiter.Redis/Redis/Internal/RateLimiting/SlidingWindowRateLimiter.cs:75-96 | a unit call at the instant of every member, with an expiry Redis records, succeeds, keeps the set indexed and at that instant, and grows it by one exactly when admitted |
| SlidingWindowLimiter.UnitStep | DotnetRateLimiter.Redis/Redis/Internal/RateLimiting/SlidingWindowRateLimiter.cs:75-96 | after `k` admitted unit calls at one instant, with an expiry Redis records, the next call adds member `now-(k+1)` and replies `(1, k)` when admitted, and leaves the set as it was replying `(0, k)` when refused |
| SlidingWindowLimiter.UnitRun | DotnetRateLimiter.Redis/Redis/Internal/RateLimiting/SlidingWindowRateLimiter.cs:75-116 | `n` unit calls at one instant on a missing key end with the members `now-1..now-c`, `c` the number admitted, and the responses `UnitResponses` lists |
| SlidingWindowLimiter.UnitSlotShape | DotnetRateLimiter.Redis/Redis/Internal/RateLimiting/SlidingWindowRateLimiter.cs:60-73 | the set left by `k` admitted unit calls satisfies the naming invariant, is scored at one instant, and holds `k` members |
| SlidingWindowLimiter.GatedUnitCalls | DotnetRateLimiter.Redis.Tests/RateLimiting/SlidingWindowRateLimiterTest.cs:100-102 | `n` gated unit calls at one instant, with an expiry Redis records: call `i` succeeds with count `i + 1` while `i < rate` and then fails reporting `rate`; the set ends with `min(n, rate)` members |
| SlidingWindowLimiter.UngatedUnitCalls | DotnetRateLimiter.Redis.Tests/RateLimiting/SlidingWindowRateLimiterTest.cs:119-123 | `n` ungated unit calls at one instant, with an expiry Redis records, all succeed, call `i` reporting `i + 1`, and leave `n` members |
| SlidingWindowLimiter.NonPositiveIntervalNeverLimits | DotnetRateLimiter.Redis/Redis/Internal/RateLimiting/SlidingWindowRateLimiter.cs:93 | with an interval of zero seconds or less EXPIRE deletes the set at the end of every call, so `n` unit calls all succeed reporting 1 and the key ends missing |
| SlidingWindowLimiter.FractionalIntervalFailsEveryCall | DotnetRateLimiter.Redis/Redis/Internal/RateLimiting/RateLimiter.cs:162-166 | with non-integer interval seconds every call fails, yet an admitted call's members stay in the set |
| TokenBucketLimiter.InitialSetup | DotnetRateLimiter.Redis/Redis/Internal/RateLimiting/TokenBucketRateLimiter.cs:17-46 | the key is deleted exactly when it exists and is not of string type or holds a non-empty string not starting with '{' |
| TokenBucketLimiter.InitialSetupIdempotent | DotnetRateLimiter.Redis/Redis/Internal/RateLimiting/TokenBucketRateLimiter.cs:17-46 | running the self-healing step twice is the same as running it once |
| TokenBucketLimiter.SetupComplementsFixedWindow | DotnetRateLimiter.Redis/Redis/Internal/RateLimiting/TokenBucketRateLimiter.cs:33-41 | on a non-empty string, the bucket deletes the key exactly when the fixed window keeps it |
| TokenBucketLimiter.InitialDoc | DotnetRateLimiter.Redis/Redis/Internal/RateLimiting/TokenBucketRateLimiter.cs:71-73 | a missing bucket starts with its refill at `now + span` and with 0 tokens (empty on start) or `capacity` tokens |
| TokenBucketLimiter.ReadDoc | DotnetRateLimiter.Redis/Redis/Internal/RateLimiting/TokenBucketRateLimiter.cs:75-84 | the document read is the initial one for a missing key and the stored one for a document; any other string fails to decode, and any other type fails GET |
| TokenBucketLimiter.Refill | DotnetRateLimiter.Redis/Redis/Internal/RateLimiting/TokenBucketRateLimiter.cs:86-93 | a refill that is not due changes nothing; a due one with a positive span moves the refill time strictly later and to at least `now`; with a non-negative rate a due one adds at least `refillRate` tokens; a due refill with a zero span has no value |
| TokenBucketLimiter.RefillOutsideGuards | DotnetRateLimiter.Redis/Redis/Internal/RateLimiting/TokenBucketRateLimiter.cs:86-93 | the inputs the settings checks let through: a due refill over a negative span moves the refill time one span earlier and earns exactly `refillRate`; with a negative rate a due refill earns at most `refillRate`, a loss |
| TokenBucketLimiter.Clamp | DotnetRateLimiter.Redis/Redis/Internal/RateLimiting/TokenBucketRateLimiter.cs:95-96 | the clamped token count is within `[0, capacity]`, and is exactly `tokens + min(capacity, refill)` when that is in range |
| TokenBucketLimiter.Take | DotnetRateLimiter.Redis/Redis/Internal/RateLimiting/TokenBucketRateLimiter.cs:98-102 | a draw succeeds exactly when `inc <= tokens`, then removes exactly `inc` tokens, and otherwise leaves the tokens unchanged |
| TokenBucketLimiter.RunScript | DotnetRateLimiter.Redis/Redis/Internal/RateLimiting/TokenBucketRateLimiter.cs:61-114 | the statement-by-statement script, reassigning `nextRefillTicks` and `tokensAvailable`, has the outcome of the transition `Script` |
| TokenBucketLimiter.Truncate | DotnetRateLimiter.Redis/Redis/Internal/RateLimiting/TokenBucketRateLimiter.cs:123 | Lua's number-to-integer reply rounds toward zero |
| TokenBucketLimiter.Response | DotnetRateLimiter.Redis/Redis/Internal/RateLimiting/TokenBucketRateLimiter.cs:116-127 | the response carries the script's success flag, and its count is the tokens left rounded toward zero: the floor for a non-negative count |
| TokenBucketLimiter.ScriptErrors | DotnetRateLimiter.Redis/Redis/Internal/RateLimiting/TokenBucketRateLimiter.cs:75-109 | the script fails with WrongType exactly on a non-string key, with a decode error exactly on a non-document string, and with an encode error exactly on a due refill with a zero span; a failed script writes nothing |
| TokenBucketLimiter.ScriptOnDoc | DotnetRateLimiter.Redis/Redis/Internal/RateLimiting/TokenBucketRateLimiter.cs:83-113 | when the script succeeds it stores the refilled and drawn document without an expiry; the call succeeds exactly when `inc` fits the clamped tokens, which are within `[0, capacity]` |
| TokenBucketLimiter.TokensWithinCapacity | DotnetRateLimiter.Redis/Redis/Internal/RateLimiting/TokenBucketRateLimiter.cs:95-109 | after any successful call the stored and reported tokens are within `[0, capacity]` |
| TokenBucketLimiter.DueRefillFillsBucket | DotnetRateLimiter.Redis/Redis/Internal/RateLimiting/TokenBucketRateLimiter.cs:88-96 | a due refill whose rate is at least the capacity fills the bucket |
| TokenBucketLimiter.NotDueKeepsDoc | DotnetRateLimiter.Redis/Redis/Internal/RateLimiting/TokenBucketRateLimiter.cs:86-96 | before the refill time the refill time and the in-range tokens are unchanged |
| TokenBucketLimiter.CountOfBucketIsNull | DotnetRateLimiter.Redis/Redis/Internal/RateLimiting/TokenBucketRateLimiter.cs:48-53 | after any successful call, the bucket's `Count` is null, because its JSON text is not a number |
| TokenBucketLimiter.UnitCallNotDue | DotnetRateLimiter.Redis/Redis/Internal/RateLimiting/TokenBucketRateLimiter.cs:88-113 | before the refill time a unit call takes one token if there is one and reports the tokens left |
| TokenBucketLimiter.FullBucketUnitCalls | DotnetRateLimiter.Redis.Tests/RateLimiting/TokenBucketRateLimiterTest.cs:26-29 | `n` unit calls at one instant on a missing full-start bucket: call `i` succeeds reporting `capacity - i - 1` while `i < capacity`, and later calls fail reporting 0 |
| TokenBucketLimiter.FirstCallReadsFullBucket | DotnetRateLimiter.Redis/Redis/Internal/RateLimiting/TokenBucketRateLimiter.cs:71-81 | with a positive span, a call on a missing key behaves as on the initial document |
| Engine.Server.constructor | DotnetRateLimiter.Redis/Redis/Internal/RateLimiting/RateLimiter.cs:13 | the server holds the given database |
| Engine.Setup | DotnetRateLimiter.Redis/Redis/Internal/RateLimiting/RateLimiter.cs:90 | each algorithm's self-healing step either keeps the key or deletes it |
| Engine.Transition | DotnetRateLimiter.Redis/Redis/Internal/RateLimiting/RateLimiter.cs:32-41 | a valid `Limit` call that fails reports the script's error, and leaves the key as it was unless a window's EXPIRE refused non-integer interval seconds after the script had written |
| Engine.CountOf | DotnetRateLimiter.Redis/Redis/Internal/RateLimiting/SlidingWindowRateLimiter.cs:38-46 | the count of a missing key is null for the sliding window and 0 for the string-based limiters |
| Engine.RegistrationAppends | DotnetRateLimiter.Redis/Redis/Internal/RateLimiting/RateLimiter.cs:103-106 | registering a new parameter adds its name and default to the dictionaries and appends it to the order, keeping the parameters distinct |
| Engine.Limiter.constructor | DotnetRateLimiter.Redis/Redis/Internal/RateLimiting/RateLimiter.cs:21-26 | construction registers the algorithm's layout and stores the script text with its white space collapsed |
| Engine.Limiter.Register | DotnetRateLimiter.Redis/Redis/Internal/RateLimiting/RateLimiter.cs:103-106 | one registration extends the name dictionary, the default dictionary and the order list by the new parameter |
| Engine.Limiter.SetBaseParameters | DotnetRateLimiter.Redis/Redis/Internal/RateLimiting/RateLimiter.cs:94-124 | the base registrations leave the four base slots, return 4, and register none of Rate, RefillRate and Expiration |
| Parameters.BaseLookupOmits | DotnetRateLimiter.Redis/Redis/Internal/RateLimiting/RateLimiter.cs:94-124 | the base name dictionary has no entry for Rate, RefillRate or Expiration, so the overrides' `Add` calls cannot throw |
| Engine.Limiter.SetParameters | DotnetRateLimiter.Redis/Redis/Internal/RateLimiting/RateLimiter.cs:25 | the virtual call runs the override of the limiter's algorithm, which leaves exactly its layout and returns the number of slots |
| Engine.Limiter.SetWindowParameters | DotnetRateLimiter.Redis/Redis/Internal/RateLimiting/FixedWindowRateLimiter.cs:107-125 | after the base four, the rate takes the fifth name and the expiration, when a provider is set, the sixth; exactly the window layout is left and its length returned |
| Engine.Limiter.SetBucketParameters | DotnetRateLimiter.Redis/Redis/Internal/RateLimiting/TokenBucketRateLimiter.cs:129-144 | after the base four, the capacity (in the Rate slot) takes the fifth name and the refill rate the sixth; exactly the bucket layout is left and 6 returned |
| Engine.Limiter.GetOrderedParameters | DotnetRateLimiter.Redis/Redis/Internal/RateLimiting/RateLimiter.cs:126-149 | an empty order list throws `InvalidOperationException`; otherwise a new array holds, slot by slot, the computed value or the default |
| Engine.Limiter.InitialSetup | DotnetRateLimiter.Redis/Redis/Internal/RateLimiting/RateLimiter.cs:29 | the self-healing step rewrites only the limiter's key |
| Engine.Limiter.Limit | DotnetRateLimiter.Redis/Redis/Internal/RateLimiting/RateLimiter.cs:32-41 | a non-positive count is rejected before any store access; otherwise the key's new value and the response are those of the algorithm's transition on the intended arguments |
| Engine.Limiter.Delete | DotnetRateLimiter.Redis/Redis/Internal/RateLimiting/RateLimiter.cs:53-58 | the key is removed, and the result says whether it existed |
| Engine.Limiter.Count | DotnetRateLimiter.Redis/Redis/Internal/RateLimiting/FixedWindowRateLimiter.cs:49-54 | `Count` reads the key and changes nothing |
| Engine.Create | DotnetRateLimiter.Redis/Redis/Internal/RateLimiting/RateLimiter.cs:21-30 | construction fails, before touching the store, exactly when the settings are rejected; otherwise the limiter is valid and the self-healing step has run on its key |
| LeaseAdapter.CancellationSource.Cancel | DotnetRateLimiter.Redis/Redis/RateLimiting/RedisRateLimiter.cs:137 | a cancelled source stays cancelled |
| LeaseAdapter.InnerLimiter.Limit | DotnetRateLimiter.Redis/Redis/RateLimiting/RedisRateLimiter.cs:53 | each `Limit` call is recorded with its count and gets the next response |
| LeaseAdapter.RedisRateLimiter.constructor | DotnetRateLimiter.Redis/Redis/RateLimiting/RedisRateLimiter.cs:11-22 | a new adapter is not disposed, has zero counters and an empty queue |
| LeaseAdapter.RedisRateLimiter.ThrowIfDisposed | DotnetRateLimiter.Redis/Redis/RateLimiting/RedisRateLimiter.cs:148-159 | an `ObjectDisposedException` occurs exactly when the adapter is disposed |
| LeaseAdapter.RedisRateLimiter.GetStatistics | DotnetRateLimiter.Redis/Redis/RateLimiting/RedisRateLimiter.cs:26-37 | statistics are refused once disposed; otherwise they report the available count, both counters and the queue size |
| LeaseAdapter.RedisRateLimiter.GetLease | DotnetRateLimiter.Redis/Redis/RateLimiting/RedisRateLimiter.cs:102-112 | the lease follows the response, and exactly one of the two counters goes up by one |
| LeaseAdapter.RedisRateLimiter.AttemptAcquire | DotnetRateLimiter.Redis/Redis/RateLimiting/RedisRateLimiter.cs:39-56 | refused once disposed; zero permits are granted exactly when something is available, with no `Limit` call and no counting; otherwise exactly one `Limit` call decides the lease and exactly one counter goes up |
| LeaseAdapter.RedisRateLimiter.AcquireAsync | DotnetRateLimiter.Redis/Redis/RateLimiting/RedisRateLimiter.cs:58-100 | refused once disposed; zero permits are answered at once; a caller already cancelled gets an uncounted failed lease with no `Limit` call; otherwise the first `Limit` call is made at once, a success is returned and counted, and after a failure a new uncancelled source is queued under an id not already in the queue, with nothing counted |
| LeaseAdapter.RedisRateLimiter.RunWaiter | DotnetRateLimiter.Redis/Redis/RateLimiting/RedisRateLimiter.cs:76-100 | from its first delay, the waiter polls `Limit` with its count until a poll succeeds or it is cancelled: all polls but the last failed; only a success is counted; a cancellation inside a delay, or before it as disposal does, ends in `Canceled`, and one before the loop test ends in an uncounted failed lease; the waiter leaves the queue either way |
| LeaseAdapter.RedisRateLimiter.AcquireAndWait | DotnetRateLimiter.Redis/Redis/RateLimiting/RedisRateLimiter.cs:58-100 | a complete asynchronous acquire leaves the queue as it was, polls at least once unless disposed, zero permits or already cancelled, succeeds exactly when its last poll did, counts only that success and no failures, and is cancelled only inside a delay |
| LeaseAdapter.RedisRateLimiter.AcquireThenDispose | DotnetRateLimiter.Redis/Redis/RateLimiting/RedisRateLimiter.cs:76-138 | an acquire followed by disposal makes exactly one `Limit` call: a successful first poll is returned and counted, and otherwise the queued waiter is cancelled in its delay and ends in `Canceled` with nothing counted |
| LeaseAdapter.RedisRateLimiter.Dispose | DotnetRateLimiter.Redis/Redis/RateLimiting/RedisRateLimiter.cs:114-139 | `Dispose(false)` and a second dispose change nothing; the first `Dispose(true)` marks the adapter disposed and cancels every queued source; counters and queue are untouched |

## Left out

- Redis transport (`ScriptEvaluate`, `KeyDelete`, `StringGet` and their async variants) is a state transition on a `Server` holding the database. The async variants behave as the sync ones and are not modelled separately.
- `DatabaseId` (default -1) selects the database. It is carried in the settings and otherwise not modelled: the model has one database.
- Key expiry over real time is not modelled. The expiry is recorded on the entry (`Expiry`) but never fires, and `now`, the interval and the expiration instant are inputs (`Clock`).
- `TimeSpan.TotalSeconds` is a double. The model takes it as exactly `ticks / 10^7` and writes its text as the integer for whole seconds and as a decimal fraction otherwise; the rounding of the double and the exponent form .NET uses for very large or very small values are not modelled, and only whether the text is an integer matters to the scripts.
- `DateTime.ToRedisSeconds` is a double truncated to `long`. The expiration instant is an input integer (`Clock.expirationSeconds`).
- The Lua script texts (`GetLuaScript`) are taken as an input to the constructor. Each script's meaning is modelled as `Script`/`RunScript` of its algorithm.
- The bucket document's cjson text is not modelled, so its number formatting and precision are absent. The document is a record of two reals. Lua's double arithmetic in the refill is real arithmetic.
- Any stored string other than a bucket document is `Str`. Strings that start with '{' but are not bucket documents are not distinguished further.
- Lua `tonumber`'s hexadecimal, exponent and surrounding-space forms are not modelled. `long.TryParse`'s surrounding white space is not modelled either. Only plain decimal integer text is read, which is what the client and Redis write. Decimal-fraction text is not read either: `ToNumber` reads a foreign "5.5" under a fixed-window key as 0, so the model admits the call and then INCRBY fails, whereas Lua's `tonumber` reads 5.5 and the gate may refuse the call with `(0, 0)`.
- `INCRBY` overflow past 64 bits is not modelled.
- RedisStore.SetExpiry: EXPIREAT with an instant already past deletes the key in Redis; the model records it as an expiry, because there is no server clock to compare it with.
- Sorted-set scores (`RedisStore.ZSet`) are integers. Redis stores them as doubles, and tick values near today's (about 6.4e17, past 2^53) round to multiples of 128 ticks. The eviction bound `now - interval` is rounded the same way, so the eviction boundary can shift by up to 128 ticks (12.8 microseconds). Member names keep the exact ticks, so they do not collide.
- Concurrency is not modelled. There is no `SemaphoreSlim`, no `Interlocked`, no `ConcurrentDictionary`, and no collision of `GetHashCode()` keys: queue ids are handed out in order. The adapter is sequential. `AcquireAsync` covers what runs before the C# method returns its task, which includes the first poll of `WaitAsyncInternal` up to its first delay; `RunWaiter` is the rest of the task. The `ContinueWith` continuation that dequeues a waiter that finished at once runs on the thread pool; the model takes it as done before the caller's next step.
- The wait loop's timing (`Task.Delay(100)`) is a cancellation schedule given as input: the number of failed polls before the caller cancels, and whether the cancellation lands inside the delay.
- `AvailableCount` is a fixed value of the inner limiter. No algorithm defines it.
- `Engine.Limiter.Register`: requires that the parameter is not registered yet. `Dictionary.Add` would throw on a duplicate, but no layout registers a parameter twice.
- The reflection-based settings copy, the builders, dependency injection and the demo application are not modelled.
- The sliding window as written names Rate and Expiration both `ARGV[5]`. The engine uses the corrected layout; see Findings.

## Findings

| source | as written | input that shows it | evidently intended | confidence | as-written member | corrected member |
|---|---|---|---|---|---|---|
| DotnetRateLimiter.Redis/Redis/Internal/RateLimiting/SlidingWindowRateLimiter.cs:118-136 | `SetParameters` names Rate and the optional Expiration both `GetParameterName(totalCount)` without advancing `totalCount`, so both are `ARGV[5]` | a sliding window with an expiration provider: the script's `EXPIREAT` reads `ARGV[5]`, the rate, as the expiry instant, and the expiration value sent sixth is never read | Expiration in its own slot `ARGV[6]`, as in the fixed window | not executed | Parameters.SlidingAsWrittenReadsRateAsExpiration | Parameters.WindowArgsRoundTrip |
