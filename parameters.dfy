/**
 * The settings records and the pure parts of the generic limiter engine: argument
 * validation, the script's ARGV slot names, the slot layouts each algorithm registers,
 * the values computed for each slot, how the script reads them back, and the
 * whitespace normalisation applied to script text.
 */
module Parameters {
  import opened Wrappers
  import opened Decimal
  import opened RedisStore

  // ---------------------------------------------------------------------------
  // Settings
  // ---------------------------------------------------------------------------

  const DefaultDatabaseId: int := -1
  const DefaultRefillRate: int := 1
  const DefaultRecordOnlyOnSuccess: bool := true

  /**
   * The settings every limiter shares. A provider is either set or null; what a set
   * provider returns at a given call is part of the `Clock` of that call.
   */
  datatype CommonSettings = CommonSettings(
    key: Option<string>,
    databaseId: int,
    hasNowProvider: bool,
    hasIntervalProvider: bool)

  datatype WindowSettings = WindowSettings(
    common: CommonSettings,
    rate: int,
    hasExpirationProvider: bool,
    recordOnlyOnSuccess: bool)

  datatype TokenBucketSettings = TokenBucketSettings(
    common: CommonSettings,
    capacity: int,
    refillRate: int,
    isEmptyOnStart: bool)

  /** Which algorithm a limiter runs, with its settings. */
  datatype Config =
    | FixedWindow(window: WindowSettings)
    | SlidingWindow(window: WindowSettings)
    | TokenBucket(bucket: TokenBucketSettings)
  {
    function Common(): CommonSettings {
      if TokenBucket? then bucket.common else window.common
    }
  }

  /**
   * What the clock and the settings' providers return during one call. The interval
   * provider is called once for the ticks slot and once for the seconds slot; both
   * answers are in ticks.
   */
  datatype Clock = Clock(
    utcNowTicks: int,
    providedNowTicks: int,
    intervalTicks: int,
    secondsSlotIntervalTicks: int,
    expirationSeconds: int)

  const TicksPerSecond: int := 10_000_000

  /** The digits of a fraction of a second, `f` ten-millionths, with the trailing zeros dropped. */
  function FractionDigits(f: nat): string {
    var digits := NatToString(f);
    DropTrailingZeros(seq(if |digits| < 7 then 7 - |digits| else 0, _ => '0') + digits)
  }

  function DropTrailingZeros(s: string): string {
    if |s| > 0 && s[|s| - 1] == '0' then DropTrailingZeros(s[..|s| - 1]) else s
  }

  /**
   * `TimeSpan.TotalSeconds.ToString()` for an interval of `ticks`: the whole number of
   * seconds when the interval is a whole number of seconds, otherwise a decimal fraction.
   */
  function TotalSecondsText(ticks: int): (t: string)
    ensures ticks % TicksPerSecond == 0 ==> t == IntToString(ticks / TicksPerSecond)
    ensures ticks % TicksPerSecond != 0 ==> '.' in t
  {
    if ticks % TicksPerSecond == 0 then IntToString(ticks / TicksPerSecond)
    else
      var a := if ticks < 0 then -ticks else ticks;
      var t := (if ticks < 0 then "-" else "") + NatToString(a / TicksPerSecond) + ".";
      assert t[|t| - 1] == '.';
      t + FractionDigits(a % TicksPerSecond)
  }

  /** The interval in whole seconds, when it is a whole number of seconds. */
  function WholeSeconds(ticks: int): Option<int> {
    if ticks % TicksPerSecond == 0 then Some(ticks / TicksPerSecond) else None
  }

  /** `tonumber` reads the seconds text as an integer exactly when the interval is whole seconds. */
  lemma TotalSecondsTextReadsBack(ticks: int)
    ensures ParseDecimal(TotalSecondsText(ticks)) == WholeSeconds(ticks)
  {
    var t := TotalSecondsText(ticks);
    if ticks % TicksPerSecond == 0 {
      ParseIntToString(ticks / TicksPerSecond);
    } else {
      var i :| 0 <= i < |t| && t[i] == '.';
      assert !IsDigit(t[i]);
      if |t| > 1 && t[0] == '-' {
        assert t[1..][i - 1] == '.';
      }
    }
  }

  /** The `now` a call uses: the provider's value, or the system clock when there is no provider. */
  function NowTicks(common: CommonSettings, clock: Clock): (t: int)
    ensures common.hasNowProvider ==> t == clock.providedNowTicks
    ensures !common.hasNowProvider ==> t == clock.utcNowTicks
  {
    if common.hasNowProvider then clock.providedNowTicks else clock.utcNowTicks
  }

  // ---------------------------------------------------------------------------
  // Argument validation
  // ---------------------------------------------------------------------------

  datatype ArgumentError = KeyMissing | IntervalMissing | CountNotPositive | RateNotPositive | CapacityNotPositive

  /** A key passes when it is neither null nor empty. */
  function CheckKeyArgument(key: Option<string>): (r: Option<ArgumentError>)
    ensures r.None? <==> key.Some? && |key.value| > 0
    ensures r.Some? ==> r.value == KeyMissing
  {
    if key.None? || key.value == "" then Some(KeyMissing) else None
  }

  /** A count passes when it is at least 1. */
  function CheckCountArgument(count: int): (r: Option<ArgumentError>)
    ensures r.None? <==> count >= 1
    ensures r.Some? ==> r.value == CountNotPositive
  {
    if count <= 0 then Some(CountNotPositive) else None
  }

  /**
   * The checks run at construction, in the order they throw: the key, the interval
   * provider, then the algorithm's own positive rate or capacity.
   */
  function CheckArguments(config: Config): (r: Option<ArgumentError>)
    ensures r.None? <==>
      && CheckKeyArgument(config.Common().key).None?
      && config.Common().hasIntervalProvider
      && (if config.TokenBucket? then config.bucket.capacity > 0 else config.window.rate > 0)
    ensures CheckKeyArgument(config.Common().key).Some? ==> r == Some(KeyMissing)
    ensures CheckKeyArgument(config.Common().key).None? && !config.Common().hasIntervalProvider ==> r == Some(IntervalMissing)
  {
    var common := config.Common();
    if CheckKeyArgument(common.key).Some? then CheckKeyArgument(common.key)
    else if !common.hasIntervalProvider then Some(IntervalMissing)
    else
      match config
      case TokenBucket(b) => if b.capacity <= 0 then Some(CapacityNotPositive) else None
      case FixedWindow(w) => if w.rate <= 0 then Some(RateNotPositive) else None
      case SlidingWindow(w) => if w.rate <= 0 then Some(RateNotPositive) else None
  }

  // ---------------------------------------------------------------------------
  // ARGV slots
  // ---------------------------------------------------------------------------

  datatype Parameter = IntervalTicks | IntervalSeconds | Now | Rate | RefillRate | IncrementAmount | Expiration

  /** A script argument as the client sends it: a null value or text. */
  datatype RedisValue = NullValue | Bulk(text: string)

  /** The Lua name of the i-th argument (counting from 0): `ARGV[i+1]`. */
  function ParameterName(i: nat): (name: string)
    ensures |name| > 6 && name[..5] == "ARGV[" && name[|name| - 1] == ']'
  {
    "ARGV[" + IntToString(i + 1) + "]"
  }

  /** The 1-based ARGV index a name like `ARGV[k]` refers to. */
  function SlotIndex(name: string): Option<int> {
    if |name| > 6 && name[..5] == "ARGV[" && name[|name| - 1] == ']' then ParseDecimal(name[5..|name| - 1])
    else None
  }

  /** The script finds the i-th argument under the name registered for it. */
  lemma SlotIndexOfParameterName(i: nat)
    ensures SlotIndex(ParameterName(i)) == Some(i + 1)
  {
    var name := ParameterName(i);
    assert name[5..|name| - 1] == IntToString(i + 1);
    ParseIntToString(i + 1);
  }

  /** Different positions get different names. */
  lemma ParameterNameInjective(i: nat, j: nat)
    requires ParameterName(i) == ParameterName(j)
    ensures i == j
  {
    SlotIndexOfParameterName(i);
    SlotIndexOfParameterName(j);
  }

  /** One registration: the parameter, the name the script reads it by, and its default value. */
  datatype ParamSlot = ParamSlot(param: Parameter, name: string, default: RedisValue)

  /** What the base `SetParameters` registers, in order. */
  function BaseLayout(): (l: seq<ParamSlot>)
    ensures |l| == 4 && DistinctParams(l) && NamedByPosition(l)
    ensures forall i | 0 <= i < |l| ::
      l[i].default == NullValue && l[i].param != Rate && l[i].param != RefillRate && l[i].param != Expiration
  {
    [ParamSlot(IntervalTicks, ParameterName(0), NullValue)]
    + [ParamSlot(IntervalSeconds, ParameterName(1), NullValue)]
    + [ParamSlot(Now, ParameterName(2), NullValue)]
    + [ParamSlot(IncrementAmount, ParameterName(3), NullValue)]
  }

  /** The base registrations name none of the parameters the algorithms add. */
  lemma BaseLookupOmits()
    ensures var lookup := LookupOf(BaseLayout());
      Rate !in lookup && RefillRate !in lookup && Expiration !in lookup
  {
    LookupOfMissing(BaseLayout(), Rate);
    LookupOfMissing(BaseLayout(), RefillRate);
    LookupOfMissing(BaseLayout(), Expiration);
  }

  /** The fixed window's layout: the base four, the rate, and the expiration if a provider is set. */
  function WindowLayout(w: WindowSettings): seq<ParamSlot> {
    BaseLayout()
    + [ParamSlot(Rate, ParameterName(4), Bulk(IntToString(w.rate)))]
    + (if w.hasExpirationProvider then [ParamSlot(Expiration, ParameterName(5), NullValue)] else [])
  }

  /**
   * The sliding window's layout as its `SetParameters` writes it: the counter is read
   * but never incremented, so the rate and the expiration both get the fifth name.
   */
  function SlidingLayoutAsWritten(w: WindowSettings): seq<ParamSlot> {
    BaseLayout()
    + [ParamSlot(Rate, ParameterName(4), Bulk(IntToString(w.rate)))]
    + (if w.hasExpirationProvider then [ParamSlot(Expiration, ParameterName(4), NullValue)] else [])
  }

  /** The token bucket's layout: the base four, the capacity (in the Rate slot) and the refill rate. */
  function BucketLayout(b: TokenBucketSettings): seq<ParamSlot> {
    BaseLayout()
    + [ParamSlot(Rate, ParameterName(4), Bulk(IntToString(b.capacity)))]
    + [ParamSlot(RefillRate, ParameterName(5), Bulk(IntToString(b.refillRate)))]
  }

  /** The layout a limiter registers; the sliding window uses the corrected (fixed-window) one. */
  function Layout(config: Config): seq<ParamSlot> {
    match config
    case FixedWindow(w) => WindowLayout(w)
    case SlidingWindow(w) => WindowLayout(w)
    case TokenBucket(b) => BucketLayout(b)
  }

  function Params(l: seq<ParamSlot>): (ps: seq<Parameter>)
    ensures |ps| == |l| && forall i | 0 <= i < |l| :: ps[i] == l[i].param
  {
    if l == [] then [] else Params(l[..|l| - 1]) + [l[|l| - 1].param]
  }

  /** No parameter is registered twice, so no dictionary `Add` throws. */
  predicate DistinctParams(l: seq<ParamSlot>) {
    forall i, j | 0 <= i < j < |l| :: l[i].param != l[j].param
  }

  /** Every slot is named after its position, so the script reads each value where it was put. */
  predicate NamedByPosition(l: seq<ParamSlot>) {
    forall i | 0 <= i < |l| :: l[i].name == ParameterName(i)
  }

  /** The name dictionary the registrations build. */
  function LookupOf(l: seq<ParamSlot>): (m: map<Parameter, string>)
  {
    if l == [] then map[] else LookupOf(l[..|l| - 1])[l[|l| - 1].param := l[|l| - 1].name]
  }

  /** The default-value dictionary the registrations build. */
  function DefaultsOf(l: seq<ParamSlot>): (m: map<Parameter, RedisValue>)
  {
    if l == [] then map[] else DefaultsOf(l[..|l| - 1])[l[|l| - 1].param := l[|l| - 1].default]
  }

  /** A parameter no slot registers has no name in the dictionary. */
  lemma {:induction false} LookupOfMissing(l: seq<ParamSlot>, p: Parameter)
    requires forall i | 0 <= i < |l| :: l[i].param != p
    ensures p !in LookupOf(l)
  {
    if l != [] {
      LookupOfMissing(l[..|l| - 1], p);
    }
  }

  lemma {:induction false} LookupOfAt(l: seq<ParamSlot>, i: nat)
    requires DistinctParams(l) && i < |l|
    ensures l[i].param in LookupOf(l) && LookupOf(l)[l[i].param] == l[i].name
    ensures l[i].param in DefaultsOf(l) && DefaultsOf(l)[l[i].param] == l[i].default
  {
    if i < |l| - 1 {
      LookupOfAt(l[..|l| - 1], i);
    }
  }

  /** Every layout the engine registers has distinct parameters, each named after its position. */
  lemma LayoutWellFormed(config: Config)
    ensures DistinctParams(Layout(config)) && NamedByPosition(Layout(config))
    ensures |Layout(config)| == if config.TokenBucket? || config.window.hasExpirationProvider then 6 else 5
    ensures Layout(config)[..4] == BaseLayout()
  {
    match config
    case TokenBucket(b) =>
      BucketLayoutWellFormed(b);
    case FixedWindow(w) =>
      WindowLayoutWellFormed(w);
    case SlidingWindow(w) =>
      WindowLayoutWellFormed(w);
  }

  lemma BucketLayoutWellFormed(b: TokenBucketSettings)
    ensures DistinctParams(BucketLayout(b)) && NamedByPosition(BucketLayout(b))
    ensures |BucketLayout(b)| == 6 && BucketLayout(b)[..4] == BaseLayout()
  {
    var rate := ParamSlot(Rate, ParameterName(4), Bulk(IntToString(b.capacity)));
    var refill := ParamSlot(RefillRate, ParameterName(5), Bulk(IntToString(b.refillRate)));
    AppendTwoSlots(BaseLayout(), rate, refill);
  }

  lemma WindowLayoutWellFormed(w: WindowSettings)
    ensures DistinctParams(WindowLayout(w)) && NamedByPosition(WindowLayout(w))
    ensures |WindowLayout(w)| == if w.hasExpirationProvider then 6 else 5
    ensures WindowLayout(w)[..4] == BaseLayout()
  {
    var base := BaseLayout();
    var rate := ParamSlot(Rate, ParameterName(4), Bulk(IntToString(w.rate)));
    if w.hasExpirationProvider {
      AppendTwoSlots(base, rate, ParamSlot(Expiration, ParameterName(5), NullValue));
    } else {
      AppendSlot(base, rate);
      assert WindowLayout(w) == base + [rate];
    }
  }

  /** A slot named after the next position, for a parameter not yet registered, keeps the layout well formed. */
  lemma AppendSlot(l: seq<ParamSlot>, s: ParamSlot)
    requires DistinctParams(l) && NamedByPosition(l)
    requires s.name == ParameterName(|l|) && forall i | 0 <= i < |l| :: l[i].param != s.param
    ensures DistinctParams(l + [s]) && NamedByPosition(l + [s]) && (l + [s])[..|l|] == l
  {
  }

  /** Two such slots in a row, for two different new parameters. */
  lemma AppendTwoSlots(l: seq<ParamSlot>, s: ParamSlot, t: ParamSlot)
    requires DistinctParams(l) && NamedByPosition(l)
    requires s.name == ParameterName(|l|) && t.name == ParameterName(|l| + 1) && s.param != t.param
    requires forall i | 0 <= i < |l| :: l[i].param != s.param && l[i].param != t.param
    ensures var r := l + [s] + [t];
      DistinctParams(r) && NamedByPosition(r) && r[..|l|] == l
  {
    var r := l + [s] + [t];
    assert r == l + [s, t];
  }

  /**
   * As written, the sliding window names two slots `ARGV[5]` when an expiration provider
   * is set: the rate's and the expiration's.
   */
  lemma SlidingLayoutAsWrittenSharesName(w: WindowSettings)
    requires w.hasExpirationProvider
    ensures var l := SlidingLayoutAsWritten(w);
      |l| == 6 && l[4].param == Rate && l[5].param == Expiration && l[4].name == l[5].name == "ARGV[5]"
    ensures !NamedByPosition(SlidingLayoutAsWritten(w))
  {
    var l := SlidingLayoutAsWritten(w);
    assert l[5].name == ParameterName(4);
    if l[5].name == ParameterName(5) {
      ParameterNameInjective(4, 5);
    }
  }

  // ---------------------------------------------------------------------------
  // Values sent for each slot
  // ---------------------------------------------------------------------------

  /**
   * `GetParameterValue` with the window override: the increment, now, the interval in
   * ticks and in seconds, and the expiration when its provider is set; null for the
   * slots whose value is their registered default.
   */
  function ParameterValue(config: Config, p: Parameter, count: int, clock: Clock): (v: Option<RedisValue>)
    ensures v.Some? ==> v.value.Bulk?
    ensures v.None? <==> p == Rate || p == RefillRate || (p == Expiration && (config.TokenBucket? || !config.window.hasExpirationProvider))
  {
    if p == Expiration && !config.TokenBucket? && config.window.hasExpirationProvider then
      Some(Bulk(IntToString(clock.expirationSeconds)))
    else
      match p
      case IncrementAmount => Some(Bulk(IntToString(count)))
      case Now => Some(Bulk(IntToString(NowTicks(config.Common(), clock))))
      case IntervalSeconds => Some(Bulk(TotalSecondsText(clock.secondsSlotIntervalTicks)))
      case IntervalTicks => Some(Bulk(IntToString(clock.intervalTicks)))
      case _ => None
  }

  /** What `GetOrderedParameters` puts in a slot: the computed value, else the slot's registered default. */
  function SentValue(config: Config, slot: ParamSlot, count: int, clock: Clock): (v: RedisValue)
    ensures ParameterValue(config, slot.param, count, clock).None? ==> v == slot.default
  {
    match ParameterValue(config, slot.param, count, clock)
    case Some(v) => v
    case None => slot.default
  }

  // ---------------------------------------------------------------------------
  // How the script reads its arguments
  // ---------------------------------------------------------------------------

  /** `tonumber(ARGV[k])` for the name registered for `p`: nil when anything is missing. */
  function ArgNumber(lookup: map<Parameter, string>, args: seq<RedisValue>, p: Parameter): Option<int> {
    if p !in lookup then None
    else
      match SlotIndex(lookup[p])
      case Some(k) =>
        if 1 <= k <= |args| && args[k - 1].Bulk? then ParseDecimal(args[k - 1].text) else None
      case None => None
  }

  /**
   * The numbers a window script reads; `intervalSeconds` is `None` when the seconds text
   * is not an integer, and `expiration` is present only when the script uses EXPIREAT.
   */
  datatype WindowArgs = WindowArgs(intervalTicks: int, intervalSeconds: Option<int>, now: int, inc: int, rate: int, expiration: Option<int>)

  /** The numbers the bucket script reads. */
  datatype BucketArgs = BucketArgs(intervalTicks: int, now: int, inc: int, capacity: int, refillRate: int)

  function BindWindowArgs(lookup: map<Parameter, string>, args: seq<RedisValue>, usesExpiration: bool): Option<WindowArgs> {
    var ticks := ArgNumber(lookup, args, IntervalTicks);
    var seconds := ArgNumber(lookup, args, IntervalSeconds);
    var now := ArgNumber(lookup, args, Now);
    var inc := ArgNumber(lookup, args, IncrementAmount);
    var rate := ArgNumber(lookup, args, Rate);
    var exp := ArgNumber(lookup, args, Expiration);
    if ticks.None? || now.None? || inc.None? || rate.None? || (usesExpiration && exp.None?) then None
    else Some(WindowArgs(ticks.value, seconds, now.value, inc.value, rate.value, if usesExpiration then exp else None))
  }

  function BindBucketArgs(lookup: map<Parameter, string>, args: seq<RedisValue>): Option<BucketArgs> {
    var ticks := ArgNumber(lookup, args, IntervalTicks);
    var now := ArgNumber(lookup, args, Now);
    var inc := ArgNumber(lookup, args, IncrementAmount);
    var capacity := ArgNumber(lookup, args, Rate);
    var refill := ArgNumber(lookup, args, RefillRate);
    if ticks.None? || now.None? || inc.None? || capacity.None? || refill.None? then None
    else Some(BucketArgs(ticks.value, now.value, inc.value, capacity.value, refill.value))
  }

  /** The window arguments a call means to send. */
  function IntendedWindowArgs(w: WindowSettings, count: int, clock: Clock): WindowArgs {
    WindowArgs(clock.intervalTicks, WholeSeconds(clock.secondsSlotIntervalTicks), NowTicks(w.common, clock), count, w.rate,
      if w.hasExpirationProvider then Some(clock.expirationSeconds) else None)
  }

  /** The bucket arguments a call means to send. */
  function IntendedBucketArgs(b: TokenBucketSettings, count: int, clock: Clock): BucketArgs {
    BucketArgs(clock.intervalTicks, NowTicks(b.common, clock), count, b.capacity, b.refillRate)
  }

  /** The argument array a layout produces for one call. */
  function OrderedValues(config: Config, l: seq<ParamSlot>, count: int, clock: Clock): (args: seq<RedisValue>)
    ensures |args| == |l|
    ensures forall i | 0 <= i < |l| :: args[i] == SentValue(config, l[i], count, clock)
  {
    seq(|l|, i requires 0 <= i < |l| => SentValue(config, l[i], count, clock))
  }

  /** In a layout named by position, the script reads back exactly the value sent for each parameter. */
  lemma ArgNumberReadsBack(config: Config, l: seq<ParamSlot>, i: nat, count: int, clock: Clock, n: int)
    requires DistinctParams(l) && NamedByPosition(l) && i < |l|
    requires SentValue(config, l[i], count, clock) == Bulk(IntToString(n))
    ensures ArgNumber(LookupOf(l), OrderedValues(config, l, count, clock), l[i].param) == Some(n)
  {
    ArgTextReadsBack(config, l, i, count, clock, IntToString(n));
    ParseIntToString(n);
  }

  /** In a layout named by position, the script applies `tonumber` to exactly the text sent for each parameter. */
  lemma ArgTextReadsBack(config: Config, l: seq<ParamSlot>, i: nat, count: int, clock: Clock, t: string)
    requires DistinctParams(l) && NamedByPosition(l) && i < |l|
    requires SentValue(config, l[i], count, clock) == Bulk(t)
    ensures ArgNumber(LookupOf(l), OrderedValues(config, l, count, clock), l[i].param) == ParseDecimal(t)
  {
    LookupOfAt(l, i);
    SlotIndexOfParameterName(i);
  }

  lemma WindowArgNumbers(config: Config, count: int, clock: Clock)
    requires !config.TokenBucket?
    ensures var lookup, args := LookupOf(Layout(config)), OrderedValues(config, Layout(config), count, clock);
      && ArgNumber(lookup, args, IntervalTicks) == Some(clock.intervalTicks)
      && ArgNumber(lookup, args, IntervalSeconds) == WholeSeconds(clock.secondsSlotIntervalTicks)
      && ArgNumber(lookup, args, Now) == Some(NowTicks(config.window.common, clock))
      && ArgNumber(lookup, args, IncrementAmount) == Some(count)
      && ArgNumber(lookup, args, Rate) == Some(config.window.rate)
      && (config.window.hasExpirationProvider ==> ArgNumber(lookup, args, Expiration) == Some(clock.expirationSeconds))
  {
    var l := Layout(config);
    var w := config.window;
    LayoutWellFormed(config);
    assert l[0].param == IntervalTicks && l[1].param == IntervalSeconds && l[2].param == Now;
    assert l[3].param == IncrementAmount && l[4] == ParamSlot(Rate, ParameterName(4), Bulk(IntToString(w.rate)));
    ArgNumberReadsBack(config, l, 0, count, clock, clock.intervalTicks);
    ArgTextReadsBack(config, l, 1, count, clock, TotalSecondsText(clock.secondsSlotIntervalTicks));
    TotalSecondsTextReadsBack(clock.secondsSlotIntervalTicks);
    ArgNumberReadsBack(config, l, 2, count, clock, NowTicks(w.common, clock));
    ArgNumberReadsBack(config, l, 3, count, clock, count);
    ArgNumberReadsBack(config, l, 4, count, clock, w.rate);
    if w.hasExpirationProvider {
      assert l[5].param == Expiration;
      ArgNumberReadsBack(config, l, 5, count, clock, clock.expirationSeconds);
    }
  }

  /** The window scripts receive the arguments the call meant to send. */
  lemma WindowArgsRoundTrip(config: Config, count: int, clock: Clock)
    requires !config.TokenBucket?
    ensures var l := Layout(config);
      BindWindowArgs(LookupOf(l), OrderedValues(config, l, count, clock), config.window.hasExpirationProvider)
        == Some(IntendedWindowArgs(config.window, count, clock))
  {
    WindowArgNumbers(config, count, clock);
  }

  lemma BucketArgNumbers(config: Config, count: int, clock: Clock)
    requires config.TokenBucket?
    ensures var lookup, args := LookupOf(Layout(config)), OrderedValues(config, Layout(config), count, clock);
      && ArgNumber(lookup, args, IntervalTicks) == Some(clock.intervalTicks)
      && ArgNumber(lookup, args, Now) == Some(NowTicks(config.bucket.common, clock))
      && ArgNumber(lookup, args, IncrementAmount) == Some(count)
      && ArgNumber(lookup, args, Rate) == Some(config.bucket.capacity)
      && ArgNumber(lookup, args, RefillRate) == Some(config.bucket.refillRate)
  {
    var l := Layout(config);
    var b := config.bucket;
    LayoutWellFormed(config);
    assert l[0].param == IntervalTicks && l[2].param == Now && l[3].param == IncrementAmount;
    assert l[4] == ParamSlot(Rate, ParameterName(4), Bulk(IntToString(b.capacity)));
    assert l[5] == ParamSlot(RefillRate, ParameterName(5), Bulk(IntToString(b.refillRate)));
    ArgNumberReadsBack(config, l, 0, count, clock, clock.intervalTicks);
    ArgNumberReadsBack(config, l, 2, count, clock, NowTicks(b.common, clock));
    ArgNumberReadsBack(config, l, 3, count, clock, count);
    ArgNumberReadsBack(config, l, 4, count, clock, b.capacity);
    ArgNumberReadsBack(config, l, 5, count, clock, b.refillRate);
  }

  /** The bucket script receives the arguments the call meant to send. */
  lemma BucketArgsRoundTrip(config: Config, count: int, clock: Clock)
    requires config.TokenBucket?
    ensures var l := Layout(config);
      BindBucketArgs(LookupOf(l), OrderedValues(config, l, count, clock)) == Some(IntendedBucketArgs(config.bucket, count, clock))
  {
    BucketArgNumbers(config, count, clock);
  }

  /**
   * With the layout as written, a sliding window with an expiration provider reads the
   * rate where it expects the expiration instant.
   */
  lemma SlidingAsWrittenReadsRateAsExpiration(w: WindowSettings, count: int, clock: Clock)
    requires w.hasExpirationProvider
    ensures var l := SlidingLayoutAsWritten(w);
      ArgNumber(LookupOf(l), OrderedValues(SlidingWindow(w), l, count, clock), Expiration) == Some(w.rate)
  {
    var l := SlidingLayoutAsWritten(w);
    SlidingLayoutAsWrittenSharesName(w);
    assert DistinctParams(l);
    LookupOfAt(l, 5);
    SlotIndexOfParameterName(4);
    assert OrderedValues(SlidingWindow(w), l, count, clock)[4] == Bulk(IntToString(w.rate));
    ParseIntToString(w.rate);
  }

  // ---------------------------------------------------------------------------
  // Replies
  // ---------------------------------------------------------------------------

  /** What every algorithm reports for one `Limit` call. */
  datatype RateLimitResponse = RateLimitResponse(activeCount: int, isSuccessful: bool)

  /** What both window scripts return: the number of additions and an active count. */
  datatype WindowReply = WindowReply(addedCount: int, active: int)

  /**
   * The expiry a window script sets: EXPIREAT the provided instant, else EXPIRE the
   * interval in seconds; `None` when those seconds are not an integer, which EXPIRE refuses.
   */
  function WindowExpiry(args: WindowArgs): (x: Option<Expiry>)
    ensures args.expiration.Some? ==> x == Some(ExpireAt(args.expiration.value))
    ensures args.expiration.None? ==> (x.None? <==> args.intervalSeconds.None?)
    ensures args.expiration.None? && x.Some? ==> x.value == ExpireIn(args.intervalSeconds.value)
  {
    match args.expiration
    case Some(at) => Some(ExpireAt(at))
    case None =>
      match args.intervalSeconds
      case Some(n) => Some(ExpireIn(n))
      case None => None
  }

  /** The window's expiry is a relative time that is not positive, so EXPIRE deletes the key. */
  predicate ExpiryDeletes(args: WindowArgs) {
    WindowExpiry(args).Some? && DeletesAtOnce(WindowExpiry(args).value)
  }

  /** The window's expiry is one Redis records, so the key outlives the script. */
  predicate ExpiryKeepsKey(args: WindowArgs) {
    WindowExpiry(args).Some? && !DeletesAtOnce(WindowExpiry(args).value)
  }

  /**
   * `RedisValueToLong`: a null value reads as 0 (the client library's convention),
   * text reads as the 64-bit integer it spells, and anything else gives null.
   */
  function RedisValueToLong(v: RedisValue): (r: Option<int>)
    ensures v.NullValue? ==> r == Some(0)
    ensures v.Bulk? ==> r == ParseLong(v.text)
    ensures r.Some? ==> MinLong <= r.value <= MaxLong
  {
    match v
    case NullValue => Some(0)
    case Bulk(t) => ParseLong(t)
  }

  /** A reply whose text starts with '{' (a JSON document) never reads as a number. */
  lemma ParseLongRejectsJson(t: string)
    requires |t| > 0 && t[0] == '{'
    ensures RedisValueToLong(Bulk(t)) == None
  {
  }

  /**
   * `RedisValueToLong(StringGet(key))`, as the fixed window's and the token bucket's
   * `Count` compute it; a key of another type makes GET fail. The text of a bucket
   * document starts with '{', so it gives null.
   */
  function StringCount(s: Slot): (r: Result<Option<int>, StoreError>)
    ensures r.Failure? <==> s.Some? && !IsStringValue(s.value.value)
    ensures s.None? ==> r == Success(Some(0))
    ensures s.Some? && s.value.value.Str? ==> r == Success(RedisValueToLong(Bulk(s.value.value.text)))
    ensures s.Some? && s.value.value.Doc? ==> r == Success(None)
  {
    match Get(s)
    case Failure(e) => Failure(e)
    case Success(Nil) => Success(RedisValueToLong(NullValue))
    case Success(Text(t)) => Success(RedisValueToLong(Bulk(t)))
    case Success(Json(_)) => Success(None)
  }

  // ---------------------------------------------------------------------------
  // Script text normalisation: Regex.Replace(text, @"\s+", " ")
  // ---------------------------------------------------------------------------

  /** .NET's `\s`: \f \n \r \t \v, U+0085 and the Unicode separators (category Z). */
  predicate IsRegexWhitespace(c: char) {
    || c == ' ' || c == '\t' || c == '\n' || c == '\U{000B}' || c == '\U{000C}' || c == '\r'
    || c == '\U{0085}' || c == '\U{00A0}' || c == '\U{1680}' || '\U{2000}' <= c <= '\U{200A}'
    || c == '\U{2028}' || c == '\U{2029}' || c == '\U{202F}' || c == '\U{205F}' || c == '\U{3000}'
  }

  /** Drop the run of white space at the front. */
  function SkipWhitespace(s: string): (r: string)
    ensures |r| <= |s| && r == s[|s| - |r|..]
    ensures |r| > 0 ==> !IsRegexWhitespace(r[0])
  {
    if |s| > 0 && IsRegexWhitespace(s[0]) then SkipWhitespace(s[1..]) else s
  }

  /** Replace every maximal run of white space by a single space. */
  function CollapseWhitespace(s: string): (r: string)
    ensures |r| > 0 <==> |s| > 0
    ensures |s| > 0 ==> r[0] == if IsRegexWhitespace(s[0]) then ' ' else s[0]
    decreases |s|
  {
    if s == [] then []
    else if IsRegexWhitespace(s[0]) then " " + CollapseWhitespace(SkipWhitespace(s[1..]))
    else [s[0]] + CollapseWhitespace(s[1..])
  }

  predicate NoWhitespaceRun(s: string) {
    forall i | 0 <= i < |s| - 1 :: !(IsRegexWhitespace(s[i]) && IsRegexWhitespace(s[i + 1]))
  }

  predicate OnlySpaces(s: string) {
    forall i | 0 <= i < |s| :: IsRegexWhitespace(s[i]) ==> s[i] == ' '
  }

  /** The characters of `s` that are not white space, in order. */
  function NonWhitespace(s: string): string {
    if s == [] then [] else (if IsRegexWhitespace(s[0]) then [] else [s[0]]) + NonWhitespace(s[1..])
  }

  /** The normalised text has no two white-space characters in a row, and each one is a space. */
  lemma {:induction false} CollapseHasNoRuns(s: string)
    ensures NoWhitespaceRun(CollapseWhitespace(s)) && OnlySpaces(CollapseWhitespace(s))
    decreases |s|
  {
    if s != [] {
      var r := CollapseWhitespace(s);
      if IsRegexWhitespace(s[0]) {
        var rest := SkipWhitespace(s[1..]);
        CollapseHasNoRuns(rest);
        assert r == " " + CollapseWhitespace(rest);
      } else {
        CollapseHasNoRuns(s[1..]);
        assert r == [s[0]] + CollapseWhitespace(s[1..]);
      }
    }
  }

  lemma NormalTextTail(t: string)
    requires |t| > 0 && NoWhitespaceRun(t) && OnlySpaces(t)
    ensures NoWhitespaceRun(t[1..]) && OnlySpaces(t[1..])
    ensures IsRegexWhitespace(t[0]) ==> t[0] == ' ' && (|t| > 1 ==> !IsRegexWhitespace(t[1]))
  {
    var tail := t[1..];
    forall i | 0 <= i < |tail| ensures IsRegexWhitespace(tail[i]) ==> tail[i] == ' ' {
      assert tail[i] == t[i + 1];
    }
    forall i | 0 <= i < |tail| - 1 ensures !(IsRegexWhitespace(tail[i]) && IsRegexWhitespace(tail[i + 1])) {
      assert tail[i] == t[i + 1] && tail[i + 1] == t[i + 2];
    }
  }

  /** Text already in normal form is left alone. */
  lemma {:induction false} CollapseFixesNormalText(t: string)
    requires NoWhitespaceRun(t) && OnlySpaces(t)
    ensures CollapseWhitespace(t) == t
    decreases |t|
  {
    if t != [] {
      var tail := t[1..];
      NormalTextTail(t);
      CollapseFixesNormalText(tail);
      if IsRegexWhitespace(t[0]) {
        assert SkipWhitespace(tail) == tail;
        calc {
          CollapseWhitespace(t);
          " " + CollapseWhitespace(SkipWhitespace(tail));
          " " + tail;
          [t[0]] + tail;
        }
      } else {
        assert CollapseWhitespace(t) == [t[0]] + tail;
      }
      assert [t[0]] + tail == t;
    }
  }

  /** Normalising twice is the same as normalising once. */
  lemma CollapseIdempotent(s: string)
    ensures CollapseWhitespace(CollapseWhitespace(s)) == CollapseWhitespace(s)
  {
    CollapseHasNoRuns(s);
    CollapseFixesNormalText(CollapseWhitespace(s));
  }

  lemma {:induction false} SkipKeepsNonWhitespace(s: string)
    ensures NonWhitespace(SkipWhitespace(s)) == NonWhitespace(s)
    decreases |s|
  {
    if |s| > 0 && IsRegexWhitespace(s[0]) {
      SkipKeepsNonWhitespace(s[1..]);
    }
  }

  /** Normalising only touches white space: every other character survives, in order. */
  lemma {:induction false} CollapseKeepsNonWhitespace(s: string)
    ensures NonWhitespace(CollapseWhitespace(s)) == NonWhitespace(s)
    decreases |s|
  {
    if s != [] {
      if IsRegexWhitespace(s[0]) {
        var rest := SkipWhitespace(s[1..]);
        CollapseKeepsNonWhitespace(rest);
        SkipKeepsNonWhitespace(s[1..]);
        var r := " " + CollapseWhitespace(rest);
        assert r[1..] == CollapseWhitespace(rest);
      } else {
        CollapseKeepsNonWhitespace(s[1..]);
        var r := [s[0]] + CollapseWhitespace(s[1..]);
        assert r[1..] == CollapseWhitespace(s[1..]);
      }
    }
  }
}
