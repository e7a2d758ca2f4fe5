/**
 * The generic limiter engine: a limiter registers its ARGV slots when it is built,
 * checks its settings, repairs its key, and then serves `Limit`, `Delete` and `Count`
 * calls against the Redis database by running its algorithm's script on its one key.
 */
module Engine {
  import opened Wrappers
  import opened Decimal
  import opened RedisStore
  import opened Parameters
  import FixedWindowLimiter
  import SlidingWindowLimiter
  import TokenBucketLimiter

  /** Why a call into the engine fails: a rejected argument, an empty slot table, or a script error. */
  datatype EngineError = Argument(reason: ArgumentError) | InvalidOperation | ScriptError(error: StoreError)

  /** The Redis database the limiter talks to. */
  class Server {
    var db: Db

    constructor(db: Db)
      ensures this.db == db
    {
      this.db := db;
    }
  }

  // ---------------------------------------------------------------------------
  // What one call does, per algorithm
  // ---------------------------------------------------------------------------

  /** The construction-time repair of the key, per algorithm. */
  function Setup(config: Config, s: Slot): (r: Slot)
    ensures r == s || r == None
  {
    match config
    case FixedWindow(_) => FixedWindowLimiter.InitialSetup(s)
    case SlidingWindow(_) => SlidingWindowLimiter.InitialSetup(s)
    case TokenBucket(_) => TokenBucketLimiter.InitialSetup(s)
  }

  function LiftReply<R>(reply: Result<R, StoreError>, response: R -> RateLimitResponse): Result<RateLimitResponse, EngineError> {
    match reply
    case Success(v) => Success(response(v))
    case Failure(e) => Failure(ScriptError(e))
  }

  /**
   * One `Limit(count)` call on the key's slot, with the arguments the call means to
   * send: the algorithm's script, then the parsing of its reply. For a valid count a
   * failed call leaves the key as it was, unless a window's EXPIRE refused interval
   * seconds that are not an integer after the script had already written.
   */
  function Transition(config: Config, s: Slot, count: int, clock: Clock): (out: (Slot, Result<RateLimitResponse, EngineError>))
    ensures count >= 1 && out.1.Failure? ==>
      && out.1.error.ScriptError?
      && (|| out.0 == s
          || (&& !config.TokenBucket? && out.1.error.error == NotAnInteger
              && WindowExpiry(IntendedWindowArgs(config.window, count, clock)).None?))
  {
    match config
    case FixedWindow(w) =>
      var args := IntendedWindowArgs(w, count, clock);
      var out := FixedWindowLimiter.Script(s, args, w.recordOnlyOnSuccess);
      FixedWindowLimiter.ScriptErrorKeepsOnlyIncrement(s, args, w.recordOnlyOnSuccess);
      (out.slot, LiftReply(out.reply, FixedWindowLimiter.Response))
    case SlidingWindow(w) =>
      var args := IntendedWindowArgs(w, count, clock);
      var out := SlidingWindowLimiter.Script(s, args, w.recordOnlyOnSuccess);
      var step := (out.slot, LiftReply(out.reply, reply => SlidingWindowLimiter.Response(reply, count)));
      if count < 1 then step
      else SlidingWindowLimiter.ScriptErrorKeepsEarlierWrites(s, args, w.recordOnlyOnSuccess); step
    case TokenBucket(b) =>
      var args := IntendedBucketArgs(b, count, clock);
      var out := TokenBucketLimiter.Script(s, args, b.isEmptyOnStart);
      TokenBucketLimiter.ScriptErrors(s, args, b.isEmptyOnStart);
      (out.slot, LiftReply(out.reply, TokenBucketLimiter.Response))
  }

  /** `Count`, per algorithm: the string value read as a number, or the sorted set's size. */
  function CountOf(config: Config, s: Slot): (r: Result<Option<int>, StoreError>)
    ensures s.None? && config.SlidingWindow? ==> r == Success(None)
    ensures s.None? && !config.SlidingWindow? ==> r == Success(Some(0))
  {
    if config.SlidingWindow? then SlidingWindowLimiter.Count(s) else StringCount(s)
  }

  /** One more registration extends each table by its entry, and keeps the parameters distinct. */
  lemma RegistrationAppends(l: seq<ParamSlot>, x: ParamSlot)
    requires DistinctParams(l) && x.param !in LookupOf(l)
    ensures DistinctParams(l + [x])
    ensures LookupOf(l + [x]) == LookupOf(l)[x.param := x.name]
    ensures DefaultsOf(l + [x]) == DefaultsOf(l)[x.param := x.default]
    ensures Params(l + [x]) == Params(l) + [x.param]
  {
    RegistrationKeepsDistinct(l, x);
    RegistrationExtendsLookup(l, x);
    RegistrationExtendsDefaults(l, x);
    RegistrationExtendsOrder(l, x);
  }

  lemma RegistrationKeepsDistinct(l: seq<ParamSlot>, x: ParamSlot)
    requires DistinctParams(l) && x.param !in LookupOf(l)
    ensures DistinctParams(l + [x])
  {
    forall i | 0 <= i < |l|
      ensures l[i].param != x.param
    {
      LookupOfAt(l, i);
    }
  }

  lemma RegistrationExtendsLookup(l: seq<ParamSlot>, x: ParamSlot)
    ensures LookupOf(l + [x]) == LookupOf(l)[x.param := x.name]
  {
    var l' := l + [x];
    assert l'[..|l'| - 1] == l;
  }

  lemma RegistrationExtendsDefaults(l: seq<ParamSlot>, x: ParamSlot)
    ensures DefaultsOf(l + [x]) == DefaultsOf(l)[x.param := x.default]
  {
    var l' := l + [x];
    assert l'[..|l'| - 1] == l;
  }

  lemma RegistrationExtendsOrder(l: seq<ParamSlot>, x: ParamSlot)
    ensures Params(l + [x]) == Params(l) + [x.param]
  {
    var l' := l + [x];
    assert l'[..|l'| - 1] == l;
  }

  // ---------------------------------------------------------------------------
  // The limiter
  // ---------------------------------------------------------------------------

  class Limiter {
    const config: Config
    /** The script text with every run of white space collapsed to one space. */
    const limitScript: string
    var parameterNameLookup: map<Parameter, string>
    var defaultParameterValues: map<Parameter, RedisValue>
    var parameterNameOrder: seq<Parameter>
    /** The registrations made so far, in order. */
    ghost var slots: seq<ParamSlot>

    /** The three tables hold exactly the registrations, none of them repeated. */
    ghost predicate Tables()
      reads this
    {
      && DistinctParams(slots)
      && parameterNameLookup == LookupOf(slots)
      && defaultParameterValues == DefaultsOf(slots)
      && parameterNameOrder == Params(slots)
    }

    /** A limiter as construction leaves it: the algorithm's layout registered and its settings accepted. */
    ghost predicate Valid()
      reads this
    {
      Tables() && slots == Layout(config) && CheckArguments(config).None?
    }

    function Key(): string
      requires CheckKeyArgument(config.Common().key).None?
    {
      config.Common().key.value
    }

    /**
     * The first half of the C# constructor: register the slots and normalise the script
     * text. The settings are not checked yet (see `Create`).
     */
    constructor(config: Config, scriptText: string)
      ensures this.config == config && Tables() && slots == Layout(config)
      ensures limitScript == CollapseWhitespace(scriptText)
    {
      this.config := config;
      limitScript := CollapseWhitespace(scriptText);
      parameterNameLookup := map[];
      defaultParameterValues := map[];
      parameterNameOrder := [];
      slots := [];
      new;
      var totalCount := SetParameters();
    }

    /** `Dictionary.Add` and `List.Add` for one parameter; the parameter is not registered yet. */
    method Register(p: Parameter, name: string, default: RedisValue)
      requires Tables() && p !in parameterNameLookup
      modifies this
      ensures Tables()
      ensures slots == old(slots) + [ParamSlot(p, name, default)]
      ensures parameterNameLookup == old(parameterNameLookup)[p := name]
      ensures defaultParameterValues == old(defaultParameterValues)[p := default]
      ensures parameterNameOrder == old(parameterNameOrder) + [p]
    {
      var l := slots + [ParamSlot(p, name, default)];
      RegistrationAppends(slots, ParamSlot(p, name, default));
      parameterNameLookup := parameterNameLookup[p := name];
      defaultParameterValues := defaultParameterValues[p := default];
      parameterNameOrder := parameterNameOrder + [p];
      slots := l;
    }

    /** The base `SetParameters`: the interval in ticks and seconds, now and the increment, at ARGV[1..4]. */
    method SetBaseParameters() returns (totalCount: nat)
      requires Tables() && slots == []
      modifies this
      ensures Tables() && slots == BaseLayout() && totalCount == |slots|
      ensures Rate !in parameterNameLookup && RefillRate !in parameterNameLookup && Expiration !in parameterNameLookup
    {
      totalCount := 0;
      Register(IntervalTicks, ParameterName(totalCount), NullValue);
      totalCount := totalCount + 1;
      Register(IntervalSeconds, ParameterName(totalCount), NullValue);
      totalCount := totalCount + 1;
      Register(Now, ParameterName(totalCount), NullValue);
      totalCount := totalCount + 1;
      Register(IncrementAmount, ParameterName(totalCount), NullValue);
      totalCount := totalCount + 1;
      assert slots == BaseLayout();
      BaseLookupOmits();
    }

    /**
     * `SetParameters`: the base four, then the algorithm's own registrations, numbered
     * on after each one. The override that runs is the one of the limiter's algorithm.
     */
    method SetParameters() returns (totalCount: nat)
      requires Tables() && slots == []
      modifies this
      ensures Tables() && slots == Layout(config) && totalCount == |slots|
    {
      if config.TokenBucket? {
        totalCount := SetBucketParameters();
      } else {
        totalCount := SetWindowParameters();
      }
    }

    /** The fixed window's override: the rate at ARGV[5], and the expiration at ARGV[6] when a provider is set. */
    method SetWindowParameters() returns (totalCount: nat)
      requires Tables() && slots == [] && !config.TokenBucket?
      modifies this
      ensures Tables() && slots == WindowLayout(config.window) && totalCount == |slots|
    {
      var w := config.window;
      totalCount := SetBaseParameters();
      Register(Rate, ParameterName(totalCount), Bulk(IntToString(w.rate)));
      totalCount := totalCount + 1;
      if w.hasExpirationProvider {
        Register(Expiration, ParameterName(totalCount), NullValue);
        totalCount := totalCount + 1;
      }
    }

    /** The token bucket's override: the capacity in the Rate slot at ARGV[5], the refill rate at ARGV[6]. */
    method SetBucketParameters() returns (totalCount: nat)
      requires Tables() && slots == [] && config.TokenBucket?
      modifies this
      ensures Tables() && slots == BucketLayout(config.bucket) && totalCount == |slots|
    {
      var b := config.bucket;
      totalCount := SetBaseParameters();
      Register(Rate, ParameterName(totalCount), Bulk(IntToString(b.capacity)));
      totalCount := totalCount + 1;
      Register(RefillRate, ParameterName(totalCount), Bulk(IntToString(b.refillRate)));
      totalCount := totalCount + 1;
    }

    /**
     * `GetOrderedParameters`: one argument per registered parameter, in registration
     * order, each the computed value or else the registered default; an empty
     * registration list is an invalid operation.
     */
    method GetOrderedParameters(count: int, clock: Clock) returns (r: Result<array<RedisValue>, EngineError>)
      requires Tables()
      ensures r.Failure? <==> |parameterNameOrder| == 0
      ensures r.Failure? ==> r.error == InvalidOperation
      ensures r.Success? ==> fresh(r.value) && r.value[..] == OrderedValues(config, slots, count, clock)
    {
      if |parameterNameOrder| == 0 {
        return Failure(InvalidOperation);
      }
      var index := 0;
      var parameters := new RedisValue[|parameterNameOrder|];
      while index < |parameterNameOrder|
        invariant 0 <= index <= parameters.Length == |parameterNameOrder| == |slots|
        invariant forall i | 0 <= i < index :: parameters[i] == SentValue(config, slots[i], count, clock)
      {
        var parameter := parameterNameOrder[index];
        var parameterValue := ParameterValue(config, parameter, count, clock);
        LookupOfAt(slots, index);
        if parameterValue.Some? {
          parameters[index] := parameterValue.value;
        } else {
          parameters[index] := defaultParameterValues[parameter];
        }
        index := index + 1;
      }
      return Success(parameters);
    }

    /** The construction-time script: repair the key for this algorithm. */
    method InitialSetup(server: Server)
      requires CheckKeyArgument(config.Common().key).None?
      modifies server
      ensures server.db == Put(old(server.db), Key(), Setup(config, Lookup(old(server.db), Key())))
    {
      var slot := Lookup(server.db, Key());
      server.db := Put(server.db, Key(), Setup(config, slot));
    }

    /**
     * `Limit(count)`: a count below 1 is rejected before the database is touched;
     * otherwise the script runs on the key with the arguments the call means to send,
     * its writes land on the key alone, and its reply becomes the response.
     */
    method Limit(count: int, clock: Clock, server: Server) returns (r: Result<RateLimitResponse, EngineError>)
      requires Valid()
      modifies server
      ensures count < 1 ==> r == Failure(Argument(CountNotPositive)) && server.db == old(server.db)
      ensures count >= 1 ==>
        var out := Transition(config, Lookup(old(server.db), Key()), count, clock);
        server.db == Put(old(server.db), Key(), out.0) && r == out.1
    {
      var check := CheckCountArgument(count);
      if check.Some? {
        return Failure(Argument(check.value));
      }
      var parameters := GetOrderedParameters(count, clock);
      if parameters.Failure? {
        assert false;
      }
      var values := parameters.value[..];
      var slot := Lookup(server.db, Key());
      match config
      case FixedWindow(w) =>
        WindowArgsRoundTrip(config, count, clock);
        var args := BindWindowArgs(parameterNameLookup, values, w.hasExpirationProvider).value;
        var out := FixedWindowLimiter.RunScript(slot, args, w.recordOnlyOnSuccess);
        server.db := Put(server.db, Key(), out.slot);
        r := LiftReply(out.reply, FixedWindowLimiter.Response);
      case SlidingWindow(w) =>
        WindowArgsRoundTrip(config, count, clock);
        var args := BindWindowArgs(parameterNameLookup, values, w.hasExpirationProvider).value;
        var out := SlidingWindowLimiter.RunScript(slot, args, w.recordOnlyOnSuccess);
        server.db := Put(server.db, Key(), out.slot);
        r := LiftReply(out.reply, reply => SlidingWindowLimiter.Response(reply, count));
      case TokenBucket(b) =>
        BucketArgsRoundTrip(config, count, clock);
        var args := BindBucketArgs(parameterNameLookup, values).value;
        var out := TokenBucketLimiter.RunScript(slot, args, b.isEmptyOnStart);
        server.db := Put(server.db, Key(), out.slot);
        r := LiftReply(out.reply, TokenBucketLimiter.Response);
    }

    /** `Delete`: the key (already checked at construction) is removed; the reply says whether it existed. */
    method Delete(server: Server) returns (deleted: bool)
      requires Valid()
      modifies server
      ensures deleted <==> Key() in old(server.db)
      ensures server.db == Put(old(server.db), Key(), None)
    {
      assert CheckKeyArgument(config.Common().key).None?;
      deleted := Key() in server.db;
      server.db := Put(server.db, Key(), None);
    }

    /** `Count`: reads the key and changes nothing. */
    method Count(server: Server) returns (r: Result<Option<int>, StoreError>)
      requires Valid()
      ensures r == CountOf(config, Lookup(server.db, Key()))
    {
      var slot := Lookup(server.db, Key());
      if config.SlidingWindow? {
        r := SlidingWindowLimiter.Count(slot);
      } else {
        r := StringCount(slot);
      }
    }
  }

  /**
   * The C# constructor in full: register the slots and normalise the script, then check
   * the settings (a rejection leaves the database untouched), then repair the key.
   */
  method Create(config: Config, scriptText: string, server: Server) returns (r: Result<Limiter, ArgumentError>)
    modifies server
    ensures r.Failure? <==> CheckArguments(config).Some?
    ensures r.Failure? ==> r.error == CheckArguments(config).value && server.db == old(server.db)
    ensures r.Success? ==>
      && fresh(r.value) && r.value.Valid() && r.value.config == config
      && r.value.limitScript == CollapseWhitespace(scriptText)
      && server.db == Put(old(server.db), r.value.Key(), Setup(config, Lookup(old(server.db), r.value.Key())))
  {
    var limiter := new Limiter(config, scriptText);
    var check := CheckArguments(config);
    if check.Some? {
      return Failure(check.value);
    }
    limiter.InitialSetup(server);
    return Success(limiter);
  }
}
