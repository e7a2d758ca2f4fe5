/**
 * The token-bucket algorithm: one string key holds the document
 * `{NextRefillTicks, TokenCount}`. Each call refills the bucket lazily when its refill
 * instant has come, clamps the tokens to the capacity, takes the requested tokens when
 * there are enough, and writes the document back.
 */
module TokenBucketLimiter {
  import opened Wrappers
  import opened Decimal
  import opened RedisStore
  import opened Parameters
  import FixedWindowLimiter

  // ---------------------------------------------------------------------------
  // Construction-time repair of the key
  // ---------------------------------------------------------------------------

  /** A value the bucket script can keep: a string that is empty or starts with '{'. */
  predicate UsableAsBucket(v: Value) {
    v.Doc? || (v.Str? && (|v.text| == 0 || v.text[0] == '{'))
  }

  /**
   * The setup script: a key of another type, or a non-empty string that does not start
   * with '{', is deleted; anything else is left as it is.
   */
  function InitialSetup(s: Slot): (r: Slot)
    ensures r == s || r == None
    ensures r == None <==> s.None? || !UsableAsBucket(s.value.value)
  {
    if s.None? then s
    else if TypeName(s) != "string" then None
    else
      match FirstChar(Get(s).value)
      case Some(c) => if c != '{' then None else s
      case None => s
  }

  lemma InitialSetupIdempotent(s: Slot)
    ensures InitialSetup(InitialSetup(s)) == InitialSetup(s)
  {
  }

  /**
   * On a key holding a non-empty string the bucket's setup and the fixed window's
   * setup are complements: exactly one of them deletes it.
   */
  lemma SetupComplementsFixedWindow(s: Slot)
    requires s.Some? && (s.value.value.Doc? || (s.value.value.Str? && |s.value.value.text| > 0))
    ensures (InitialSetup(s) == None) <==> (FixedWindowLimiter.InitialSetup(s) != None)
  {
  }

  // ---------------------------------------------------------------------------
  // The arithmetic of one call (Lua numbers, with real division)
  // ---------------------------------------------------------------------------

  function Min(a: real, b: real): real { if b < a then b else a }

  function Max(a: real, b: real): real { if b > a then b else a }

  /** What the bucket script returns: the tokens left and whether the call took its tokens. */
  datatype BucketReply = BucketReply(tokens: real, isSuccessful: bool)

  /** The document a missing key starts from: due one span from now, full unless empty on start. */
  function InitialDoc(args: BucketArgs, emptyOnStart: bool): (d: BucketDoc)
    ensures d.nextRefillTicks == args.now as real + args.intervalTicks as real
    ensures d.tokenCount == if emptyOnStart then 0.0 else args.capacity as real
  {
    BucketDoc((args.intervalTicks + args.now) as real, if emptyOnStart then 0.0 else args.capacity as real)
  }

  /**
   * `cjson.decode` of the key's string, or of the initial document when the key is missing.
   * A key of another type makes GET fail; a string that is not a bucket document makes
   * the decode (or the reads of its fields) fail.
   */
  function ReadDoc(s: Slot, args: BucketArgs, emptyOnStart: bool): (r: Result<BucketDoc, StoreError>)
    ensures s.None? ==> r == Success(InitialDoc(args, emptyOnStart))
    ensures s.Some? && s.value.value.Doc? ==> r == Success(s.value.value.doc)
    ensures s.Some? && s.value.value.Str? ==> r == Failure(NotABucketDocument)
    ensures s.Some? && !IsStringValue(s.value.value) ==> r == Failure(WrongType)
  {
    match Get(s)
    case Failure(e) => Failure(e)
    case Success(Nil) => Success(InitialDoc(args, emptyOnStart))
    case Success(Json(d)) => Success(d)
    case Success(Text(_)) => Failure(NotABucketDocument)
  }

  /** Whether the refill instant has come. */
  predicate Due(next: real, args: BucketArgs) {
    args.now as real >= next
  }

  /**
   * The lazy refill: when due, the number of spans elapsed (real division, at least one)
   * moves the refill instant on and earns `refillRate` tokens per span. A zero span
   * makes the quotient NaN, which the encoder refuses, so there is no result.
   */
  function Refill(next: real, args: BucketArgs): (r: Option<(real, real)>)
    ensures r.None? <==> Due(next, args) && args.intervalTicks == 0
    ensures r.Some? && !Due(next, args) ==> r.value == (next, 0.0)
    ensures r.Some? && Due(next, args) && args.intervalTicks > 0 ==>
      r.value.0 > next && r.value.0 >= args.now as real
    ensures r.Some? && Due(next, args) && args.refillRate >= 0 ==> r.value.1 >= args.refillRate as real
  {
    if Due(next, args) then
      if args.intervalTicks == 0 then None
      else
        var span := args.intervalTicks as real;
        var elapsed := args.now as real - next;
        var amount := Max(elapsed / span, 1.0);
        RefillBounds(elapsed, span, amount, args.refillRate as real);
        Some((next + span * amount, args.refillRate as real * amount))
    else Some((next, 0.0))
  }

  /**
   * The settings checks reject neither a negative span nor a negative rate. A due refill
   * over a negative span counts one span, so it moves the refill instant one span earlier;
   * a negative rate makes every due refill a loss of at least the rate.
   */
  lemma RefillOutsideGuards(next: real, args: BucketArgs)
    requires Due(next, args) && args.intervalTicks != 0
    ensures Refill(next, args).Some?
    ensures args.intervalTicks < 0 ==>
      Refill(next, args).value == (next + args.intervalTicks as real, args.refillRate as real)
    ensures args.refillRate < 0 ==> Refill(next, args).value.1 <= args.refillRate as real
  {
    var span := args.intervalTicks as real;
    var amount := Max((args.now as real - next) / span, 1.0);
    RefillBounds(args.now as real - next, span, amount, args.refillRate as real);
  }

  lemma RefillBounds(elapsed: real, span: real, amount: real, rate: real)
    requires span != 0.0 && elapsed >= 0.0 && amount == Max(elapsed / span, 1.0)
    ensures span > 0.0 ==> span * amount >= elapsed && span * amount > 0.0
    ensures span < 0.0 ==> amount == 1.0
    ensures rate >= 0.0 ==> rate * amount >= rate
    ensures rate < 0.0 ==> rate * amount <= rate
  {
    if span > 0.0 {
      assert span * (elapsed / span) == elapsed;
      assert amount >= elapsed / span;
      assert span * amount >= span * (elapsed / span);
    } else {
      assert span * (elapsed / span) == elapsed;
      assert elapsed / span <= 0.0;
    }
    assert amount >= 1.0;
    if rate < 0.0 {
      assert rate * (amount - 1.0) <= 0.0;
      assert rate * amount == rate + rate * (amount - 1.0);
    }
  }

  /** The tokens after a refill: the earned tokens (at most a capacity's worth) added, then clamped to `[0, capacity]`. */
  function Clamp(tokens: real, refill: real, capacity: real): (t: real)
    ensures 0.0 <= t
    ensures capacity >= 0.0 ==> t <= capacity
    ensures 0.0 <= tokens + Min(capacity, refill) <= capacity ==> t == tokens + Min(capacity, refill)
  {
    Max(0.0, Min(tokens + Min(capacity, refill), capacity))
  }

  /** Taking `inc` tokens: granted exactly when there are enough, and then exactly `inc` go. */
  function Take(tokens: real, inc: real): (r: (real, bool))
    ensures r.1 <==> inc <= tokens
    ensures r.1 ==> r.0 == tokens - inc
    ensures !r.1 ==> r.0 == tokens
  {
    if inc <= tokens then (tokens - inc, true) else (tokens, false)
  }

  /**
   * The bucket script on the key's slot: read (or start) the document, refill it when
   * due, clamp, take the tokens when there are enough, SET the document back (which
   * clears any expiry) and reply `[tokens, isSuccessful]`.
   */
  function Script(s: Slot, args: BucketArgs, emptyOnStart: bool): Outcome<BucketReply> {
    match ReadDoc(s, args, emptyOnStart)
    case Failure(e) => Outcome(s, Failure(e))
    case Success(d) =>
      match Refill(d.nextRefillTicks, args)
      case None => Outcome(s, Failure(CannotEncode))
      case Some((next, refill)) =>
        var available := Clamp(d.tokenCount, refill, args.capacity as real);
        var (left, ok) := Take(available, args.inc as real);
        Outcome(SetValue(Doc(BucketDoc(next, left))), Success(BucketReply(left, ok)))
  }

  /** The script step by step, reassigning its locals as the server runs it. */
  method RunScript(s: Slot, args: BucketArgs, emptyOnStart: bool) returns (r: Outcome<BucketReply>)
    ensures r == Script(s, args, emptyOnStart)
  {
    var capacity := args.capacity as real;
    var currentTicks := args.now as real;
    var refillSpanTicks := args.intervalTicks as real;
    var refillRate := args.refillRate as real;
    var incrementAmount := args.inc as real;
    var read := ReadDoc(s, args, emptyOnStart);
    if read.Failure? {
      return Outcome(s, Failure(read.error));
    }
    var nextRefillTicks := read.value.nextRefillTicks;
    var tokensAvailable := read.value.tokenCount;
    var refillTokenCount := 0.0;
    if currentTicks >= nextRefillTicks {
      if refillSpanTicks == 0.0 {
        return Outcome(s, Failure(CannotEncode));
      }
      var refillAmount := Max((currentTicks - nextRefillTicks) / refillSpanTicks, 1.0);
      nextRefillTicks := nextRefillTicks + refillSpanTicks * refillAmount;
      refillTokenCount := refillRate * refillAmount;
    }
    assert Refill(read.value.nextRefillTicks, args) == Some((nextRefillTicks, refillTokenCount));
    var refillTokens := Min(capacity, refillTokenCount);
    tokensAvailable := Max(0.0, Min(tokensAvailable + refillTokens, capacity));
    var isSuccessful := false;
    if incrementAmount <= tokensAvailable {
      tokensAvailable := tokensAvailable - incrementAmount;
      isSuccessful := true;
    }
    var slot := SetValue(Doc(BucketDoc(nextRefillTicks, tokensAvailable)));
    return Outcome(slot, Success(BucketReply(tokensAvailable, isSuccessful)));
  }

  /** A Lua number returned to Redis becomes an integer reply by truncation toward zero. */
  function Truncate(x: real): (n: int)
    ensures x >= 0.0 ==> n as real <= x < n as real + 1.0
    ensures x < 0.0 ==> n as real - 1.0 < x <= n as real
  {
    if x >= 0.0 then x.Floor else -((-x).Floor)
  }

  /** `GetRateLimitResponse`: the tokens left (as an integer) and whether the call took its tokens. */
  function Response(reply: BucketReply): (resp: RateLimitResponse)
    ensures resp.isSuccessful == reply.isSuccessful
    ensures reply.tokens >= 0.0 ==> resp.activeCount == reply.tokens.Floor
    ensures reply.tokens < 0.0 ==> resp.activeCount == -((-reply.tokens).Floor)
  {
    RateLimitResponse(Truncate(reply.tokens), reply.isSuccessful)
  }

  // ---------------------------------------------------------------------------
  // What the script promises
  // ---------------------------------------------------------------------------

  /** The script fails exactly on a key of another type, on a string that is not a document, and on a due refill with a zero span; a failure writes nothing. */
  lemma ScriptErrors(s: Slot, args: BucketArgs, emptyOnStart: bool)
    ensures var out := Script(s, args, emptyOnStart);
      && (out.reply == Failure(WrongType) <==> s.Some? && !IsStringValue(s.value.value))
      && (out.reply == Failure(NotABucketDocument) <==> s.Some? && s.value.value.Str?)
      && (out.reply == Failure(CannotEncode) <==>
            ReadDoc(s, args, emptyOnStart).Success? && args.intervalTicks == 0
            && Due(ReadDoc(s, args, emptyOnStart).value.nextRefillTicks, args))
      && (out.reply.Failure? ==> out.slot == s)
  {
  }

  /**
   * A successful call writes the document back on every call, whether or not the tokens
   * were granted, with no expiry. The tokens after the refill lie in `[0, capacity]`;
   * the call is granted exactly when `inc` of them are there, takes exactly `inc` when
   * granted and nothing otherwise, and the reply reports what was written.
   */
  lemma ScriptOnDoc(s: Slot, args: BucketArgs, emptyOnStart: bool)
    requires ReadDoc(s, args, emptyOnStart).Success?
    requires Refill(ReadDoc(s, args, emptyOnStart).value.nextRefillTicks, args).Some?
    ensures var d := ReadDoc(s, args, emptyOnStart).value;
      var (next, refill) := Refill(d.nextRefillTicks, args).value;
      var available := Clamp(d.tokenCount, refill, args.capacity as real);
      var out := Script(s, args, emptyOnStart);
      && out.reply.Success?
      && out.slot == Some(Entry(Doc(BucketDoc(next, out.reply.value.tokens)), None))
      && (out.reply.value.isSuccessful <==> args.inc as real <= available)
      && out.reply.value.tokens == (if out.reply.value.isSuccessful then available - args.inc as real else available)
      && 0.0 <= available && (args.capacity >= 0 ==> available <= args.capacity as real)
  {
  }

  /** With a non-negative capacity and a positive increment the tokens written stay in `[0, capacity]`. */
  lemma TokensWithinCapacity(s: Slot, args: BucketArgs, emptyOnStart: bool)
    requires args.capacity >= 0 && args.inc >= 1
    ensures var out := Script(s, args, emptyOnStart);
      out.reply.Success? ==>
        && 0.0 <= out.reply.value.tokens <= args.capacity as real
        && out.slot.Some? && out.slot.value.value.Doc?
        && out.slot.value.value.doc.tokenCount == out.reply.value.tokens
  {
  }

  /** A refill earning at least a capacity's worth of tokens fills the bucket, however empty it was. */
  lemma DueRefillFillsBucket(d: BucketDoc, args: BucketArgs)
    requires Due(d.nextRefillTicks, args) && args.intervalTicks > 0
    requires 0 <= args.capacity <= args.refillRate && d.tokenCount >= 0.0
    ensures Refill(d.nextRefillTicks, args).Some?
    ensures Clamp(d.tokenCount, Refill(d.nextRefillTicks, args).value.1, args.capacity as real) == args.capacity as real
  {
  }

  /** Before the refill instant nothing is earned and the refill instant stays put. */
  lemma NotDueKeepsDoc(d: BucketDoc, args: BucketArgs)
    requires !Due(d.nextRefillTicks, args) && 0.0 <= d.tokenCount && (args.capacity as real) >= d.tokenCount
    ensures Refill(d.nextRefillTicks, args) == Some((d.nextRefillTicks, 0.0))
    ensures Clamp(d.tokenCount, 0.0, args.capacity as real) == d.tokenCount
  {
  }

  /** `Count` on a bucket: the document's text never reads as a number, so it is null. */
  lemma CountOfBucketIsNull(s: Slot, args: BucketArgs, emptyOnStart: bool)
    requires Script(s, args, emptyOnStart).reply.Success?
    ensures StringCount(Script(s, args, emptyOnStart).slot) == Success(None)
  {
  }

  // ---------------------------------------------------------------------------
  // A run of calls
  // ---------------------------------------------------------------------------

  /** `n` calls with the same arguments, and the responses they get, in order. */
  function Calls(s: Slot, args: BucketArgs, emptyOnStart: bool, n: nat): Result<(Slot, seq<RateLimitResponse>), StoreError> {
    if n == 0 then Success((s, []))
    else
      match Calls(s, args, emptyOnStart, n - 1)
      case Failure(e) => Failure(e)
      case Success((s1, resps)) =>
        var out := Script(s1, args, emptyOnStart);
        match out.reply
        case Failure(e) => Failure(e)
        case Success(reply) => Success((out.slot, resps + [Response(reply)]))
  }

  /** One unit call on a document that is not due: one token goes when there is one. */
  lemma UnitCallNotDue(next: real, tokens: nat, args: BucketArgs, emptyOnStart: bool)
    requires args.inc == 1 && !Due(next, args) && tokens <= args.capacity
    ensures var out := Script(Some(Entry(Doc(BucketDoc(next, tokens as real)), None)), args, emptyOnStart);
      && out.reply.Success?
      && out.slot == Some(Entry(Doc(BucketDoc(next, (if tokens > 0 then tokens - 1 else 0) as real)), None))
      && Response(out.reply.value) == RateLimitResponse(if tokens > 0 then tokens - 1 else 0, tokens > 0)
  {
    var d := BucketDoc(next, tokens as real);
    NotDueKeepsDoc(d, args);
  }

  /** The key after `n` unit calls at one instant on a full bucket that was missing. */
  function Drained(args: BucketArgs, n: nat): Slot {
    if n == 0 then None
    else Some(Entry(Doc(BucketDoc(InitialDoc(args, false).nextRefillTicks, (if n <= args.capacity then args.capacity - n else 0) as real)), None))
  }

  /** One more unit call at the same instant takes the bucket from `Drained(args, k)` to `Drained(args, k + 1)`. */
  lemma DrainedStep(args: BucketArgs, k: nat)
    requires args.inc == 1 && args.capacity >= 0 && args.intervalTicks > 0
    ensures var out := Script(Drained(args, k), args, false);
      && out.reply.Success?
      && out.slot == Drained(args, k + 1)
      && Response(out.reply.value) ==
           if k < args.capacity then RateLimitResponse(args.capacity - k - 1, true) else RateLimitResponse(0, false)
  {
    var next := InitialDoc(args, false).nextRefillTicks;
    var left: nat := if k <= args.capacity then args.capacity - k else 0;
    var before := Some(Entry(Doc(BucketDoc(next, left as real)), None));
    if k == 0 {
      FirstCallReadsFullBucket(args);
    } else {
      assert Drained(args, k) == before;
    }
    UnitCallNotDue(next, left, args, false);
  }

  /**
   * Unit calls at one instant on a missing key with a full bucket and a positive span:
   * the first `capacity` calls succeed, reporting `capacity - 1`, …, 0 tokens left;
   * every later call fails reporting 0.
   */
  lemma {:induction false} FullBucketUnitCalls(args: BucketArgs, n: nat)
    requires args.inc == 1 && args.capacity >= 0 && args.intervalTicks > 0
    ensures Calls(None, args, false, n).Success?
    ensures var (s, resps) := Calls(None, args, false, n).value;
      && s == Drained(args, n)
      && |resps| == n
      && forall i | 0 <= i < n ::
           resps[i] == if i < args.capacity then RateLimitResponse(args.capacity - i - 1, true) else RateLimitResponse(0, false)
  {
    if n > 0 {
      FullBucketUnitCalls(args, n - 1);
      DrainedStep(args, n - 1);
      var (s1, resps1) := Calls(None, args, false, n - 1).value;
      var out := Script(s1, args, false);
      var resps := resps1 + [Response(out.reply.value)];
      assert Calls(None, args, false, n) == Success((out.slot, resps));
      forall i | 0 <= i < n
        ensures resps[i] == if i < args.capacity then RateLimitResponse(args.capacity - i - 1, true) else RateLimitResponse(0, false)
      {
        if i < n - 1 {
          assert resps[i] == resps1[i];
        }
      }
    }
  }

  /**
   * On a missing key, with a positive span, the script works on the full initial
   * document as if it were stored.
   */
  lemma FirstCallReadsFullBucket(args: BucketArgs)
    requires args.intervalTicks > 0
    ensures Script(None, args, false) == Script(Some(Entry(Doc(InitialDoc(args, false)), None)), args, false)
  {
    assert ReadDoc(None, args, false) == ReadDoc(Some(Entry(Doc(InitialDoc(args, false)), None)), args, false);
  }
}
