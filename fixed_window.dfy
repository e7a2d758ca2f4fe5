/**
 * The fixed-window algorithm: one string key holds the number of requests admitted in the
 * current window, and the key's expiry ends the window.
 */
module FixedWindowLimiter {
  import opened Wrappers
  import opened Decimal
  import opened RedisStore
  import opened Parameters

  // ---------------------------------------------------------------------------
  // Construction-time repair of the key
  // ---------------------------------------------------------------------------

  /** A value the counter script can work on: a string that is not a JSON document. */
  predicate UsableAsCounter(v: Value) {
    v.Str? && (|v.text| == 0 || v.text[0] != '{')
  }

  /**
   * The setup script: a key of another type, or a string starting with '{' (a bucket
   * document), is deleted; anything else is left as it is.
   */
  function InitialSetup(s: Slot): (r: Slot)
    ensures r == s || r == None
    ensures r == None <==> s.None? || !UsableAsCounter(s.value.value)
  {
    if s.None? then s
    else if TypeName(s) != "string" then None
    else
      match FirstChar(Get(s).value)
      case Some(c) => if c == '{' then None else s
      case None => s
  }

  /** Running the setup a second time changes nothing. */
  lemma InitialSetupIdempotent(s: Slot)
    ensures InitialSetup(InitialSetup(s)) == InitialSetup(s)
  {
  }

  // ---------------------------------------------------------------------------
  // The counter script
  // ---------------------------------------------------------------------------

  /** `tonumber(GET key) or 0`. */
  function CountBefore(got: StringReply): int {
    match ToNumber(got)
    case Some(n) => n
    case None => 0
  }

  /** The expiry is set only when the counter now equals the increment. */
  function ExpireIfFirst(s: Slot, after: int, args: WindowArgs): Result<Slot, StoreError> {
    if after == args.inc then Expire(s, WindowExpiry(args)) else Success(s)
  }

  /**
   * The counter script on the key's slot: read the counter, increment it unless the
   * gate refuses, set the expiry on a first increment, and reply
   * `[addedCount, activeAfter]`. An EXPIRE that fails comes after the increment, which
   * Redis keeps.
   */
  function Script(s: Slot, args: WindowArgs, gated: bool): Outcome<WindowReply> {
    match Get(s)
    case Failure(e) => Outcome(s, Failure(e))
    case Success(got) =>
      var before := CountBefore(got);
      if gated && args.rate - before - args.inc < 0 then
        match ExpireIfFirst(s, 0, args)
        case Failure(e) => Outcome(s, Failure(e))
        case Success(s') => Outcome(s', Success(WindowReply(0, 0)))
      else
        match IncrBy(s, args.inc)
        case Failure(e) => Outcome(s, Failure(e))
        case Success((s', after)) =>
          match ExpireIfFirst(s', after, args)
          case Failure(e) => Outcome(s', Failure(e))
          case Success(s'') => Outcome(s'', Success(WindowReply(after - before, after)))
  }

  /**
   * A failed script leaves the key as it was, with one exception: when EXPIRE refuses
   * interval seconds that are not an integer, the increment made before it stays.
   */
  lemma ScriptErrorKeepsOnlyIncrement(s: Slot, args: WindowArgs, gated: bool)
    ensures var out := Script(s, args, gated);
      out.reply.Failure? ==>
        || out.slot == s
        || (&& WindowExpiry(args).None? && out.reply.error == NotAnInteger
            && IncrBy(s, args.inc).Success? && out.slot == IncrBy(s, args.inc).value.0)
  {
  }

  /** The script step by step, with its locals, as the server runs it. */
  method RunScript(s: Slot, args: WindowArgs, gated: bool) returns (r: Outcome<WindowReply>)
    ensures r == Script(s, args, gated)
  {
    var slot := s;
    var addedCount := 0;
    var got := Get(slot);
    if got.Failure? {
      return Outcome(s, Failure(got.error));
    }
    var activeBefore := CountBefore(got.value);
    var activeAfter := 0;
    var admitted := true;
    if gated {
      var difference := args.rate - activeBefore - args.inc;
      admitted := difference >= 0;
    }
    if admitted {
      var incr := IncrBy(slot, args.inc);
      if incr.Failure? {
        return Outcome(s, Failure(incr.error));
      }
      slot := incr.value.0;
      activeAfter := incr.value.1;
      addedCount := activeAfter - activeBefore;
    }
    if activeAfter == args.inc {
      var expired := Expire(slot, WindowExpiry(args));
      if expired.Failure? {
        return Outcome(slot, Failure(expired.error));
      }
      slot := expired.value;
    }
    return Outcome(slot, Success(WindowReply(addedCount, activeAfter)));
  }

  /** `GetRateLimitResponse`: success when something was added; the active count is the counter after. */
  function Response(reply: WindowReply): (resp: RateLimitResponse)
    ensures resp.isSuccessful <==> reply.addedCount > 0
    ensures resp.activeCount == reply.active
  {
    RateLimitResponse(reply.active, reply.addedCount > 0)
  }

  // ---------------------------------------------------------------------------
  // What the script does to a counter
  // ---------------------------------------------------------------------------

  /** The counter a slot holds: 0 for a missing key, the number a canonical integer string spells. */
  function Counter(s: Slot): Option<int> {
    match s
    case None => Some(0)
    case Some(e) =>
      if e.value.Str? && IsCanonicalInteger(e.value.text) then ParseDecimal(e.value.text) else None
  }

  function TtlOf(s: Slot): Option<Expiry> {
    if s.None? then None else s.value.ttl
  }

  /** Whether the gate lets a call through. */
  predicate Admits(c: int, args: WindowArgs, gated: bool) {
    !gated || c + args.inc <= args.rate
  }

  lemma GetOnCounter(s: Slot, c: int)
    requires Counter(s) == Some(c)
    ensures Get(s).Success? && CountBefore(Get(s).value) == c
    ensures IncrBy(s, 0).Success?
    ensures forall inc :: IncrBy(s, inc) == Success((Some(Entry(Str(IntToString(c + inc)), TtlOf(s))), c + inc))
  {
    if s.Some? {
      ParseIntToString(c);
      assert IntToString(c) == s.value.value.text;
    }
  }

  /** The counter after an admitted call, before any expiry is applied. */
  function Incremented(s: Slot, c: int, args: WindowArgs): Slot {
    Some(Entry(Str(IntToString(c + args.inc)), TtlOf(s)))
  }

  /** The script on a counter, written out: the increment when admitted, `[0, 0]` when refused. */
  lemma ScriptOnCounterUnfolded(s: Slot, args: WindowArgs, gated: bool, c: int)
    requires Counter(s) == Some(c)
    ensures Script(s, args, gated) ==
      if Admits(c, args, gated) then
        match ExpireIfFirst(Incremented(s, c, args), c + args.inc, args)
        case Failure(e) => Outcome(Incremented(s, c, args), Failure(e))
        case Success(s') => Outcome(s', Success(WindowReply(args.inc, c + args.inc)))
      else
        match ExpireIfFirst(s, 0, args)
        case Failure(e) => Outcome(s, Failure(e))
        case Success(s') => Outcome(s', Success(WindowReply(0, 0)))
  {
    GetOnCounter(s, c);
  }

  /**
   * The script on a slot holding counter `c`, for a positive increment.
   *  - Refused by the gate: the reply is `[0, 0]` and the key is untouched.
   *  - Admitted onto a running window (`c != 0`): the counter becomes `c + inc` with its
   *    expiry kept, and the reply is `[inc, c + inc]`.
   *  - Admitted as the window's first increment (`c == 0`): the counter becomes `inc` and
   *    the expiry is set. EXPIRE refusing non-integer seconds fails the script and leaves
   *    the counter without a new expiry; EXPIRE with seconds that are not positive deletes
   *    the key; otherwise the key carries the window's expiry.
   */
  lemma ScriptOnCounter(s: Slot, args: WindowArgs, gated: bool, c: int)
    requires Counter(s) == Some(c) && args.inc >= 1
    ensures var out := Script(s, args, gated);
      if !Admits(c, args, gated) then
        out == Outcome(s, Success(WindowReply(0, 0)))
      else if c != 0 then
        && out.reply == Success(WindowReply(args.inc, c + args.inc))
        && out.slot.Some? && Counter(out.slot) == Some(c + args.inc) && TtlOf(out.slot) == TtlOf(s)
      else if WindowExpiry(args).None? then
        && out.reply == Failure(NotAnInteger)
        && out.slot.Some? && Counter(out.slot) == Some(args.inc) && TtlOf(out.slot) == TtlOf(s)
      else
        && out.reply == Success(WindowReply(args.inc, args.inc))
        && (if DeletesAtOnce(WindowExpiry(args).value) then out.slot == None
            else out.slot.Some? && Counter(out.slot) == Some(args.inc) && TtlOf(out.slot) == WindowExpiry(args))
  {
    ScriptOnCounterUnfolded(s, args, gated, c);
    if Admits(c, args, gated) {
      ParseIntToString(c + args.inc);
    }
  }

  /**
   * The response to a call on a counter, for a positive increment: the script fails
   * exactly on a window's first increment with non-integer seconds; otherwise the call
   * succeeds with the new counter when admitted and reports `(0, false)` when refused.
   */
  lemma ResponseOnCounter(s: Slot, args: WindowArgs, gated: bool, c: int)
    requires Counter(s) == Some(c) && args.inc >= 1
    ensures Script(s, args, gated).reply.Failure? <==> Admits(c, args, gated) && c == 0 && WindowExpiry(args).None?
    ensures Script(s, args, gated).reply.Success? ==>
      var resp := Response(Script(s, args, gated).reply.value);
      resp == if Admits(c, args, gated) then RateLimitResponse(c + args.inc, true) else RateLimitResponse(0, false)
  {
    ScriptOnCounter(s, args, gated, c);
  }

  /** In gated mode a counter at or below the rate stays at or below the rate, whether or not the script fails. */
  lemma GatedCounterWithinRate(s: Slot, args: WindowArgs, c: int)
    requires Counter(s) == Some(c) && c <= args.rate && args.inc >= 1
    ensures var s' := Script(s, args, true).slot;
      Counter(s').Some? && Counter(s').value <= args.rate
  {
    ScriptOnCounter(s, args, true, c);
  }

  /** The setup never deletes a counter the script keeps. */
  lemma InitialSetupKeepsCounter(s: Slot)
    requires Counter(s).Some?
    ensures InitialSetup(s) == s
  {
    if s.Some? {
      var t := s.value.value.text;
      var n := ParseDecimal(t).value;
      assert IntToString(n) == t;
      if n >= 0 {
        NatTextHasNoMinus(n, 0);
      }
    }
  }

  /** `Count` reads the counter back. */
  lemma CountReadsCounter(s: Slot, c: int)
    requires Counter(s) == Some(c) && MinLong <= c <= MaxLong
    ensures StringCount(s) == Success(Some(c))
  {
    if s.Some? {
      assert IntToString(c) == s.value.value.text by { ParseIntToString(c); }
      ParseLongOfIntToString(c);
    }
  }

  // ---------------------------------------------------------------------------
  // A run of calls
  // ---------------------------------------------------------------------------

  /** `n` calls with the same arguments, and the responses they get, in order. */
  function Calls(s: Slot, args: WindowArgs, gated: bool, n: nat): Result<(Slot, seq<RateLimitResponse>), StoreError> {
    if n == 0 then Success((s, []))
    else
      match Calls(s, args, gated, n - 1)
      case Failure(e) => Failure(e)
      case Success((s1, resps)) =>
        var out := Script(s1, args, gated);
        match out.reply
        case Failure(e) => Failure(e)
        case Success(reply) => Success((out.slot, resps + [Response(reply)]))
  }

  /**
   * Unit calls on a missing key in gated mode, with an expiry Redis records: the first
   * `rate` succeed with active counts 1, 2, …, rate; every later one fails with active
   * count 0, and the counter stays at the rate.
   */
  lemma {:induction false} GatedUnitCalls(args: WindowArgs, n: nat)
    requires args.inc == 1 && args.rate >= 0 && ExpiryKeepsKey(args)
    ensures Calls(None, args, true, n).Success?
    ensures var (s, resps) := Calls(None, args, true, n).value;
      && Counter(s) == Some(if n <= args.rate then n else args.rate)
      && |resps| == n
      && forall i | 0 <= i < n ::
           resps[i] == if i < args.rate then RateLimitResponse(i + 1, true) else RateLimitResponse(0, false)
  {
    if n > 0 {
      GatedUnitCalls(args, n - 1);
      var (s1, resps1) := Calls(None, args, true, n - 1).value;
      var c := if n - 1 <= args.rate then n - 1 else args.rate;
      ScriptOnCounter(s1, args, true, c);
      var out := Script(s1, args, true);
      if n - 1 < args.rate {
        assert Admits(c, args, true);
        assert out.reply == Success(WindowReply(1, c + 1)) && Counter(out.slot) == Some(c + 1);
      } else {
        assert out == Outcome(s1, Success(WindowReply(0, 0)));
      }
      assert Calls(None, args, true, n).value == (out.slot, resps1 + [Response(out.reply.value)]);
    }
  }

  /**
   * Unit calls on a missing key in ungated mode, with an expiry Redis records: every call
   * succeeds and the counter counts them all.
   */
  lemma {:induction false} UngatedUnitCalls(args: WindowArgs, n: nat)
    requires args.inc == 1 && ExpiryKeepsKey(args)
    ensures Calls(None, args, false, n).Success?
    ensures var (s, resps) := Calls(None, args, false, n).value;
      && Counter(s) == Some(n)
      && |resps| == n
      && forall i | 0 <= i < n :: resps[i] == RateLimitResponse(i + 1, true)
  {
    if n > 0 {
      UngatedUnitCalls(args, n - 1);
      var (s1, resps1) := Calls(None, args, false, n - 1).value;
      ResponseOnCounter(s1, args, false, n - 1);
      ScriptOnCounter(s1, args, false, n - 1);
      var out := Script(s1, args, false);
      assert Calls(None, args, false, n).value == (out.slot, resps1 + [Response(out.reply.value)]);
    }
  }

  /**
   * An interval of zero seconds or less: each call is a first increment whose EXPIRE
   * deletes the counter, so every unit call succeeds with active count 1 and nothing is
   * ever limited.
   */
  lemma {:induction false} NonPositiveIntervalNeverLimits(args: WindowArgs, gated: bool, n: nat)
    requires args.inc == 1 && args.rate >= 1
    requires WindowExpiry(args).Some? && DeletesAtOnce(WindowExpiry(args).value)
    ensures Calls(None, args, gated, n).Success?
    ensures var (s, resps) := Calls(None, args, gated, n).value;
      && s == None
      && |resps| == n
      && forall i | 0 <= i < n :: resps[i] == RateLimitResponse(1, true)
  {
    if n > 0 {
      NonPositiveIntervalNeverLimits(args, gated, n - 1);
      var (s1, resps1) := Calls(None, args, gated, n - 1).value;
      ScriptOnCounter(s1, args, gated, 0);
      var out := Script(s1, args, gated);
      assert Calls(None, args, gated, n).value == (out.slot, resps1 + [Response(out.reply.value)]);
    }
  }

  /**
   * Interval seconds that are not an integer: the window's first call fails at EXPIRE
   * after its increment, so the counter is left without an expiry, and the next admitted
   * call succeeds without setting one. The window never closes.
   */
  lemma FractionalIntervalNeverExpires(args: WindowArgs, gated: bool)
    requires args.inc >= 1 && WindowExpiry(args).None? && Admits(0, args, gated)
    ensures var first := Script(None, args, gated);
      && first.reply == Failure(NotAnInteger)
      && Counter(first.slot) == Some(args.inc) && first.slot.Some? && TtlOf(first.slot) == None
      && var second := Script(first.slot, args, gated);
         Admits(args.inc, args, gated) ==>
           && second.reply == Success(WindowReply(args.inc, 2 * args.inc))
           && Counter(second.slot) == Some(2 * args.inc) && TtlOf(second.slot) == None
  {
    ScriptOnCounter(None, args, gated, 0);
    var first := Script(None, args, gated);
    ScriptOnCounter(first.slot, args, gated, args.inc);
  }
}
