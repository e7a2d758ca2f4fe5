/**
 * The sliding-window algorithm: a sorted set holds one member per admitted request,
 * scored by the request's time in ticks. Members older than the interval are evicted on
 * each call, and the members added at one score are named `score-1`, `score-2`, ….
 */
module SlidingWindowLimiter {
  import opened Wrappers
  import opened Decimal
  import opened RedisStore
  import opened Parameters

  // ---------------------------------------------------------------------------
  // Construction-time repair of the key
  // ---------------------------------------------------------------------------

  /** The setup script: a key of any type other than a sorted set is deleted. */
  function InitialSetup(s: Slot): (r: Slot)
    ensures r == s || r == None
    ensures r == None <==> s.None? || !s.value.value.ZSet?
  {
    if s.None? then s
    else if TypeName(s) != "zset" then None
    else s
  }

  lemma InitialSetupIdempotent(s: Slot)
    ensures InitialSetup(InitialSetup(s)) == InitialSetup(s)
  {
  }

  // ---------------------------------------------------------------------------
  // Member names
  // ---------------------------------------------------------------------------

  /** The member recorded for the `index`-th request at a score: `score .. '-' .. index`. */
  function MemberName(score: int, index: int): string {
    IntToString(score) + "-" + IntToString(index)
  }

  /** How many digits the text ends with. */
  function TrailingDigits(w: string): (n: nat)
    ensures n <= |w|
  {
    if |w| > 0 && IsDigit(w[|w| - 1]) then 1 + TrailingDigits(w[..|w| - 1]) else 0
  }

  lemma {:induction false} TrailingDigitsAfterDash(a: string, x: string)
    requires AllDigits(x)
    ensures TrailingDigits(a + "-" + x) == |x|
    decreases |x|
  {
    var w := a + "-" + x;
    if |x| > 0 {
      var x' := x[..|x| - 1];
      assert w[..|w| - 1] == a + "-" + x';
      TrailingDigitsAfterDash(a, x');
    }
  }

  /** Names with non-negative indexes are distinct: the score and the index can be read back. */
  lemma MemberNameInjective(a: int, i: int, b: int, j: int)
    requires i >= 0 && j >= 0 && MemberName(a, i) == MemberName(b, j)
    ensures a == b && i == j
  {
    var x, y := IntToString(i), IntToString(j);
    var w := MemberName(a, i);
    var L := |w|;
    TrailingDigitsAfterDash(IntToString(a), x);
    TrailingDigitsAfterDash(IntToString(b), y);
    assert |x| == |y|;
    assert x == w[L - |x|..] == y;
    assert IntToString(a) == w[..L - |x| - 1] == IntToString(b);
    IntToStringInjective(i, j);
    IntToStringInjective(a, b);
  }

  /** The names `score-lo` … `score-hi`. */
  function NameRange(score: int, lo: int, hi: int): set<string> {
    set j | lo <= j <= hi :: MemberName(score, j)
  }

  /** There are exactly `hi - lo + 1` of them. */
  lemma {:induction false} NameRangeSize(score: int, lo: nat, hi: int)
    requires lo <= hi + 1
    ensures |NameRange(score, lo, hi)| == hi - lo + 1
    decreases hi - lo
  {
    if lo <= hi {
      var name := MemberName(score, hi);
      assert NameRange(score, lo, hi) == NameRange(score, lo, hi - 1) + {name};
      if name in NameRange(score, lo, hi - 1) {
        var j :| lo <= j <= hi - 1 && MemberName(score, j) == name;
        MemberNameInjective(score, j, score, hi);
      }
      NameRangeSize(score, lo, hi - 1);
    } else {
      assert NameRange(score, lo, hi) == {};
    }
  }

  // ---------------------------------------------------------------------------
  // The invariant: the members at each score are named 1..count
  // ---------------------------------------------------------------------------

  /** The members of a sorted set scored exactly `score`. */
  function MembersAt(m: map<string, int>, score: int): set<string> {
    set k | k in m && m[k] == score
  }

  /** At every score, the members are `score-1` … `score-c`, where `c` is how many there are. */
  ghost predicate Indexed(m: map<string, int>) {
    forall score :: MembersAt(m, score) == NameRange(score, 1, |MembersAt(m, score)|)
  }

  /** A key the script can use without a name collision: missing, or an indexed sorted set. */
  ghost predicate IndexedSlot(s: Slot) {
    s.None? || (s.value.value.ZSet? && |s.value.value.members| > 0 && Indexed(s.value.value.members))
  }

  /** The number of requests recorded under the key. */
  function Card(s: Slot): nat {
    if s.Some? && s.value.value.ZSet? then |s.value.value.members| else 0
  }

  /** Eviction removes whole scores, so it keeps the invariant. */
  lemma RemoveScoreRangeIndexed(m: map<string, int>, min: int, max: int)
    requires Indexed(m)
    ensures Indexed(RemoveScoreRange(m, min, max))
  {
    var r := RemoveScoreRange(m, min, max);
    forall score
      ensures MembersAt(r, score) == NameRange(score, 1, |MembersAt(r, score)|)
    {
      if min <= score <= max {
        assert MembersAt(r, score) == {};
        assert NameRange(score, 1, 0) == {};
      } else {
        assert MembersAt(r, score) == MembersAt(m, score);
      }
    }
  }

  /** Map keys that are a subset have no more elements. */
  lemma RemoveScoreRangeSmaller(m: map<string, int>, min: int, max: int)
    ensures |RemoveScoreRange(m, min, max)| <= |m|
  {
    var r := RemoveScoreRange(m, min, max);
    assert r.Keys <= m.Keys;
    SubsetSize(r.Keys, m.Keys);
  }

  lemma {:induction false} SubsetSize<T>(a: set<T>, b: set<T>)
    requires a <= b
    ensures |a| <= |b|
    decreases b
  {
    if a != {} {
      var x :| x in a;
      SubsetSize(a - {x}, b - {x});
    }
  }

  // ---------------------------------------------------------------------------
  // The script
  // ---------------------------------------------------------------------------

  /** The ZADD arguments for `count` requests at `score`, numbered after the `existing` ones. */
  function Items(score: int, existing: int, count: int): (items: seq<ZItem>)
    ensures |items| == if count > 0 then count else 0
  {
    if count <= 0 then [] else Items(score, existing, count - 1) + [ZItem(score, MemberName(score, existing + count))]
  }

  /** The `j`-th ZADD pair is the score with the member numbered `existing + j + 1`. */
  lemma {:induction false} ItemsAt(score: int, existing: int, count: int)
    ensures forall j | 0 <= j < |Items(score, existing, count)| ::
      Items(score, existing, count)[j] == ZItem(score, MemberName(score, existing + j + 1))
    decreases if count <= 0 then 0 else count
  {
    if count > 0 {
      var prior := Items(score, existing, count - 1);
      var items := Items(score, existing, count);
      ItemsAt(score, existing, count - 1);
      assert items == prior + [ZItem(score, MemberName(score, existing + count))];
      forall j | 0 <= j < |items|
        ensures items[j] == ZItem(score, MemberName(score, existing + j + 1))
      {
        if j < |prior| {
          assert items[j] == prior[j];
        } else {
          assert j == count - 1 && existing + j + 1 == existing + count;
        }
      }
    }
  }

  /**
   * The sorted-set script on the key's slot: evict members scored in
   * `[0, now - intervalTicks]`, count the rest, add `inc` uniquely named members at
   * `now` unless the gate refuses, refresh the expiry, and reply `[addedCount, active]`.
   */
  function Script(s: Slot, args: WindowArgs, gated: bool): Outcome<WindowReply> {
    match ZRemRangeByScore(s, 0, args.now - args.intervalTicks)
    case Failure(e) => Outcome(s, Failure(e))
    case Success(evicted) => CountAndRecord(evicted, args, gated)
  }

  /** The script after eviction: count, gate, ZADD the call's members, then the expiry. */
  function CountAndRecord(evicted: Slot, args: WindowArgs, gated: bool): Outcome<WindowReply>
    requires evicted.None? || evicted.value.value.ZSet?
  {
    var active := Card(evicted);
    if gated && args.rate - active - args.inc < 0 then
      ExpireThenReply(evicted, args, WindowReply(0, active))
    else
      var existing := ZCount(evicted, args.now, args.now).value;
      match ZAdd(evicted, Items(args.now, existing, args.inc))
      case Failure(e) => Outcome(evicted, Failure(e))
      case Success((added, addedCount)) => ExpireThenReply(added, args, WindowReply(addedCount, active))
  }

  /** The script's last command, EXPIRE or EXPIREAT; if it fails, the writes before it stay. */
  function ExpireThenReply(s: Slot, args: WindowArgs, reply: WindowReply): Outcome<WindowReply> {
    match Expire(s, WindowExpiry(args))
    case Failure(e) => Outcome(s, Failure(e))
    case Success(s') => Outcome(s', Success(reply))
  }

  /** The loop that builds ZADD's score/member pairs, numbering on from the existing members. */
  method ZAddArguments(score: int, existingAtScore: int, count: int) returns (items: seq<ZItem>)
    ensures items == Items(score, existingAtScore, count)
  {
    items := [];
    var index := existingAtScore;
    var i := 1;
    while i <= count
      invariant 1 <= i && (count >= 1 ==> i <= count + 1) && (count < 1 ==> i == 1)
      invariant index == existingAtScore + i - 1
      invariant items == Items(score, existingAtScore, i - 1)
    {
      index := index + 1;
      items := items + [ZItem(score, MemberName(score, index))];
      i := i + 1;
    }
  }

  /** The script step by step, as the server runs it. */
  method RunScript(s: Slot, args: WindowArgs, gated: bool) returns (r: Outcome<WindowReply>)
    ensures r == Script(s, args, gated)
  {
    var addedCount := 0;
    var removed := ZRemRangeByScore(s, 0, args.now - args.intervalTicks);
    if removed.Failure? {
      return Outcome(s, Failure(removed.error));
    }
    var slot := removed.value;
    var active := ZCard(slot).value;
    assert active == Card(slot);
    var admitted := true;
    if gated {
      var difference := args.rate - active - args.inc;
      admitted := difference >= 0;
    }
    if admitted {
      var existingAtScore := ZCount(slot, args.now, args.now).value;
      var items := ZAddArguments(args.now, existingAtScore, args.inc);
      var zadd := ZAdd(slot, items);
      if zadd.Failure? {
        return Outcome(slot, Failure(zadd.error));
      }
      slot := zadd.value.0;
      addedCount := zadd.value.1;
    }
    var expired := Expire(slot, WindowExpiry(args));
    if expired.Failure? {
      return Outcome(slot, Failure(expired.error));
    }
    return Outcome(expired.value, Success(WindowReply(addedCount, active)));
  }

  /**
   * With a positive increment a failed script leaves the key as it was, except when
   * EXPIRE refuses interval seconds that are not an integer: the eviction and the ZADD
   * made before it stay.
   */
  lemma ScriptErrorKeepsEarlierWrites(s: Slot, args: WindowArgs, gated: bool)
    requires args.inc >= 1
    ensures var out := Script(s, args, gated);
      out.reply.Failure? ==>
        || (out.slot == s && out.reply.error == WrongType)
        || (WindowExpiry(args).None? && out.reply.error == NotAnInteger)
  {
    if s.None? || s.value.value.ZSet? {
      ScriptAfterEviction(s, args, gated);
      CountAndRecordErrors(Evicted(s, args), args, gated);
    } else {
      assert Script(s, args, gated) == Outcome(s, Failure(WrongType));
    }
  }

  /** On a missing key or a sorted set, eviction succeeds and the script goes on. */
  lemma ScriptAfterEviction(s: Slot, args: WindowArgs, gated: bool)
    requires s.None? || s.value.value.ZSet?
    ensures Script(s, args, gated) == CountAndRecord(Evicted(s, args), args, gated)
  {
  }

  /** After eviction only EXPIRE can fail, and only on interval seconds that are not an integer. */
  lemma CountAndRecordErrors(evicted: Slot, args: WindowArgs, gated: bool)
    requires (evicted.None? || evicted.value.value.ZSet?) && args.inc >= 1
    ensures var out := CountAndRecord(evicted, args, gated);
      out.reply.Failure? ==> WindowExpiry(args).None? && out.reply.error == NotAnInteger
  {
    var active := Card(evicted);
    if gated && args.rate - active - args.inc < 0 {
      ExpiryErrors(evicted, args, WindowReply(0, active));
    } else {
      var items := Items(args.now, ZCount(evicted, args.now, args.now).value, args.inc);
      assert items != [] by { assert |items| == args.inc; }
      var added := ZAdd(evicted, items);
      assert added.Success?;
      assert CountAndRecord(evicted, args, gated) == ExpireThenReply(added.value.0, args, WindowReply(added.value.1, active));
      ExpiryErrors(added.value.0, args, WindowReply(added.value.1, active));
    }
  }

  /** The closing EXPIRE fails only when there is no expiry to set. */
  lemma ExpiryErrors(s: Slot, args: WindowArgs, reply: WindowReply)
    ensures var out := ExpireThenReply(s, args, reply);
      out.reply.Failure? ==> WindowExpiry(args).None? && out.reply.error == NotAnInteger
  {
  }

  /**
   * `GetRateLimitResponse`: success when something was added; the active count is the
   * count before the call, plus the request's own count when it was added.
   */
  function Response(reply: WindowReply, count: int): (resp: RateLimitResponse)
    ensures resp.isSuccessful <==> reply.addedCount > 0
    ensures resp.activeCount == if reply.addedCount > 0 then reply.active + count else reply.active
  {
    if reply.addedCount > 0 then RateLimitResponse(reply.active + count, true)
    else RateLimitResponse(reply.active, false)
  }

  /** `Count`: null for a missing key, otherwise the number of members (an error for another type). */
  function Count(s: Slot): (r: Result<Option<int>, StoreError>)
    ensures s.None? ==> r == Success(None)
    ensures s.Some? && s.value.value.ZSet? ==> r == Success(Some(Card(s)))
    ensures r.Failure? <==> s.Some? && !s.value.value.ZSet?
  {
    if s.None? then Success(None)
    else
      match ZCard(s)
      case Success(n) => Success(Some(n))
      case Failure(e) => Failure(e)
  }

  // ---------------------------------------------------------------------------
  // What the script does to an indexed set
  // ---------------------------------------------------------------------------

  /** The members of a sorted-set slot; none for a missing key. */
  function Members(s: Slot): map<string, int> {
    if s.Some? && s.value.value.ZSet? then s.value.value.members else map[]
  }

  /** The slot after eviction. */
  function Evicted(s: Slot, args: WindowArgs): (evicted: Slot)
    requires s.None? || s.value.value.ZSet?
    ensures evicted.None? || evicted.value.value.ZSet?
  {
    ZRemRangeByScore(s, 0, args.now - args.intervalTicks).value
  }

  lemma EvictedIndexed(s: Slot, args: WindowArgs)
    requires IndexedSlot(s)
    ensures IndexedSlot(Evicted(s, args)) && Card(Evicted(s, args)) <= Card(s)
  {
    if s.Some? {
      var m := s.value.value.members;
      RemoveScoreRangeIndexed(m, 0, args.now - args.intervalTicks);
      RemoveScoreRangeSmaller(m, 0, args.now - args.intervalTicks);
    }
  }

  /** The members `score-(existing+1)` … `score-(existing+c)`, all at `score`. */
  function FreshMembers(score: int, existing: int, c: int): map<string, int> {
    if c <= 0 then map[]
    else FreshMembers(score, existing, c - 1)[MemberName(score, existing + c) := score]
  }

  lemma {:induction false} FreshMembersKeys(score: int, existing: int, c: int)
    ensures forall k :: k in FreshMembers(score, existing, c) <==> k in NameRange(score, existing + 1, existing + c)
    ensures forall k | k in FreshMembers(score, existing, c) :: FreshMembers(score, existing, c)[k] == score
    decreases if c <= 0 then 0 else c
  {
    if c <= 0 {
      assert NameRange(score, existing + 1, existing + c) == {};
    } else {
      FreshMembersKeys(score, existing, c - 1);
      assert NameRange(score, existing + 1, existing + c)
        == NameRange(score, existing + 1, existing + c - 1) + {MemberName(score, existing + c)};
    }
  }

  /** One more ZADD pair: the last item's member gets its score on top of the earlier ones. */
  lemma ZAddAllItemsStep(m: map<string, int>, score: int, existing: int, c: nat)
    requires c > 0
    ensures var prior := ZAddAll(m, Items(score, existing, c - 1));
      var name := MemberName(score, existing + c);
      ZAddAll(m, Items(score, existing, c)) == (prior.0[name := score], prior.1 + if name in prior.0 then 0 else 1)
  {
    var prior := Items(score, existing, c - 1);
    var item := ZItem(score, MemberName(score, existing + c));
    ZAddAllSnoc(m, prior, item);
  }

  /** ZADD's pairs are applied left to right, so the last pair is applied last. */
  lemma ZAddAllSnoc(m: map<string, int>, items: seq<ZItem>, item: ZItem)
    ensures var prior := ZAddAll(m, items);
      ZAddAll(m, items + [item]) == (prior.0[item.member := item.score], prior.1 + if item.member in prior.0 then 0 else 1)
  {
    var all := items + [item];
    assert all[..|all| - 1] == items;
  }

  /** The name numbered `existing + c` is not among the `c - 1` before it. */
  lemma NextNameIsNew(score: int, existing: nat, c: nat)
    requires c > 0
    ensures MemberName(score, existing + c) !in FreshMembers(score, existing, c - 1)
    ensures MemberName(score, existing + c) in NameRange(score, existing + 1, existing + c)
    ensures NameRange(score, existing + 1, existing + c - 1) <= NameRange(score, existing + 1, existing + c)
  {
    var name := MemberName(score, existing + c);
    FreshMembersKeys(score, existing, c - 1);
    if name in NameRange(score, existing + 1, existing + c - 1) {
      var j :| existing + 1 <= j <= existing + c - 1 && MemberName(score, j) == name;
      MemberNameInjective(score, j, score, existing + c);
    }
  }

  lemma FreshMembersStep(score: int, existing: int, c: int)
    requires c > 0
    ensures FreshMembers(score, existing, c) == FreshMembers(score, existing, c - 1)[MemberName(score, existing + c) := score]
  {
  }

  lemma MergeThenUpdate<K, V>(m: map<K, V>, added: map<K, V>, k: K, v: V)
    ensures (m + added)[k := v] == m + added[k := v]
  {
  }

  /** ZADD'ing names that are not yet members adds each of them. */
  lemma {:induction false} ZAddAllFresh(m: map<string, int>, score: int, existing: nat, c: nat)
    requires NameRange(score, existing + 1, existing + c) !! m.Keys
    ensures ZAddAll(m, Items(score, existing, c)) == (m + FreshMembers(score, existing, c), c)
  {
    if c > 0 {
      var name := MemberName(score, existing + c);
      NextNameIsNew(score, existing, c);
      ZAddAllFresh(m, score, existing, c - 1);
      ZAddAllItemsStep(m, score, existing, c);
      var added := FreshMembers(score, existing, c - 1);
      assert name !in m + added;
      MergeThenUpdate(m, added, name, score);
      FreshMembersStep(score, existing, c);
      assert ZAddAll(m, Items(score, existing, c - 1)) == (m + added, c - 1);
      assert ZAddAll(m, Items(score, existing, c)).1 == c;
      assert ZAddAll(m, Items(score, existing, c)).0 == (m + added)[name := score];
    } else {
      assert ZAddAll(m, Items(score, existing, c)) == (m, 0);
      assert FreshMembers(score, existing, c) == map[];
      assert m + map[] == m;
    }
  }

  /** No name numbered past the count at its score is a member of an indexed set. */
  lemma IndexedNamesPastCountAreFresh(m: map<string, int>, score: int, c: int)
    requires Indexed(m)
    ensures var k := |MembersAt(m, score)|; NameRange(score, k + 1, k + c) !! m.Keys
  {
    var k := |MembersAt(m, score)|;
    forall name | name in NameRange(score, k + 1, k + c)
      ensures name !in m
    {
      var j :| k + 1 <= j <= k + c && MemberName(score, j) == name;
      if name in m {
        assert name in MembersAt(m, m[name]);
        var i :| 1 <= i <= |MembersAt(m, m[name])| && MemberName(m[name], i) == name;
        MemberNameInjective(m[name], i, score, j);
      }
    }
  }

  /** Fresh members at `score` join that score's members and leave every other score alone. */
  lemma MembersAtAfterFresh(m: map<string, int>, score: int, k: int, c: int, sc: int)
    requires NameRange(score, k + 1, k + c) !! m.Keys
    ensures MembersAt(m + FreshMembers(score, k, c), sc) ==
      if sc == score then MembersAt(m, sc) + NameRange(score, k + 1, k + c) else MembersAt(m, sc)
  {
    FreshMembersKeys(score, k, c);
  }

  /**
   * Adding `c` members at `score` after the `k` already there: none collides, all `c`
   * are counted, and the set stays indexed with `k + c` members at that score.
   */
  lemma ZAddIndexed(m: map<string, int>, score: int, c: nat)
    requires Indexed(m)
    ensures var k := |MembersAt(m, score)|;
      var r := ZAddAll(m, Items(score, k, c));
      && r == (m + FreshMembers(score, k, c), c)
      && Indexed(r.0)
  {
    var k := |MembersAt(m, score)|;
    IndexedNamesPastCountAreFresh(m, score, c);
    ZAddAllFresh(m, score, k, c);
    var r := m + FreshMembers(score, k, c);
    forall sc
      ensures MembersAt(r, sc) == NameRange(sc, 1, |MembersAt(r, sc)|)
    {
      assert MembersAt(m, sc) == NameRange(sc, 1, |MembersAt(m, sc)|);
      assert MembersAt(m, score) == NameRange(score, 1, k);
      IndexedAfterFreshAt(m, score, k, c, sc);
    }
  }

  /** At the call's own score, the members become the names `1..k+c`. */
  lemma FreshAtScore(m: map<string, int>, score: int, k: nat, c: nat)
    requires MembersAt(m, score) == NameRange(score, 1, k)
    requires NameRange(score, k + 1, k + c) !! m.Keys
    ensures MembersAt(m + FreshMembers(score, k, c), score) == NameRange(score, 1, k + c)
  {
    MembersAtAfterFresh(m, score, k, c, score);
    NameRangeJoin(score, k, c);
  }

  lemma IndexedAfterFreshAt(m: map<string, int>, score: int, k: nat, c: nat, sc: int)
    requires MembersAt(m, score) == NameRange(score, 1, k)
    requires MembersAt(m, sc) == NameRange(sc, 1, |MembersAt(m, sc)|)
    requires NameRange(score, k + 1, k + c) !! m.Keys
    ensures var r := m + FreshMembers(score, k, c);
      MembersAt(r, sc) == NameRange(sc, 1, |MembersAt(r, sc)|)
  {
    if sc == score {
      var hi := k + c;
      FreshAtScore(m, score, k, c);
      NameRangeSize(score, 1, hi);
    } else {
      MembersAtAfterFresh(m, score, k, c, sc);
    }
  }

  lemma {:induction false} NameRangeJoin(score: int, k: nat, c: nat)
    ensures NameRange(score, 1, k) + NameRange(score, k + 1, k + c) == NameRange(score, 1, k + c)
  {
  }

  /** Whether the gate lets a call through, given the count after eviction. */
  predicate Admits(active: int, args: WindowArgs, gated: bool) {
    !gated || active + args.inc <= args.rate
  }

  /** The members after eviction and, when the gate admits the call, after the ZADD. */
  function RecordedMembers(s: Slot, args: WindowArgs, gated: bool): map<string, int>
    requires s.None? || s.value.value.ZSet?
  {
    var m := Members(Evicted(s, args));
    if Admits(Card(Evicted(s, args)), args, gated) then m + FreshMembers(args.now, |MembersAt(m, args.now)|, args.inc)
    else m
  }

  /**
   * The script on an indexed key with a positive increment. The reply's active count is
   * the count after eviction; when admitted exactly `inc` members are added, otherwise
   * none, and the key stays indexed. Then the expiry:
   *  - seconds that are not an integer: EXPIRE fails, and the eviction and the ZADD stay;
   *  - a relative time that is not positive: the key is deleted;
   *  - otherwise the key carries the window's expiry.
   */
  lemma ScriptOnIndexed(s: Slot, args: WindowArgs, gated: bool)
    requires IndexedSlot(s) && args.inc >= 1
    ensures var out := Script(s, args, gated);
      var active := Card(Evicted(s, args));
      var admitted := Admits(active, args, gated);
      && out.reply == (if WindowExpiry(args).None? then Failure(NotAnInteger)
                       else Success(WindowReply(if admitted then args.inc else 0, active)))
      && IndexedSlot(out.slot)
      && (if ExpiryDeletes(args) then out.slot == None
          else
            && Members(out.slot) == RecordedMembers(s, args, gated)
            && Card(out.slot) == (if admitted then active + args.inc else active)
            && (ExpiryKeepsKey(args) && out.slot.Some? ==> out.slot.value.ttl == WindowExpiry(args)))
  {
    RecordOnIndexed(s, args, gated);
    var pre := BeforeExpiry(s, args, gated);
    match WindowExpiry(args)
    case None =>
    case Some(x) =>
      if pre.Some? && !DeletesAtOnce(x) {
        assert Members(SetExpiry(pre, x)) == Members(pre);
      }
  }

  /** The slot just before EXPIRE: the evicted set, with the call's members when admitted. */
  function BeforeExpiry(s: Slot, args: WindowArgs, gated: bool): Slot
    requires s.None? || s.value.value.ZSet?
  {
    Recorded(Evicted(s, args), args, gated)
  }

  /** The evicted slot, after the ZADD when the gate admits the call. */
  function Recorded(evicted: Slot, args: WindowArgs, gated: bool): Slot
    requires evicted.None? || evicted.value.value.ZSet?
  {
    if !Admits(Card(evicted), args, gated) then evicted
    else
      match ZAdd(evicted, Items(args.now, ZCount(evicted, args.now, args.now).value, args.inc))
      case Success((added, _)) => added
      case Failure(_) => evicted
  }

  /**
   * Everything before EXPIRE on an indexed key: the script ends with EXPIRE on the
   * recorded slot, which holds the recorded members, is indexed, and has `inc` more
   * members than after eviction exactly when admitted.
   */
  lemma RecordOnIndexed(s: Slot, args: WindowArgs, gated: bool)
    requires IndexedSlot(s) && args.inc >= 1
    ensures var active := Card(Evicted(s, args));
      var admitted := Admits(active, args, gated);
      var pre := BeforeExpiry(s, args, gated);
      && Script(s, args, gated) == ExpireThenReply(pre, args, WindowReply(if admitted then args.inc else 0, active))
      && IndexedSlot(pre)
      && Members(pre) == RecordedMembers(s, args, gated)
      && Card(pre) == (if admitted then active + args.inc else active)
  {
    var evicted := Evicted(s, args);
    EvictedIndexed(s, args);
    assert Script(s, args, gated) == CountAndRecord(evicted, args, gated);
    RecordAfterEviction(evicted, args, gated);
  }

  /** `RecordOnIndexed` for the slot already evicted. */
  lemma RecordAfterEviction(evicted: Slot, args: WindowArgs, gated: bool)
    requires IndexedSlot(evicted) && args.inc >= 1
    ensures var active := Card(evicted);
      var admitted := Admits(active, args, gated);
      var m := Members(evicted);
      var pre := Recorded(evicted, args, gated);
      && CountAndRecord(evicted, args, gated) == ExpireThenReply(pre, args, WindowReply(if admitted then args.inc else 0, active))
      && IndexedSlot(pre)
      && Members(pre) == (if admitted then m + FreshMembers(args.now, |MembersAt(m, args.now)|, args.inc) else m)
      && Card(pre) == (if admitted then active + args.inc else active)
  {
    if Admits(Card(evicted), args, gated) {
      AddOnIndexed(evicted, args);
    }
  }

  /**
   * ZADD of a call's members on an indexed slot: ZCOUNT at `now` finds the `k` members
   * already there, and ZADD adds all `inc` new names after them, keeping the expiry and
   * the naming invariant.
   */
  lemma AddOnIndexed(evicted: Slot, args: WindowArgs)
    requires IndexedSlot(evicted) && args.inc >= 1
    ensures var m := Members(evicted);
      var k := |MembersAt(m, args.now)|;
      var added := m + FreshMembers(args.now, k, args.inc);
      && ZCount(evicted, args.now, args.now) == Success(k)
      && ZAdd(evicted, Items(args.now, k, args.inc))
         == Success((Some(Entry(ZSet(added), if evicted.None? then None else evicted.value.ttl)), args.inc))
      && Indexed(added) && |added| == Card(evicted) + args.inc
  {
    var m := Members(evicted);
    var c: nat := args.inc;
    CountAtScore(evicted, args.now);
    ZAddOnSet(evicted, Items(args.now, |MembersAt(m, args.now)|, c));
    assert Indexed(m);
    ZAddIndexed(m, args.now, c);
  }

  /** ZCOUNT over the single score `score` counts the members at that score. */
  lemma CountAtScore(s: Slot, score: int)
    requires s.None? || s.value.value.ZSet?
    ensures ZCount(s, score, score) == Success(|MembersAt(Members(s), score)|)
  {
    assert MembersInRange(Members(s), score, score) == MembersAt(Members(s), score);
  }

  /** ZADD with at least one pair on a missing key or a sorted set: the members merged in order, the expiry kept. */
  lemma ZAddOnSet(s: Slot, items: seq<ZItem>)
    requires items != [] && (s.None? || s.value.value.ZSet?)
    ensures var added := ZAddAll(Members(s), items);
      ZAdd(s, items) == Success((Some(Entry(ZSet(added.0), if s.None? then None else s.value.ttl)), added.1))
  {
  }

  /** In gated mode a set at or below the rate stays at or below the rate, whether or not the script fails. */
  lemma GatedCardWithinRate(s: Slot, args: WindowArgs)
    requires IndexedSlot(s) && args.inc >= 1 && Card(s) <= args.rate
    ensures Card(Script(s, args, true).slot) <= args.rate
  {
    ScriptOnIndexed(s, args, true);
    EvictedIndexed(s, args);
  }

  /**
   * The response to a call on an indexed key with a positive count: the script fails
   * exactly when the interval seconds are not an integer; otherwise the response is the
   * post-insert count with success when admitted, and the count after eviction when not.
   */
  lemma ResponseOnIndexed(s: Slot, args: WindowArgs, gated: bool)
    requires IndexedSlot(s) && args.inc >= 1
    ensures Script(s, args, gated).reply.Failure? <==> WindowExpiry(args).None?
    ensures Script(s, args, gated).reply.Success? ==>
      var active := Card(Evicted(s, args));
      Response(Script(s, args, gated).reply.value, args.inc) ==
        if Admits(active, args, gated) then RateLimitResponse(active + args.inc, true)
        else RateLimitResponse(active, false)
  {
    ScriptOnIndexed(s, args, gated);
  }

  /** Nothing scored `now` is evicted when the interval is positive. */
  lemma NoEvictionAtNow(s: Slot, args: WindowArgs)
    requires IndexedSlot(s) && args.intervalTicks > 0
    requires s.Some? ==> forall k | k in s.value.value.members :: s.value.value.members[k] == args.now
    ensures Evicted(s, args) == s
  {
    if s.Some? {
      var m := s.value.value.members;
      assert RemoveScoreRange(m, 0, args.now - args.intervalTicks) == m;
    }
  }

  // ---------------------------------------------------------------------------
  // A run of calls
  // ---------------------------------------------------------------------------

  /** `n` calls with the same arguments, and the responses they get, in order. */
  function Calls(s: Slot, args: WindowArgs, gated: bool, n: nat): Result<(Slot, seq<RateLimitResponse>), StoreError> {
    if n == 0 then Success((s, []))
    else
      match Calls(s, args, gated, n - 1)
      case Failure(e) => Failure(e)
      case Success((s1, resps)) =>
        var out := Script(s1, args, gated);
        match out.reply
        case Failure(e) => Failure(e)
        case Success(reply) => Success((out.slot, resps + [Response(reply, args.inc)]))
  }

  /** All members of the slot are scored `now`. */
  ghost predicate AllAt(s: Slot, now: int) {
    s.Some? ==> s.value.value.ZSet? && forall k | k in s.value.value.members :: s.value.value.members[k] == now
  }

  lemma ScriptKeepsAllAt(s: Slot, args: WindowArgs, gated: bool)
    requires IndexedSlot(s) && args.inc >= 1 && args.intervalTicks > 0 && AllAt(s, args.now)
    ensures AllAt(Script(s, args, gated).slot, args.now)
  {
    NoEvictionAtNow(s, args);
    ScriptOnIndexed(s, args, gated);
    var m := Members(s);
    var k := |MembersAt(m, args.now)|;
    FreshMembersKeys(args.now, k, args.inc);
    var recorded := RecordedMembers(s, args, gated);
    assert forall key | key in recorded :: recorded[key] == args.now by {
      forall key | key in recorded
        ensures recorded[key] == args.now
      {
        if key !in m {
          assert key in FreshMembers(args.now, k, args.inc);
        }
      }
    }
  }

  /** One unit call at the instant of every member, with an expiry Redis records. */
  lemma UnitCallAtNow(s: Slot, args: WindowArgs, gated: bool)
    requires IndexedSlot(s) && AllAt(s, args.now)
    requires args.inc == 1 && args.intervalTicks > 0 && ExpiryKeepsKey(args)
    ensures var out := Script(s, args, gated);
      && out.reply.Success?
      && IndexedSlot(out.slot) && AllAt(out.slot, args.now)
      && (if Admits(Card(s), args, gated) then
            Response(out.reply.value, 1) == RateLimitResponse(Card(s) + 1, true) && Card(out.slot) == Card(s) + 1
          else
            Response(out.reply.value, 1) == RateLimitResponse(Card(s), false) && Card(out.slot) == Card(s))
  {
    NoEvictionAtNow(s, args);
    assert Card(Evicted(s, args)) == Card(s);
    ScriptOnIndexed(s, args, gated);
    ScriptKeepsAllAt(s, args, gated);
    var reply := Script(s, args, gated).reply;
    if Admits(Card(s), args, gated) {
      assert reply == Success(WindowReply(1, Card(s)));
    } else {
      assert reply == Success(WindowReply(0, Card(s)));
    }
  }

  /** After `k` admitted unit calls at one instant: the members `now-1` … `now-k`, with the window's expiry. */
  function UnitSlot(args: WindowArgs, k: int): Slot {
    if k <= 0 then None else Some(Entry(ZSet(FreshMembers(args.now, 0, k)), WindowExpiry(args)))
  }

  /** How many of `n` unit calls are admitted. */
  function UnitCount(args: WindowArgs, gated: bool, n: nat): int {
    if gated && n > args.rate then args.rate else n
  }

  /** The response to the unit call numbered `i` (from 0) of a run. */
  function UnitResponse(args: WindowArgs, gated: bool, i: int): RateLimitResponse {
    if !gated || i < args.rate then RateLimitResponse(i + 1, true) else RateLimitResponse(args.rate, false)
  }

  function UnitResponses(args: WindowArgs, gated: bool, n: nat): seq<RateLimitResponse> {
    if n == 0 then [] else UnitResponses(args, gated, n - 1) + [UnitResponse(args, gated, n - 1)]
  }

  lemma {:induction false} UnitResponsesAt(args: WindowArgs, gated: bool, n: nat)
    ensures |UnitResponses(args, gated, n)| == n
    ensures forall i | 0 <= i < n :: UnitResponses(args, gated, n)[i] == UnitResponse(args, gated, i)
  {
    if n > 0 {
      var m: nat := n - 1;
      UnitResponsesAt(args, gated, m);
    }
  }

  lemma EmptyIndexed()
    ensures Indexed(map[])
  {
    forall score
      ensures MembersAt(map[], score) == NameRange(score, 1, |MembersAt(map[], score)|)
    {
      assert MembersAt(map[], score) == {};
      assert NameRange(score, 1, 0) == {};
    }
  }

  /** The first `k` members at one score form an indexed set of `k` members, all at that score. */
  lemma FreshMembersIndexed(score: int, k: nat)
    ensures Indexed(FreshMembers(score, 0, k))
    ensures |FreshMembers(score, 0, k)| == k
    ensures forall key | key in FreshMembers(score, 0, k) :: FreshMembers(score, 0, k)[key] == score
  {
    EmptyIndexed();
    assert MembersAt(map[], score) == {};
    ZAddIndexed(map[], score, k);
    assert map[] + FreshMembers(score, 0, k) == FreshMembers(score, 0, k);
    FreshMembersKeys(score, 0, k);
  }

  /** The slot after `k` admitted unit calls is indexed, at one instant, and holds `k` members. */
  lemma UnitSlotShape(args: WindowArgs, k: nat)
    ensures IndexedSlot(UnitSlot(args, k)) && AllAt(UnitSlot(args, k), args.now) && Card(UnitSlot(args, k)) == k
  {
    FreshMembersIndexed(args.now, k);
  }

  /** With a positive interval nothing of the run's slot is evicted, and all `k` members are at `now`. */
  lemma UnitEvicted(args: WindowArgs, k: nat)
    requires args.intervalTicks > 0
    ensures ZRemRangeByScore(UnitSlot(args, k), 0, args.now - args.intervalTicks) == Success(UnitSlot(args, k))
    ensures ZCount(UnitSlot(args, k), args.now, args.now) == Success(k)
    ensures Card(UnitSlot(args, k)) == k
  {
    if k > 0 {
      var m := FreshMembers(args.now, 0, k);
      FreshMembersIndexed(args.now, k);
      assert RemoveScoreRange(m, 0, args.now - args.intervalTicks) == m;
      assert MembersInRange(m, args.now, args.now) == m.Keys;
    }
  }

  /** ZADD of the next unit member on the run's slot adds it, keeping the expiry. */
  lemma UnitAdd(args: WindowArgs, k: nat)
    requires args.inc == 1
    ensures ZAdd(UnitSlot(args, k), Items(args.now, k, 1)) ==
      Success((Some(Entry(ZSet(FreshMembers(args.now, 0, k + 1)), if k == 0 then None else WindowExpiry(args))), 1))
  {
    var m := FreshMembers(args.now, 0, k);
    var name := MemberName(args.now, k + 1);
    NextNameIsNew(args.now, 0, k + 1);
    ZAddAllItemsStep(m, args.now, k, 1);
    assert Items(args.now, k, 0) == [];
    assert ZAddAll(m, Items(args.now, k, 1)) == (m[name := args.now], 1);
    ZAddOnSet(UnitSlot(args, k), Items(args.now, k, 1));
    assert k == 0 ==> m == map[];
    assert Members(UnitSlot(args, k)) == m;
  }

  /**
   * One unit call after `k` admitted ones at the same instant, with an expiry Redis
   * records: admitted, it adds the next member and replies `(1, k)`; refused, it
   * leaves the slot as it was and replies `(0, k)`.
   */
  lemma UnitStep(args: WindowArgs, gated: bool, k: nat)
    requires args.inc == 1 && args.intervalTicks > 0 && ExpiryKeepsKey(args)
    ensures Script(UnitSlot(args, k), args, gated) ==
      if Admits(k, args, gated) then Outcome(UnitSlot(args, k + 1), Success(WindowReply(1, k)))
      else Outcome(UnitSlot(args, k), Success(WindowReply(0, k)))
  {
    UnitEvicted(args, k);
    var x := WindowExpiry(args).value;
    if Admits(k, args, gated) {
      UnitAdd(args, k);
      var added := Some(Entry(ZSet(FreshMembers(args.now, 0, k + 1)), if k == 0 then None else WindowExpiry(args)));
      assert SetExpiry(added, x) == UnitSlot(args, k + 1);
      assert Script(UnitSlot(args, k), args, gated) == ExpireThenReply(added, args, WindowReply(1, k));
    } else {
      assert SetExpiry(UnitSlot(args, k), x) == UnitSlot(args, k);
      assert Script(UnitSlot(args, k), args, gated) == ExpireThenReply(UnitSlot(args, k), args, WindowReply(0, k));
    }
  }

  /** A run of unit calls that has reached `k` members takes one more step as `UnitStep` says. */
  lemma UnitCallsStep(args: WindowArgs, gated: bool, m: nat, n: nat, k: nat, before: seq<RateLimitResponse>)
    requires args.inc == 1 && args.intervalTicks > 0 && ExpiryKeepsKey(args)
    requires n == m + 1 && Calls(None, args, gated, m) == Success((UnitSlot(args, k), before))
    ensures Calls(None, args, gated, n) ==
      if Admits(k, args, gated) then Success((UnitSlot(args, k + 1), before + [RateLimitResponse(k + 1, true)]))
      else Success((UnitSlot(args, k), before + [RateLimitResponse(k, false)]))
  {
    CallsStep(None, args, gated, m, n);
    UnitStep(args, gated, k);
    var out := Script(UnitSlot(args, k), args, gated);
    assert Calls(None, args, gated, n) == Success((out.slot, before + [Response(out.reply.value, args.inc)]));
    if Admits(k, args, gated) {
      assert Response(WindowReply(1, k), args.inc) == RateLimitResponse(k + 1, true);
    } else {
      assert Response(WindowReply(0, k), args.inc) == RateLimitResponse(k, false);
    }
  }

  /** A run of `n` unit calls at one instant on a missing key, step by step. */
  lemma {:induction false} UnitRun(args: WindowArgs, gated: bool, n: nat)
    requires args.inc == 1 && args.intervalTicks > 0 && ExpiryKeepsKey(args) && (gated ==> args.rate >= 0)
    ensures Calls(None, args, gated, n) == Success((UnitSlot(args, UnitCount(args, gated, n)), UnitResponses(args, gated, n)))
  {
    if n > 0 {
      var m: nat := n - 1;
      UnitRun(args, gated, m);
      var k: nat := UnitCount(args, gated, m);
      var before := UnitResponses(args, gated, m);
      UnitCallsStep(args, gated, m, n, k, before);
      assert UnitResponses(args, gated, n) == before + [UnitResponse(args, gated, m)];
      if Admits(k, args, gated) {
        assert UnitCount(args, gated, n) == k + 1;
        assert RateLimitResponse(k + 1, true) == UnitResponse(args, gated, m);
      } else {
        assert UnitCount(args, gated, n) == k;
        assert RateLimitResponse(k, false) == UnitResponse(args, gated, m);
      }
    } else {
      assert Calls(None, args, gated, 0) == Success((None, []));
    }
  }

  /**
   * Unit calls at one instant on a missing key in gated mode, with an expiry Redis
   * records: the first `rate` succeed
   * with active counts 1, 2, …, rate; every later one fails reporting `rate` active, and
   * the set holds `rate` members.
   */
  lemma {:induction false} GatedUnitCalls(args: WindowArgs, n: nat)
    requires args.inc == 1 && args.rate >= 0 && args.intervalTicks > 0 && ExpiryKeepsKey(args)
    ensures Calls(None, args, true, n).Success?
    ensures var (s, resps) := Calls(None, args, true, n).value;
      && IndexedSlot(s) && AllAt(s, args.now)
      && Card(s) == (if n <= args.rate then n else args.rate)
      && |resps| == n
      && forall i | 0 <= i < n ::
           resps[i] == if i < args.rate then RateLimitResponse(i + 1, true) else RateLimitResponse(args.rate, false)
  {
    UnitRun(args, true, n);
    UnitSlotShape(args, UnitCount(args, true, n));
    UnitResponsesAt(args, true, n);
  }

  /** Unit calls at one instant on a missing key in ungated mode, with an expiry Redis records: every call succeeds and is recorded. */
  lemma {:induction false} UngatedUnitCalls(args: WindowArgs, n: nat)
    requires args.inc == 1 && args.intervalTicks > 0 && ExpiryKeepsKey(args)
    ensures Calls(None, args, false, n).Success?
    ensures var (s, resps) := Calls(None, args, false, n).value;
      && IndexedSlot(s) && AllAt(s, args.now)
      && Card(s) == n
      && |resps| == n
      && forall i | 0 <= i < n :: resps[i] == RateLimitResponse(i + 1, true)
  {
    UnitRun(args, false, n);
    UnitSlotShape(args, n);
    UnitResponsesAt(args, false, n);
  }

  /**
   * An interval of zero seconds or less: EXPIRE deletes the set at the end of every call,
   * so every unit call succeeds with active count 1 and nothing is ever limited.
   */
  lemma {:induction false} NonPositiveIntervalNeverLimits(args: WindowArgs, gated: bool, n: nat)
    requires args.inc == 1 && args.rate >= 1 && ExpiryDeletes(args)
    ensures Calls(None, args, gated, n).Success?
    ensures var (s, resps) := Calls(None, args, gated, n).value;
      && s == None
      && |resps| == n
      && forall i | 0 <= i < n :: resps[i] == RateLimitResponse(1, true)
  {    if n > 0 {
      var m: nat := n - 1;
      NonPositiveIntervalNeverLimits(args, gated, m);
      var resps1 := Calls(None, args, gated, m).value.1;
      CallsStep(None, args, gated, m, n);
      UnitCallDeleted(args, gated);
      assert Calls(None, args, gated, n) == Success((None, resps1 + [RateLimitResponse(1, true)]));
    } else {
      assert Calls(None, args, gated, 0) == Success((None, []));
    }
  }

  /** One more call extends a run that has not failed. */
  lemma CallsStep(s: Slot, args: WindowArgs, gated: bool, m: nat, n: nat)
    requires n == m + 1 && Calls(s, args, gated, m).Success?
    ensures var (s1, resps) := Calls(s, args, gated, m).value;
      var out := Script(s1, args, gated);
      Calls(s, args, gated, n) ==
        if out.reply.Success? then Success((out.slot, resps + [Response(out.reply.value, args.inc)]))
        else Failure(out.reply.error)
  {
  }

  /** A unit call on a missing key whose EXPIRE deletes it: admitted, reporting none active, and the key stays missing. */
  lemma UnitCallDeleted(args: WindowArgs, gated: bool)
    requires args.inc == 1 && args.rate >= 1 && ExpiryDeletes(args)
    ensures Script(None, args, gated) == Outcome(None, Success(WindowReply(1, 0)))
  {
    ScriptOnIndexed(None, args, gated);
    assert Card(Evicted(None, args)) == 0;
  }

  /**
   * Interval seconds that are not an integer: every call fails at EXPIRE, yet an admitted
   * call's members stay in the set, so the calls still use up the rate.
   */
  lemma FractionalIntervalFailsEveryCall(s: Slot, args: WindowArgs, gated: bool)
    requires IndexedSlot(s) && args.inc >= 1 && WindowExpiry(args).None?
    ensures var out := Script(s, args, gated);
      var active := Card(Evicted(s, args));
      && out.reply == Failure(NotAnInteger)
      && Card(out.slot) == if Admits(active, args, gated) then active + args.inc else active
  {
    ScriptOnIndexed(s, args, gated);
  }
}
