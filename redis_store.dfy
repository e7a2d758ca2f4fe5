/**
 * The part of the Redis keyspace the rate limiters touch, and the Redis commands their
 * scripts issue, as total functions on the value stored under one key.
 *
 * Every script reads and writes only KEYS[1], so the commands act on a `Slot`: what is
 * stored under that key (`None` when the key does not exist). A script over the whole
 * keyspace is `Put(db, key, step(Lookup(db, key)))`, which leaves every other key alone.
 */
module RedisStore {
  import opened Wrappers
  import opened Decimal

  /** The expiry a key carries: EXPIRE records a relative one, EXPIREAT an absolute one. */
  datatype Expiry = ExpireIn(seconds: int) | ExpireAt(unixSeconds: int)

  /** Redis types no limiter writes. */
  datatype OtherKind = List | Hash | Set | Stream

  /** The token bucket's JSON document `{NextRefillTicks, TokenCount}` (Lua numbers). */
  datatype BucketDoc = BucketDoc(nextRefillTicks: real, tokenCount: real)

  /**
   * A stored value. `Str` and `Doc` are both of Redis type "string": `Doc` is a string
   * holding a bucket document (its JSON text begins with '{'), `Str` any other string.
   * A sorted set maps each member to its score.
   */
  datatype Value =
    | Str(text: string)
    | Doc(doc: BucketDoc)
    | ZSet(members: map<string, int>)
    | Other(kind: OtherKind)

  datatype Entry = Entry(value: Value, ttl: Option<Expiry>)

  type Slot = Option<Entry>

  type Db = map<string, Entry>

  /**
   * Errors raised inside a script; they abort it and reach the caller. `NotABucketDocument`
   * is cjson failing to decode a string, `CannotEncode` cjson refusing to encode NaN.
   */
  datatype StoreError = WrongType | NotAnInteger | NotABucketDocument | CannotEncode | WrongNumberOfArguments

  /** The reply of GET: nil, a plain string, or the text of a bucket document. */
  datatype StringReply = Nil | Text(text: string) | Json(doc: BucketDoc)

  /**
   * What a script leaves under its key, with its reply or the error that stopped it.
   * Redis does not undo the writes a script made before an error.
   */
  datatype Outcome<R> = Outcome(slot: Slot, reply: Result<R, StoreError>)

  /** One score/member pair of a ZADD call. */
  datatype ZItem = ZItem(score: int, member: string)

  function Lookup(db: Db, key: string): Slot {
    if key in db then Some(db[key]) else None
  }

  function Put(db: Db, key: string, s: Slot): (db': Db)
    ensures Lookup(db', key) == s
    ensures forall k | k != key :: Lookup(db', k) == Lookup(db, k)
  {
    match s
    case Some(e) => db[key := e]
    case None => db - {key}
  }

  /** Redis deletes a sorted set when its last member goes, so no key holds an empty one. */
  predicate SlotWellFormed(s: Slot) {
    s.Some? && s.value.value.ZSet? ==> |s.value.value.members| > 0
  }

  ghost predicate WellFormed(db: Db) {
    forall k | k in db :: SlotWellFormed(Some(db[k]))
  }

  predicate IsStringValue(v: Value) { v.Str? || v.Doc? }

  // ---------------------------------------------------------------------------
  // Keys
  // ---------------------------------------------------------------------------

  /** TYPE: the status text Redis reports for the key. */
  function TypeName(s: Slot): string {
    match s
    case None => "none"
    case Some(e) =>
      match e.value
      case Str(_) => "string"
      case Doc(_) => "string"
      case ZSet(_) => "zset"
      case Other(List) => "list"
      case Other(Hash) => "hash"
      case Other(Set) => "set"
      case Other(Stream) => "stream"
  }

  /** A relative expiry that is not positive: Redis deletes the key rather than record it. */
  predicate DeletesAtOnce(x: Expiry) {
    x.ExpireIn? && x.seconds <= 0
  }

  /**
   * EXPIRE / EXPIREAT: record the expiry on an existing key; a missing key stays missing,
   * and EXPIRE with a time that is not positive deletes the key at once.
   */
  function SetExpiry(s: Slot, x: Expiry): (r: Slot)
    ensures r.Some? <==> s.Some? && !DeletesAtOnce(x)
    ensures r.Some? ==> r.value.value == s.value.value && r.value.ttl == Some(x)
  {
    match s
    case None => None
    case Some(e) => if DeletesAtOnce(x) then None else Some(e.(ttl := Some(x)))
  }

  /**
   * EXPIRE / EXPIREAT with the argument a script passes, `None` when that argument is not
   * an integer: the command is refused and the key is left as it was.
   */
  function Expire(s: Slot, x: Option<Expiry>): (r: Result<Slot, StoreError>)
    ensures r.Failure? <==> x.None?
    ensures r.Failure? ==> r.error == NotAnInteger
    ensures r.Success? ==> r.value == SetExpiry(s, x.value)
  {
    match x
    case None => Failure(NotAnInteger)
    case Some(e) => Success(SetExpiry(s, e))
  }

  /** SET without options: the new value replaces the old one and any expiry is cleared. */
  function SetValue(v: Value): Slot {
    Some(Entry(v, None))
  }

  // ---------------------------------------------------------------------------
  // Strings
  // ---------------------------------------------------------------------------

  /** GET: nil for a missing key, an error for a key that is not a string. */
  function Get(s: Slot): (r: Result<StringReply, StoreError>)
    ensures r.Failure? <==> s.Some? && !IsStringValue(s.value.value)
    ensures r == Success(Nil) <==> s.None?
  {
    match s
    case None => Success(Nil)
    case Some(e) =>
      match e.value
      case Str(t) => Success(Text(t))
      case Doc(d) => Success(Json(d))
      case _ => Failure(WrongType)
  }

  /** Lua's `tonumber` on a GET reply: the integer the text spells, or nil. */
  function ToNumber(r: StringReply): Option<int> {
    match r
    case Text(t) => ParseDecimal(t)
    case _ => None
  }

  /** The first character Lua's `string.sub(value, 1, 1)` sees, if the string is not empty. */
  function FirstChar(r: StringReply): Option<char> {
    match r
    case Text(t) => if |t| > 0 then Some(t[0]) else None
    case Json(_) => Some('{')
    case Nil => None
  }

  /**
   * INCRBY: a missing key counts as 0; the new value is stored as decimal text and the
   * key keeps its expiry. Strings that are not canonical integers are refused.
   */
  function IncrBy(s: Slot, inc: int): (r: Result<(Slot, int), StoreError>)
    ensures r.Success? ==> r.value.0 == Some(Entry(Str(IntToString(r.value.1)), if s.Some? then s.value.ttl else None))
  {
    match s
    case None => Success((Some(Entry(Str(IntToString(inc)), None)), inc))
    case Some(e) =>
      match e.value
      case Str(t) =>
        if IsCanonicalInteger(t) then
          var n := ParseDecimal(t).value + inc;
          Success((Some(Entry(Str(IntToString(n)), e.ttl)), n))
        else Failure(NotAnInteger)
      case Doc(_) => Failure(NotAnInteger)
      case _ => Failure(WrongType)
  }

  // ---------------------------------------------------------------------------
  // Sorted sets
  // ---------------------------------------------------------------------------

  /** The members of `m` whose score is NOT in `[min, max]`. */
  function RemoveScoreRange(m: map<string, int>, min: int, max: int): (r: map<string, int>)
    ensures forall k :: k in r <==> k in m && !(min <= m[k] <= max)
    ensures forall k | k in r :: r[k] == m[k]
  {
    map k | k in m && !(min <= m[k] <= max) :: m[k]
  }

  /** ZREMRANGEBYSCORE: drop the members scored in `[min, max]`; an emptied set disappears. */
  function ZRemRangeByScore(s: Slot, min: int, max: int): (r: Result<Slot, StoreError>)
    ensures r.Success? <==> s.None? || s.value.value.ZSet?
    ensures r.Success? ==> SlotWellFormed(r.value) && (r.value.None? || r.value.value.value.ZSet?)
  {
    match s
    case None => Success(None)
    case Some(e) =>
      match e.value
      case ZSet(m) =>
        var kept := RemoveScoreRange(m, min, max);
        if |kept| == 0 then Success(None) else Success(Some(Entry(ZSet(kept), e.ttl)))
      case _ => Failure(WrongType)
  }

  /** The members of `m` whose score lies in `[min, max]`. */
  function MembersInRange(m: map<string, int>, min: int, max: int): set<string> {
    set k | k in m && min <= m[k] <= max
  }

  /** ZCARD: the number of members; 0 for a missing key. */
  function ZCard(s: Slot): Result<nat, StoreError> {
    match s
    case None => Success(0)
    case Some(e) =>
      match e.value
      case ZSet(m) => Success(|m|)
      case _ => Failure(WrongType)
  }

  /** ZCOUNT: the number of members scored in `[min, max]`; 0 for a missing key. */
  function ZCount(s: Slot, min: int, max: int): Result<nat, StoreError> {
    match s
    case None => Success(0)
    case Some(e) =>
      match e.value
      case ZSet(m) => Success(|MembersInRange(m, min, max)|)
      case _ => Failure(WrongType)
  }

  /**
   * The effect of ZADD's pairs taken left to right: each member gets its score, and
   * the count goes up for every member that was not there before.
   */
  function ZAddAll(m: map<string, int>, items: seq<ZItem>): (r: (map<string, int>, nat))
    ensures |r.0| == |m| + r.1
    ensures r.1 <= |items|
    ensures forall k | k in m :: k in r.0
  {
    if items == [] then (m, 0)
    else
      var prior := ZAddAll(m, items[..|items| - 1]);
      var item := items[|items| - 1];
      (prior.0[item.member := item.score], prior.1 + if item.member in prior.0 then 0 else 1)
  }

  /** ZADD: add or re-score members, creating the key if needed; the reply counts new members. */
  function ZAdd(s: Slot, items: seq<ZItem>): (r: Result<(Slot, nat), StoreError>)
    ensures r.Success? ==> r.value.0.Some? && SlotWellFormed(r.value.0)
  {
    if items == [] then Failure(WrongNumberOfArguments)
    else
      match s
      case None =>
        var added := ZAddAll(map[], items);
        Success((Some(Entry(ZSet(added.0), None)), added.1))
      case Some(e) =>
        match e.value
        case ZSet(m) =>
          var added := ZAddAll(m, items);
          Success((Some(Entry(ZSet(added.0), e.ttl)), added.1))
        case _ => Failure(WrongType)
  }
}
