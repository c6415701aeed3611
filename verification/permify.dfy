/**
  The permission-check cache of server/permify.ts, in front of an authority (Permify) whose
  answers change when relationship writes commit.

  Events are the pieces of code between awaits plus what happens remotely: the authority reads a
  request, a write commits there or is lost.  A trace is any interleaving of them.  Times are in ms.
 */
module PermifyCache {
  import opened Common

  // ---------------------------------------------------------------- keys and the TTL

  datatype CheckInput = CheckInput(
    entityType: string, entityId: string, permission: string,
    subjectType: string, subjectId: string, relation: Option<string>)

  function RelationSuffix(i: CheckInput): string {
    if i.relation.Some? && i.relation.value != "" then "#" + i.relation.value else ""
  }

  function CheckCacheKey(i: CheckInput): string {
    i.subjectType + (":" + (i.subjectId + (RelationSuffix(i) +
      ("|" + (i.permission + ("|" + (i.entityType + (":" + i.entityId))))))))
  }

  /** An absent and an empty relation ask the same question. */
  function Norm(i: CheckInput): CheckInput {
    if i.relation == Some("") then i.(relation := None) else i
  }

  /** Each component avoids the separator that ends it; the entity id may hold anything. */
  predicate Clean(i: CheckInput) {
    && ':' !in i.subjectType
    && '#' !in i.subjectId && '|' !in i.subjectId
    && (i.relation.Some? ==> '|' !in i.relation.value)
    && '|' !in i.permission
    && ':' !in i.entityType
  }

  /** Two texts cut at their first separator agree only if both parts do. */
  lemma {:induction false} CutAtSeparator(x: string, u: string, y: string, v: string, seps: set<char>)
    requires x + u == y + v && u != "" && v != "" && u[0] in seps && v[0] in seps
    requires forall c :: c in seps ==> c !in x && c !in y
    ensures x == y && u == v
  {
    assert (x + u)[0] == (y + v)[0];
    assert x != "" ==> (x + u)[0] in x;
    assert y != "" ==> (y + v)[0] in y;
    if x == "" {
      assert y == "";
      assert x + u == u && y + v == v;
    } else {
      assert (x + u)[0] == x[0] && (y + v)[0] == y[0];
      assert (x + u)[1..] == x[1..] + u && (y + v)[1..] == y[1..] + v;
      CutAtSeparator(x[1..], u, y[1..], v, seps);
    }
  }

  lemma CutTail(i: CheckInput, j: CheckInput)
    requires Clean(i) && Clean(j)
    requires i.permission + ("|" + (i.entityType + (":" + i.entityId))) ==
      j.permission + ("|" + (j.entityType + (":" + j.entityId)))
    ensures i.permission == j.permission && i.entityType == j.entityType && i.entityId == j.entityId
  {
    var a, b := i.entityType + (":" + i.entityId), j.entityType + (":" + j.entityId);
    CutAtSeparator(i.permission, "|" + a, j.permission, "|" + b, {'|'});
    assert ("|" + a)[1..] == a && ("|" + b)[1..] == b;
    CutAtSeparator(i.entityType, ":" + i.entityId, j.entityType, ":" + j.entityId, {':'});
    assert (":" + i.entityId)[1..] == i.entityId && (":" + j.entityId)[1..] == j.entityId;
  }

  lemma CutRelation(i: CheckInput, j: CheckInput, a: string, b: string)
    requires Clean(i) && Clean(j) && RelationSuffix(i) + ("|" + a) == RelationSuffix(j) + ("|" + b)
    ensures a == b && Norm(i).relation == Norm(j).relation
  {
    var r, q := RelationSuffix(i), RelationSuffix(j);
    assert (r + ("|" + a))[0] == if r == "" then '|' else '#';
    assert (q + ("|" + b))[0] == if q == "" then '|' else '#';
    CutAtSeparator(r, "|" + a, q, "|" + b, {'|'});
    assert ("|" + a)[1..] == a && ("|" + b)[1..] == b;
    if r != "" {
      assert r[1..] == i.relation.value && q[1..] == j.relation.value;
    }
  }

  /** Clean inputs share a cache key exactly when they ask the same question. */
  lemma KeyInjective(i: CheckInput, j: CheckInput)
    requires Clean(i) && Clean(j)
    ensures CheckCacheKey(i) == CheckCacheKey(j) <==> Norm(i) == Norm(j)
  {
    if CheckCacheKey(i) == CheckCacheKey(j) {
      var a := i.permission + ("|" + (i.entityType + (":" + i.entityId)));
      var b := j.permission + ("|" + (j.entityType + (":" + j.entityId)));
      var si, sj := RelationSuffix(i) + ("|" + a), RelationSuffix(j) + ("|" + b);
      CutAtSeparator(i.subjectType, ":" + (i.subjectId + si), j.subjectType, ":" + (j.subjectId + sj), {':'});
      assert (":" + (i.subjectId + si))[1..] == i.subjectId + si;
      assert (":" + (j.subjectId + sj))[1..] == j.subjectId + sj;
      assert si[0] in {'#', '|'} && sj[0] in {'#', '|'};
      CutAtSeparator(i.subjectId, si, j.subjectId, sj, {'#', '|'});
      CutRelation(i, j, a, b);
      CutTail(i, j);
    }
  }

  /** Without that, two different questions can share an entry. */
  lemma UncleanKeysCollide()
    ensures exists i, j :: Norm(i) != Norm(j) && CheckCacheKey(i) == CheckCacheKey(j)
  {
    var i := CheckInput("doc", "1", "read", "user", "7", Some("member"));
    var j := CheckInput("doc", "1", "read", "user", "7#member", None);
    assert CheckCacheKey(i) == CheckCacheKey(j);
  }

  /** PERMIFY_CHECK_CACHE_TTL_MS; None stands for a value that is not a finite number. */
  function TtlMs(raw: Option<real>): (ttl: real)
    ensures 30000.0 <= ttl <= 60000.0
    ensures raw.Some? && 30000.0 <= raw.value <= 60000.0 ==> ttl == raw.value
    ensures raw.None? || raw.value <= 0.0 ==> ttl == 45000.0
    ensures raw.Some? && 0.0 < raw.value < 30000.0 ==> ttl == 30000.0
    ensures raw.Some? && raw.value > 60000.0 ==> ttl == 60000.0
  {
    if raw.None? || raw.value <= 0.0 then 45000.0
    else if raw.value < 30000.0 then 30000.0
    else if raw.value > 60000.0 then 60000.0
    else raw.value
  }

  // ---------------------------------------------------------------- the cache

  datatype Entry = Entry(allowed: bool, expiresAt: real)

  type Cache = map<string, Entry>

  const MAX_ENTRIES := 10000
  const FETCH_TIMEOUT := 3000.0

  predicate Hit(cache: Cache, key: string, now: real) {
    key in cache && cache[key].expiresAt > now
  }

  /** An expired entry is deleted on lookup. */
  function AfterMiss(cache: Cache, key: string): Cache {
    cache - {key}
  }

  function AfterStore(cache: Cache, key: string, e: Entry): (r: Cache)
    ensures |cache| <= MAX_ENTRIES + 1 ==> |r| <= MAX_ENTRIES + 1
  {
    (if |cache| > MAX_ENTRIES then map[] else cache)[key := e]
  }

  /** What the fetch comes to: it throws, a status that is not ok, or an answer with its `can` field. */
  datatype Response = Throws | NotOk | Answered(can: Option<string>)

  class Permify {
    var checkCache: Cache
    const ttl: real

    constructor (raw: Option<real>)
      ensures checkCache == map[] && ttl == TtlMs(raw)
    {
      checkCache, ttl := map[], TtlMs(raw);
    }

    /** permifyCheck up to the fetch. */
    method Lookup(key: string, now: real) returns (verdict: Option<bool>)
      modifies this
      ensures verdict == if old(Hit(checkCache, key, now)) then Some(old(checkCache)[key].allowed) else None
      ensures checkCache == if verdict.Some? then old(checkCache) else AfterMiss(old(checkCache), key)
      ensures verdict.None? ==> key !in checkCache
      ensures forall k :: k in old(checkCache) && k != key ==>
        k in checkCache && checkCache[k] == old(checkCache)[k]
    {
      if key in checkCache {
        if checkCache[key].expiresAt > now {
          return Some(checkCache[key].allowed);
        }
        checkCache := map k | k in checkCache && k != key :: checkCache[k];
      }
      verdict := None;
      assert checkCache == AfterMiss(old(checkCache), key);
    }

    /** permifyCheck from an ok response on. */
    method Store(key: string, allowed: bool, now: real)
      modifies this
      ensures checkCache == AfterStore(old(checkCache), key, Entry(allowed, now + ttl))
      ensures key in checkCache && checkCache[key] == Entry(allowed, now + ttl)
      ensures forall k :: k != key ==> (k in checkCache <==> k in old(checkCache) && |old(checkCache)| <= 10000)
      ensures forall k :: k != key && k in checkCache ==> checkCache[k] == old(checkCache)[k]
    {
      if |checkCache| > MAX_ENTRIES {
        checkCache := map[];
      }
      checkCache := checkCache[key := Entry(allowed, now + ttl)];
    }

    /** One whole check; only an ok response enters the cache, every failure is closed in production. */
    method PermifyCheck(
        configured: bool, isProduction: bool, input: CheckInput, now: real, response: Response, then_: real)
      returns (allowed: bool)
      modifies this
      ensures !configured ==> allowed == !isProduction && checkCache == old(checkCache)
      ensures var key := CheckCacheKey(input);
        configured ==>
          if old(Hit(checkCache, key, now)) then
            allowed == old(checkCache)[key].allowed && checkCache == old(checkCache)
          else
            match response
            case Throws => allowed == !isProduction && checkCache == AfterMiss(old(checkCache), key)
            case NotOk => !allowed && checkCache == AfterMiss(old(checkCache), key)
            case Answered(can) =>
              && allowed == (can == Some("CHECK_RESULT_ALLOWED"))
              && checkCache == AfterStore(AfterMiss(old(checkCache), key), key, Entry(allowed, then_ + ttl))
    {
      if !configured {
        return !isProduction;
      }
      var key := CheckCacheKey(input);
      var hit := Lookup(key, now);
      if hit.Some? {
        return hit.value;
      }
      match response
      case Throws => allowed := !isProduction;
      case NotOk => allowed := false;
      case Answered(can) =>
        allowed := can == Some("CHECK_RESULT_ALLOWED");
        Store(key, allowed, then_);
    }

    /** permifyWriteRelationship and permifyDeleteRelationship before their fetch. */
    method Flush(configured: bool)
      modifies this
      ensures checkCache == if configured then map[] else old(checkCache)
    {
      if configured {
        checkCache := map[];
      }
    }
  }

  // ---------------------------------------------------------------- interleavings

  /** Where a verdict came from: the question, when it was answered, in which state of the authority. */
  datatype Origin = Origin(input: CheckInput, at: real, epoch: nat)

  /** A check waiting for its response; `answer` once the authority has read the request. */
  datatype Flight = Flight(input: CheckInput, sentAt: real, answer: Option<(bool, Origin)>)

  /** A verdict returned to a caller; None as origin: denied or allowed because of an error. */
  datatype Served = Served(
    input: CheckInput, verdict: bool, at: real, epochNow: nat, fromCache: bool, origin: Option<Origin>)

  /**
    `origins` and `stored` are the history of the cache entries (origin, and how many flushes came
    before the entry was stored).  `epoch` counts the relationship writes that have committed in
    Permify, `pendingWrites` those sent (cache flushed) that have neither committed nor been lost.
   */
  datatype State = State(
    now: real, cache: Cache, origins: map<string, Origin>, stored: map<string, nat>,
    flights: map<nat, Flight>, pendingWrites: nat, epoch: nat, flushes: nat, log: seq<Served>)

  const START := State(0.0, map[], map[], map[], map[], 0, 0, 0, [])

  datatype Event =
    | Tick(d: real)
    | StartCheck(id: nat, input: CheckInput)
    | Answer(id: nat)
    | Receive(id: nat)
    | Error(id: nat, verdict: bool)
    | StartWrite
    | Commit
    | Lose

  /** auth(e, i): Permify's answer to i after e writes. */
  type Authority = (nat, CheckInput) -> bool

  function ServeHit(s: State, key: string, input: CheckInput): State
    requires key in s.cache && key in s.origins
  {
    s.(log := s.log + [Served(input, s.cache[key].allowed, s.now, s.epoch, true, Some(s.origins[key]))])
  }

  function SendCheck(s: State, key: string, id: nat, input: CheckInput): State {
    s.(cache := AfterMiss(s.cache, key), flights := s.flights[id := Flight(input, s.now, None)])
  }

  /** permifyCheck up to its await; `id` names the call.  Every cached key has an origin (EntryOk). */
  function Check(s: State, id: nat, input: CheckInput): State {
    var key := CheckCacheKey(input);
    if id in s.flights then s
    else if Hit(s.cache, key, s.now) && key in s.origins then ServeHit(s, key, input)
    else SendCheck(s, key, id, input)
  }

  /** A response the 3 s timeout has not cut off. */
  predicate Arrives(s: State, id: nat) {
    id in s.flights && s.flights[id].answer.Some? && s.now - s.flights[id].sentAt <= FETCH_TIMEOUT
  }

  function Respond(s: State, id: nat, ttl: real): State
    requires Arrives(s, id)
  {
    var f := s.flights[id];
    var key := CheckCacheKey(f.input);
    var (allowed, origin) := f.answer.value;
    s.(cache := AfterStore(s.cache, key, Entry(allowed, s.now + ttl)),
       origins := s.origins[key := origin], stored := s.stored[key := s.flushes],
       flights := s.flights - {id},
       log := s.log + [Served(f.input, allowed, s.now, s.epoch, false, Some(origin))])
  }

  function AnswerFlight(auth: Authority, s: State, id: nat): State
    requires id in s.flights
  {
    var f := s.flights[id];
    var answer := (auth(s.epoch, Norm(f.input)), Origin(f.input, s.now, s.epoch));
    s.(flights := s.flights[id := f.(answer := Some(answer))])
  }

  /** The fetch throws, times out or is not ok: the caller gets the failure policy's verdict. */
  function Abort(s: State, id: nat, verdict: bool): State
    requires id in s.flights
  {
    s.(flights := s.flights - {id},
       log := s.log + [Served(s.flights[id].input, verdict, s.now, s.epoch, false, None)])
  }

  function SendWrite(s: State): State {
    s.(cache := map[], flushes := s.flushes + 1, pendingWrites := s.pendingWrites + 1)
  }

  function Settle(s: State, committed: bool): State
    requires s.pendingWrites > 0
  {
    s.(pendingWrites := s.pendingWrites - 1, epoch := s.epoch + if committed then 1 else 0)
  }

  function Next(auth: Authority, ttl: real, s: State, e: Event): State {
    match e
    case Tick(d) => if d >= 0.0 then s.(now := s.now + d) else s
    case StartCheck(id, input) => Check(s, id, input)
    case Answer(id) => if id in s.flights && s.flights[id].answer.None? then AnswerFlight(auth, s, id) else s
    case Receive(id) => if Arrives(s, id) then Respond(s, id, ttl) else s
    case Error(id, verdict) => if id in s.flights then Abort(s, id, verdict) else s
    case StartWrite => SendWrite(s)
    case Commit => if s.pendingWrites > 0 then Settle(s, true) else s
    case Lose => if s.pendingWrites > 0 then Settle(s, false) else s
  }

  function Exec(auth: Authority, ttl: real, s: State, trace: seq<Event>): State
    decreases |trace|
  {
    if trace == [] then s else Exec(auth, ttl, Next(auth, ttl, s, trace[0]), trace[1..])
  }

  predicate CleanTrace(trace: seq<Event>) {
    forall k :: 0 <= k < |trace| && trace[k].StartCheck? ==> Clean(trace[k].input)
  }

  // ---------------------------------------------------------------- bounded staleness

  predicate OriginOk(auth: Authority, s: State, o: Origin, input: CheckInput, verdict: bool) {
    && Norm(o.input) == Norm(input) && verdict == auth(o.epoch, Norm(input))
    && o.epoch <= s.epoch && o.at <= s.now
  }

  predicate EntryOk(auth: Authority, ttl: real, s: State, key: string) {
    && key in s.cache && key in s.origins && key in s.stored
    && var o := s.origins[key];
       && Clean(o.input) && CheckCacheKey(o.input) == key
       && OriginOk(auth, s, o, o.input, s.cache[key].allowed)
       && s.cache[key].expiresAt <= o.at + FETCH_TIMEOUT + ttl
       && s.stored[key] == s.flushes
  }

  predicate FlightOk(auth: Authority, s: State, f: Flight) {
    && Clean(f.input) && f.sentAt <= s.now
    && (f.answer.Some? ==>
          && f.answer.value.1.input == f.input && f.sentAt <= f.answer.value.1.at
          && OriginOk(auth, s, f.answer.value.1, f.input, f.answer.value.0))
  }

  /** A verdict that is not an error is Permify's own, at most TTL + 3 s old (3 s when not cached). */
  predicate ServedOk(auth: Authority, ttl: real, v: Served) {
    v.origin.Some? ==>
      var o := v.origin.value;
      && Norm(o.input) == Norm(v.input) && v.verdict == auth(o.epoch, Norm(v.input))
      && o.epoch <= v.epochNow
      && o.at <= v.at
      && (if v.fromCache then v.at < o.at + FETCH_TIMEOUT + ttl else v.at <= o.at + FETCH_TIMEOUT)
  }

  predicate EntriesOk(auth: Authority, ttl: real, s: State) {
    forall key :: key in s.cache ==> EntryOk(auth, ttl, s, key)
  }

  predicate FlightsOk(auth: Authority, s: State) {
    forall id :: id in s.flights ==> FlightOk(auth, s, s.flights[id])
  }

  predicate LogOk(auth: Authority, ttl: real, log: seq<Served>) {
    forall k :: 0 <= k < |log| ==> ServedOk(auth, ttl, log[k])
  }

  predicate Inv(auth: Authority, ttl: real, s: State) {
    |s.cache| <= MAX_ENTRIES + 1 && EntriesOk(auth, ttl, s) && FlightsOk(auth, s) && LogOk(auth, ttl, s.log)
  }

  /** Entries survive as long as they are kept, time goes on and nothing flushes. */
  lemma EntryStaysOk(auth: Authority, ttl: real, s: State, s': State, key: string)
    requires EntryOk(auth, ttl, s, key)
    requires key in s'.cache && s'.cache[key] == s.cache[key]
    requires key in s'.origins && s'.origins[key] == s.origins[key]
    requires key in s'.stored && s'.stored[key] == s.stored[key]
    requires s'.now >= s.now && s'.epoch >= s.epoch && s'.flushes == s.flushes
    ensures EntryOk(auth, ttl, s', key)
  {
  }

  lemma SameEntriesStayOk(auth: Authority, ttl: real, s: State, s': State)
    requires EntriesOk(auth, ttl, s)
    requires s'.cache == s.cache && s'.origins == s.origins && s'.stored == s.stored && s'.flushes == s.flushes
    requires s'.now >= s.now && s'.epoch >= s.epoch
    ensures EntriesOk(auth, ttl, s')
  {
    forall key | key in s'.cache ensures EntryOk(auth, ttl, s', key) {
      EntryStaysOk(auth, ttl, s, s', key);
    }
  }

  lemma FlightsStayOk(auth: Authority, s: State, s': State)
    requires FlightsOk(auth, s)
    requires forall id :: id in s'.flights ==> id in s.flights && s'.flights[id] == s.flights[id]
    requires s'.now >= s.now && s'.epoch >= s.epoch
    ensures FlightsOk(auth, s')
  {
    forall id | id in s'.flights ensures FlightOk(auth, s', s'.flights[id]) {
      assert FlightOk(auth, s, s.flights[id]);
    }
  }

  lemma ServeKeepsInv(auth: Authority, ttl: real, s: State, key: string, input: CheckInput)
    requires Inv(auth, ttl, s) && Clean(input) && key == CheckCacheKey(input)
    requires Hit(s.cache, key, s.now) && key in s.origins
    ensures Inv(auth, ttl, ServeHit(s, key, input))
  {
    assert EntryOk(auth, ttl, s, key);
    KeyInjective(s.origins[key].input, input);
    SameEntriesStayOk(auth, ttl, s, ServeHit(s, key, input));
    FlightsStayOk(auth, s, ServeHit(s, key, input));
  }

  lemma SendKeepsInv(auth: Authority, ttl: real, s: State, key: string, id: nat, input: CheckInput)
    requires Inv(auth, ttl, s) && Clean(input)
    ensures Inv(auth, ttl, SendCheck(s, key, id, input))
  {
    var s' := SendCheck(s, key, id, input);
    Smaller(s'.cache.Keys, s.cache.Keys);
    forall k | k in s'.cache ensures EntryOk(auth, ttl, s', k) {
      EntryStaysOk(auth, ttl, s, s', k);
    }
    forall i | i in s'.flights ensures FlightOk(auth, s', s'.flights[i]) {
      assert i != id ==> FlightOk(auth, s, s.flights[i]);
    }
  }

  lemma CheckKeepsInv(auth: Authority, ttl: real, s: State, id: nat, input: CheckInput)
    requires Inv(auth, ttl, s) && Clean(input)
    ensures Inv(auth, ttl, Check(s, id, input))
  {
    var key := CheckCacheKey(input);
    if Hit(s.cache, key, s.now) && key in s.origins {
      ServeKeepsInv(auth, ttl, s, key, input);
    } else {
      SendKeepsInv(auth, ttl, s, key, id, input);
    }
  }

  lemma Smaller(a: set<string>, b: set<string>)
    requires a <= b
    ensures |a| <= |b|
  {
    assert b == a + (b - a);
  }

  lemma RespondKeepsInv(auth: Authority, ttl: real, s: State, id: nat)
    requires Inv(auth, ttl, s) && Arrives(s, id)
    ensures Inv(auth, ttl, Respond(s, id, ttl))
  {
    var s' := Respond(s, id, ttl);
    NewEntryOk(auth, ttl, s, id);
    forall k | k in s'.cache ensures EntryOk(auth, ttl, s', k) {
      if k != CheckCacheKey(s.flights[id].input) {
        EntryStaysOk(auth, ttl, s, s', k);
      }
    }
    FlightsStayOk(auth, s, s');
  }

  lemma NewEntryOk(auth: Authority, ttl: real, s: State, id: nat)
    requires FlightsOk(auth, s) && LogOk(auth, ttl, s.log) && Arrives(s, id)
    ensures EntryOk(auth, ttl, Respond(s, id, ttl), CheckCacheKey(s.flights[id].input))
    ensures LogOk(auth, ttl, Respond(s, id, ttl).log)
  {
    assert FlightOk(auth, s, s.flights[id]);
  }

  /** Time passes or a write settles: nothing new becomes known. */
  lemma LaterKeepsInv(auth: Authority, ttl: real, s: State, s': State)
    requires Inv(auth, ttl, s) && s'.now >= s.now && s'.epoch >= s.epoch
    requires s' == s.(now := s'.now, epoch := s'.epoch, pendingWrites := s'.pendingWrites)
    ensures Inv(auth, ttl, s')
  {
    SameEntriesStayOk(auth, ttl, s, s');
    FlightsStayOk(auth, s, s');
  }

  lemma AbortKeepsInv(auth: Authority, ttl: real, s: State, id: nat, verdict: bool)
    requires Inv(auth, ttl, s) && id in s.flights
    ensures Inv(auth, ttl, Abort(s, id, verdict))
  {
    SameEntriesStayOk(auth, ttl, s, Abort(s, id, verdict));
    FlightsStayOk(auth, s, Abort(s, id, verdict));
  }

  lemma FlushKeepsInv(auth: Authority, ttl: real, s: State)
    requires Inv(auth, ttl, s)
    ensures Inv(auth, ttl, SendWrite(s))
  {
    FlightsStayOk(auth, s, SendWrite(s));
  }

  lemma AnswerKeepsInv(auth: Authority, ttl: real, s: State, id: nat)
    requires Inv(auth, ttl, s) && id in s.flights
    ensures Inv(auth, ttl, AnswerFlight(auth, s, id))
  {
    var s' := AnswerFlight(auth, s, id);
    SameEntriesStayOk(auth, ttl, s, s');
    forall i | i in s'.flights ensures FlightOk(auth, s', s'.flights[i]) {
      assert FlightOk(auth, s, s.flights[i]);
    }
  }

  lemma StepKeepsInv(auth: Authority, ttl: real, s: State, e: Event)
    requires Inv(auth, ttl, s) && (e.StartCheck? ==> Clean(e.input))
    ensures Inv(auth, ttl, Next(auth, ttl, s, e))
  {
    match e
    case StartCheck(id, input) => CheckKeepsInv(auth, ttl, s, id, input);
    case Receive(id) => if Arrives(s, id) { RespondKeepsInv(auth, ttl, s, id); }
    case Answer(id) => if id in s.flights { AnswerKeepsInv(auth, ttl, s, id); }
    case Error(id, verdict) => if id in s.flights { AbortKeepsInv(auth, ttl, s, id, verdict); }
    case StartWrite => FlushKeepsInv(auth, ttl, s);
    case _ => QuietKeepsInv(auth, ttl, s, e);
  }

  lemma QuietKeepsInv(auth: Authority, ttl: real, s: State, e: Event)
    requires Inv(auth, ttl, s) && (e.Tick? || e.Commit? || e.Lose?)
    ensures Inv(auth, ttl, Next(auth, ttl, s, e))
  {
    match e
    case Tick(d) => if d >= 0.0 { LaterKeepsInv(auth, ttl, s, s.(now := s.now + d)); }
    case Commit => if s.pendingWrites > 0 { LaterKeepsInv(auth, ttl, s, Settle(s, true)); }
    case Lose => if s.pendingWrites > 0 { LaterKeepsInv(auth, ttl, s, Settle(s, false)); }
    case _ =>
  }

  lemma {:induction false} ExecKeepsInv(auth: Authority, ttl: real, s: State, trace: seq<Event>)
    requires Inv(auth, ttl, s) && CleanTrace(trace)
    ensures Inv(auth, ttl, Exec(auth, ttl, s, trace))
    decreases |trace|
  {
    if trace != [] {
      StepKeepsInv(auth, ttl, s, trace[0]);
      assert forall k :: 0 <= k < |trace[1..]| ==> trace[1..][k] == trace[k + 1];
      ExecKeepsInv(auth, ttl, Next(auth, ttl, s, trace[0]), trace[1..]);
    }
  }

  /**
    Bounded staleness over every interleaving, however writes overlap checks: each verdict that is
    not an error is one Permify gave to that question less than TTL + 3 s ago, so under 63 s; what
    is in the cache was stored after the last flush; and the map never exceeds 10001 entries.
   */
  lemma BoundedStaleness(auth: Authority, raw: Option<real>, trace: seq<Event>)
    requires CleanTrace(trace)
    ensures var s := Exec(auth, TtlMs(raw), START, trace);
      && LogOk(auth, TtlMs(raw), s.log)
      && (forall k :: 0 <= k < |s.log| && s.log[k].origin.Some? ==> s.log[k].at - s.log[k].origin.value.at < 63000.0)
      && (forall key :: key in s.cache ==> key in s.stored && s.stored[key] == s.flushes)
      && |s.cache| <= 10001
  {
    ExecKeepsInv(auth, TtlMs(raw), START, trace);
    var s := Exec(auth, TtlMs(raw), START, trace);
    forall k | 0 <= k < |s.log| && s.log[k].origin.Some?
      ensures s.log[k].at - s.log[k].origin.value.at < 63000.0
    {
      assert ServedOk(auth, TtlMs(raw), s.log[k]);
    }
    forall key | key in s.cache ensures key in s.stored && s.stored[key] == s.flushes {
      assert EntryOk(auth, TtlMs(raw), s, key);
    }
  }

  // ---------------------------------------------------------------- exactness

  /** No check is under way when a write starts, and none starts until the write is settled. */
  predicate Separate(s: State, e: Event) {
    && (e.StartWrite? ==> s.flights == map[])
    && (e.StartCheck? ==> s.pendingWrites == 0)
  }

  predicate SeparateTrace(auth: Authority, ttl: real, s: State, trace: seq<Event>)
    decreases |trace|
  {
    trace == [] || (Separate(s, trace[0]) && SeparateTrace(auth, ttl, Next(auth, ttl, s, trace[0]), trace[1..]))
  }

  predicate CurrentOrigins(s: State) {
    forall key :: key in s.cache && key in s.origins ==> s.origins[key].epoch == s.epoch
  }

  predicate CurrentFlights(s: State) {
    forall id :: id in s.flights && s.flights[id].answer.Some? ==> s.flights[id].answer.value.1.epoch == s.epoch
  }

  predicate CurrentLog(log: seq<Served>) {
    forall k :: 0 <= k < |log| && log[k].origin.Some? ==> log[k].origin.value.epoch == log[k].epochNow
  }

  /** Everything known was answered in the authority's present state; nothing is known mid-write. */
  predicate Current(s: State) {
    && CurrentOrigins(s) && CurrentFlights(s) && CurrentLog(s.log)
    && (s.pendingWrites > 0 ==> s.flights == map[] && s.cache == map[])
  }

  lemma CheckKeepsCurrent(s: State, id: nat, input: CheckInput)
    requires Current(s) && s.pendingWrites == 0
    ensures Current(Check(s, id, input))
  {
  }

  lemma RespondKeepsCurrent(s: State, id: nat, ttl: real)
    requires Current(s) && Arrives(s, id)
    ensures Current(Respond(s, id, ttl))
  {
  }

  lemma StepKeepsCurrent(auth: Authority, ttl: real, s: State, e: Event)
    requires Current(s) && Separate(s, e)
    ensures Current(Next(auth, ttl, s, e))
  {
    match e
    case StartCheck(id, input) => CheckKeepsCurrent(s, id, input);
    case Receive(id) => if Arrives(s, id) { RespondKeepsCurrent(s, id, ttl); }
    case _ =>
  }

  lemma {:induction false} ExecKeepsCurrent(auth: Authority, ttl: real, s: State, trace: seq<Event>)
    requires Current(s) && SeparateTrace(auth, ttl, s, trace)
    ensures Current(Exec(auth, ttl, s, trace))
    decreases |trace|
  {
    if trace != [] {
      StepKeepsCurrent(auth, ttl, s, trace[0]);
      ExecKeepsCurrent(auth, ttl, Next(auth, ttl, s, trace[0]), trace[1..]);
    }
  }

  /**
    Refinement: while checks and writes do not overlap, every verdict that is not an error is what
    an uncached query would return at the moment it is served.
   */
  lemma CacheRefinesUncachedCheck(auth: Authority, ttl: real, trace: seq<Event>, k: nat)
    requires CleanTrace(trace) && SeparateTrace(auth, ttl, START, trace)
    requires k < |Exec(auth, ttl, START, trace).log|
    ensures var v := Exec(auth, ttl, START, trace).log[k];
      v.origin.Some? ==> v.verdict == auth(v.epochNow, Norm(v.input))
  {
    ExecKeepsInv(auth, ttl, START, trace);
    ExecKeepsCurrent(auth, ttl, START, trace);
    assert ServedOk(auth, ttl, Exec(auth, ttl, START, trace).log[k]);
  }

  // ---------------------------------------------------------------- when a verdict is stale

  predicate SameFlight(f: Flight, g: Flight) {
    && f.input == g.input && f.sentAt == g.sentAt && f.answer.Some? == g.answer.Some?
    && (f.answer.Some? ==> f.answer.value.1 == g.answer.value.1)
  }

  predicate SameServed(v: Served, w: Served) {
    v.origin == w.origin && (v.origin.Some? ==> v.(verdict := false) == w.(verdict := false))
  }

  predicate SameCache(c: Cache, d: Cache) {
    c.Keys == d.Keys && forall k :: k in c ==> c[k].expiresAt == d[k].expiresAt
  }

  predicate SameFlights(s: State, t: State) {
    s.flights.Keys == t.flights.Keys && forall id :: id in s.flights ==> SameFlight(s.flights[id], t.flights[id])
  }

  predicate SameLog(l: seq<Served>, m: seq<Served>) {
    |l| == |m| && forall k :: 0 <= k < |l| ==> SameServed(l[k], m[k])
  }

  /** The same run under another authority: only verdicts may differ, never what is served when. */
  predicate SameShape(s: State, t: State) {
    && s.now == t.now && s.pendingWrites == t.pendingWrites && s.epoch == t.epoch && s.flushes == t.flushes
    && s.origins == t.origins && s.stored == t.stored
    && SameCache(s.cache, t.cache) && SameFlights(s, t) && SameLog(s.log, t.log)
  }

  lemma StoreKeepsSame(c: Cache, d: Cache, key: string, e: Entry, f: Entry)
    requires SameCache(c, d) && e.expiresAt == f.expiresAt
    ensures SameCache(AfterStore(c, key, e), AfterStore(d, key, f))
  {
    assert |c| == |c.Keys| == |d.Keys| == |d|;
  }

  lemma ServeKeepsShape(s: State, t: State, key: string, input: CheckInput)
    requires SameShape(s, t) && key in s.cache && key in s.origins
    ensures SameShape(ServeHit(s, key, input), ServeHit(t, key, input))
  {
  }

  lemma SendKeepsShape(s: State, t: State, key: string, id: nat, input: CheckInput)
    requires SameShape(s, t)
    ensures SameShape(SendCheck(s, key, id, input), SendCheck(t, key, id, input))
  {
    assert SameCache(AfterMiss(s.cache, key), AfterMiss(t.cache, key));
  }

  lemma CheckKeepsShape(s: State, t: State, id: nat, input: CheckInput)
    requires SameShape(s, t)
    ensures SameShape(Check(s, id, input), Check(t, id, input))
  {
    var key := CheckCacheKey(input);
    assert Hit(s.cache, key, s.now) <==> Hit(t.cache, key, t.now);
    if Hit(s.cache, key, s.now) && key in s.origins {
      ServeKeepsShape(s, t, key, input);
    } else {
      SendKeepsShape(s, t, key, id, input);
    }
  }

  lemma RespondKeepsShape(s: State, t: State, id: nat, ttl: real)
    requires SameShape(s, t) && Arrives(s, id) && Arrives(t, id)
    ensures SameShape(Respond(s, id, ttl), Respond(t, id, ttl))
  {
    assert SameFlight(s.flights[id], t.flights[id]);
    RespondKeepsSameCache(s, t, id, ttl);
    RespondKeepsSameLog(s, t, id, ttl);
    assert SameFlights(Respond(s, id, ttl), Respond(t, id, ttl));
  }

  lemma RespondStores(s: State, id: nat, ttl: real)
    requires Arrives(s, id)
    ensures Respond(s, id, ttl).cache ==
      AfterStore(s.cache, CheckCacheKey(s.flights[id].input), Entry(s.flights[id].answer.value.0, s.now + ttl))
  {
  }

  lemma RespondKeepsSameCache(s: State, t: State, id: nat, ttl: real)
    requires Arrives(s, id) && Arrives(t, id) && SameFlight(s.flights[id], t.flights[id])
    requires SameCache(s.cache, t.cache) && s.now == t.now
    ensures SameCache(Respond(s, id, ttl).cache, Respond(t, id, ttl).cache)
  {
    RespondStores(s, id, ttl);
    RespondStores(t, id, ttl);
    StoreKeepsSame(s.cache, t.cache, CheckCacheKey(s.flights[id].input),
                   Entry(s.flights[id].answer.value.0, s.now + ttl), Entry(t.flights[id].answer.value.0, t.now + ttl));
  }

  lemma RespondKeepsSameLog(s: State, t: State, id: nat, ttl: real)
    requires Arrives(s, id) && Arrives(t, id) && SameFlight(s.flights[id], t.flights[id])
    requires SameLog(s.log, t.log) && s.now == t.now && s.epoch == t.epoch
    ensures SameLog(Respond(s, id, ttl).log, Respond(t, id, ttl).log)
  {
    var n := |s.log|;
    assert SameServed(Respond(s, id, ttl).log[n], Respond(t, id, ttl).log[n]);
  }

  lemma AnswerKeepsShape(a: Authority, b: Authority, s: State, t: State, id: nat)
    requires SameShape(s, t) && id in s.flights
    ensures SameShape(AnswerFlight(a, s, id), AnswerFlight(b, t, id))
  {
    assert SameFlight(s.flights[id], t.flights[id]);
  }

  lemma AbortKeepsShape(s: State, t: State, id: nat, verdict: bool)
    requires SameShape(s, t) && id in s.flights
    ensures SameShape(Abort(s, id, verdict), Abort(t, id, verdict))
  {
    assert SameFlight(s.flights[id], t.flights[id]);
  }

  lemma ReceiveKeepsShape(a: Authority, b: Authority, ttl: real, s: State, t: State, id: nat)
    requires SameShape(s, t)
    ensures SameShape(Next(a, ttl, s, Receive(id)), Next(b, ttl, t, Receive(id)))
  {
    assert id in s.flights ==> SameFlight(s.flights[id], t.flights[id]);
    if Arrives(s, id) {
      RespondKeepsShape(s, t, id, ttl);
    }
  }

  lemma ReplyKeepsShape(a: Authority, b: Authority, ttl: real, s: State, t: State, e: Event)
    requires SameShape(s, t) && (e.Answer? || e.Error?)
    ensures SameShape(Next(a, ttl, s, e), Next(b, ttl, t, e))
  {
    if e.id in s.flights {
      assert SameFlight(s.flights[e.id], t.flights[e.id]);
      AnswerKeepsShape(a, b, s, t, e.id);
      AbortKeepsShape(s, t, e.id, e.Error? && e.verdict);
    }
  }

  lemma QuietKeepsShape(a: Authority, b: Authority, ttl: real, s: State, t: State, e: Event)
    requires SameShape(s, t) && (e.Tick? || e.StartWrite? || e.Commit? || e.Lose?)
    ensures SameShape(Next(a, ttl, s, e), Next(b, ttl, t, e))
  {
    match e
    case StartWrite => FlushKeepsShape(s, t);
    case Commit => if s.pendingWrites > 0 { SettleKeepsShape(s, t, true); }
    case Lose => if s.pendingWrites > 0 { SettleKeepsShape(s, t, false); }
    case _ =>
  }

  lemma FlushKeepsShape(s: State, t: State)
    requires SameShape(s, t)
    ensures SameShape(SendWrite(s), SendWrite(t))
  {
  }

  lemma SettleKeepsShape(s: State, t: State, committed: bool)
    requires SameShape(s, t) && s.pendingWrites > 0
    ensures SameShape(Settle(s, committed), Settle(t, committed))
  {
  }

  lemma StepKeepsShape(a: Authority, b: Authority, ttl: real, s: State, t: State, e: Event)
    requires SameShape(s, t)
    ensures SameShape(Next(a, ttl, s, e), Next(b, ttl, t, e))
  {
    match e
    case StartCheck(id, input) => CheckKeepsShape(s, t, id, input);
    case Receive(id) => ReceiveKeepsShape(a, b, ttl, s, t, id);
    case Answer(_) => ReplyKeepsShape(a, b, ttl, s, t, e);
    case Error(_, _) => ReplyKeepsShape(a, b, ttl, s, t, e);
    case _ => QuietKeepsShape(a, b, ttl, s, t, e);
  }

  lemma {:induction false} ExecKeepsShape(a: Authority, b: Authority, ttl: real, s: State, t: State, trace: seq<Event>)
    requires SameShape(s, t)
    ensures SameShape(Exec(a, ttl, s, trace), Exec(b, ttl, t, trace))
    decreases |trace|
  {
    if trace != [] {
      StepKeepsShape(a, b, ttl, s, t, trace[0]);
      ExecKeepsShape(a, b, ttl, Next(a, ttl, s, trace[0]), Next(b, ttl, t, trace[0]), trace[1..]);
    }
  }

  /** Verdict k of this run is right whatever Permify's answers are. */
  ghost predicate RightUnderEveryAuthority(ttl: real, trace: seq<Event>, k: nat) {
    forall auth: Authority :: k < |Exec(auth, ttl, START, trace).log| ==>
      var v := Exec(auth, ttl, START, trace).log[k]; v.verdict == auth(v.epochNow, Norm(v.input))
  }

  /**
    The exact condition: a served verdict can be relied on exactly when no write has committed
    between Permify's answer and the moment it is served.
   */
  lemma ReliableIffNoCommitSince(auth: Authority, ttl: real, trace: seq<Event>, k: nat)
    requires CleanTrace(trace) && k < |Exec(auth, ttl, START, trace).log|
    requires Exec(auth, ttl, START, trace).log[k].origin.Some?
    ensures var v := Exec(auth, ttl, START, trace).log[k];
      RightUnderEveryAuthority(ttl, trace, k) <==> v.origin.value.epoch == v.epochNow
  {
    var v := Exec(auth, ttl, START, trace).log[k];
    forall other: Authority
      ensures k < |Exec(other, ttl, START, trace).log|
      ensures var w := Exec(other, ttl, START, trace).log[k];
        w.(verdict := false) == v.(verdict := false) && w.verdict == other(v.origin.value.epoch, Norm(v.input))
    {
      ExecKeepsShape(auth, other, ttl, START, START, trace);
      ExecKeepsInv(other, ttl, START, trace);
      assert ServedOk(other, ttl, Exec(other, ttl, START, trace).log[k]);
    }
    var fickle: Authority := (e, i) => e == v.origin.value.epoch;
    if v.origin.value.epoch != v.epochNow {
      assert Exec(fickle, ttl, START, trace).log[k].verdict;
      assert !RightUnderEveryAuthority(ttl, trace, k);
    }
  }

  // ---------------------------------------------------------------- the same over the trace

  /** The state just before event n. */
  function At(auth: Authority, ttl: real, trace: seq<Event>, n: nat): State
    requires n <= |trace|
  {
    Exec(auth, ttl, START, trace[..n])
  }

  lemma {:induction false} ExecSnoc(auth: Authority, ttl: real, s: State, trace: seq<Event>, e: Event)
    ensures Exec(auth, ttl, s, trace + [e]) == Next(auth, ttl, Exec(auth, ttl, s, trace), e)
    decreases |trace|
  {
    if trace == [] {
      assert ([] + [e])[1..] == [];
    } else {
      assert (trace + [e])[1..] == trace[1..] + [e];
      ExecSnoc(auth, ttl, Next(auth, ttl, s, trace[0]), trace[1..], e);
    }
  }

  lemma AtNext(auth: Authority, ttl: real, trace: seq<Event>, n: nat)
    requires n < |trace|
    ensures At(auth, ttl, trace, n + 1) == Next(auth, ttl, At(auth, ttl, trace, n), trace[n])
  {
    assert trace[..n + 1] == trace[..n] + [trace[n]];
    ExecSnoc(auth, ttl, START, trace[..n], trace[n]);
  }

  /** Event m is Permify answering the question that o stands for. */
  predicate AnsweredAt(auth: Authority, ttl: real, trace: seq<Event>, m: nat, o: Origin) {
    && m < |trace| && trace[m].Answer?
    && var s := At(auth, ttl, trace, m);
       trace[m].id in s.flights && o == Origin(s.flights[trace[m].id].input, s.now, s.epoch)
  }

  /** Event n gives its caller verdict number k. */
  predicate ServedAt(auth: Authority, ttl: real, trace: seq<Event>, n: nat, k: nat) {
    n < |trace| && |At(auth, ttl, trace, n).log| == k < |At(auth, ttl, trace, n + 1).log|
  }

  /** Event j is a relationship write committing in Permify. */
  predicate CommitsAt(auth: Authority, ttl: real, trace: seq<Event>, j: nat)
    requires j < |trace|
  {
    trace[j].Commit? && At(auth, ttl, trace, j).pendingWrites > 0
  }

  ghost predicate NoCommitBetween(auth: Authority, ttl: real, trace: seq<Event>, m: nat, n: nat)
    requires n <= |trace|
  {
    forall j :: m < j < n ==> !CommitsAt(auth, ttl, trace, j)
  }

  /** Every origin in the state is one of those in known. */
  ghost predicate OnlyKnown(known: iset<Origin>, s: State) {
    && (forall key :: key in s.origins ==> s.origins[key] in known)
    && (forall id :: id in s.flights && s.flights[id].answer.Some? ==> s.flights[id].answer.value.1 in known)
    && (forall k :: 0 <= k < |s.log| && s.log[k].origin.Some? ==> s.log[k].origin.value in known)
  }

  lemma CheckKeepsKnown(known: iset<Origin>, s: State, id: nat, input: CheckInput)
    requires OnlyKnown(known, s)
    ensures OnlyKnown(known, Check(s, id, input))
  {
  }

  lemma RespondKeepsKnown(known: iset<Origin>, s: State, id: nat, ttl: real)
    requires OnlyKnown(known, s) && Arrives(s, id)
    ensures OnlyKnown(known, Respond(s, id, ttl))
  {
  }

  lemma StepKeepsKnown(auth: Authority, ttl: real, known: iset<Origin>, s: State, e: Event)
    requires OnlyKnown(known, s)
    requires e.Answer? && e.id in s.flights ==> Origin(s.flights[e.id].input, s.now, s.epoch) in known
    ensures OnlyKnown(known, Next(auth, ttl, s, e))
  {
    match e
    case StartCheck(id, input) => CheckKeepsKnown(known, s, id, input);
    case Receive(id) => if Arrives(s, id) { RespondKeepsKnown(known, s, id, ttl); }
    case _ =>
  }

  ghost function AnsweredBefore(auth: Authority, ttl: real, trace: seq<Event>, n: nat): iset<Origin> {
    iset o: Origin | WasAnswered(auth, ttl, trace, n, o)
  }

  ghost predicate WasAnswered(auth: Authority, ttl: real, trace: seq<Event>, n: nat, o: Origin) {
    exists m: nat :: m < n && AnsweredAt(auth, ttl, trace, m, o)
  }

  lemma MoreKnown(known: iset<Origin>, more: iset<Origin>, s: State)
    requires OnlyKnown(known, s) && known <= more
    ensures OnlyKnown(more, s)
  {
  }

  lemma AnsweredGrows(auth: Authority, ttl: real, trace: seq<Event>, n: nat)
    ensures AnsweredBefore(auth, ttl, trace, n) <= AnsweredBefore(auth, ttl, trace, n + 1)
  {
    forall o | o in AnsweredBefore(auth, ttl, trace, n) ensures o in AnsweredBefore(auth, ttl, trace, n + 1) {
      var m: nat :| m < n && AnsweredAt(auth, ttl, trace, m, o);
      assert m < n + 1 && AnsweredAt(auth, ttl, trace, m, o);
    }
  }

  lemma {:induction false} OriginsWereAnswered(auth: Authority, ttl: real, trace: seq<Event>, n: nat)
    requires n <= |trace|
    ensures OnlyKnown(AnsweredBefore(auth, ttl, trace, n), At(auth, ttl, trace, n))
  {
    if n == 0 {
      StartsEmpty(auth, ttl, trace);
    } else {
      OriginsWereAnswered(auth, ttl, trace, n - 1);
      AtNext(auth, ttl, trace, n - 1);
      var s, e := At(auth, ttl, trace, n - 1), trace[n - 1];
      var known := AnsweredBefore(auth, ttl, trace, n);
      AnsweredGrows(auth, ttl, trace, n - 1);
      MoreKnown(AnsweredBefore(auth, ttl, trace, n - 1), known, s);
      if e.Answer? && e.id in s.flights {
        assert AnsweredAt(auth, ttl, trace, n - 1, Origin(s.flights[e.id].input, s.now, s.epoch));
      }
      StepKeepsKnown(auth, ttl, known, s, e);
    }
  }

  /** From s to s' at most one verdict is given, with the epoch of s. */
  predicate LogsOne(s: State, s': State) {
    && |s.log| <= |s'.log| <= |s.log| + 1 && s.log == s'.log[..|s.log|]
    && (|s.log| < |s'.log| ==> s'.log[|s.log|].epochNow == s.epoch)
  }

  lemma CheckLogs(s: State, id: nat, input: CheckInput)
    ensures LogsOne(s, Check(s, id, input)) && Check(s, id, input).epoch == s.epoch
  {
  }

  lemma RespondLogs(s: State, id: nat, ttl: real)
    requires Arrives(s, id)
    ensures LogsOne(s, Respond(s, id, ttl)) && Respond(s, id, ttl).epoch == s.epoch
  {
  }

  lemma StepLogs(auth: Authority, ttl: real, s: State, e: Event)
    ensures var s' := Next(auth, ttl, s, e);
      && LogsOne(s, s')
      && (|s.log| < |s'.log| ==> !e.Answer? && !e.Commit?)
      && s'.epoch == s.epoch + (if e.Commit? && s.pendingWrites > 0 then 1 else 0)
  {
    match e
    case StartCheck(id, input) => CheckLogs(s, id, input);
    case Receive(id) => if Arrives(s, id) { RespondLogs(s, id, ttl); }
    case _ =>
  }

  /** Verdict k is given by some event, and then stays in the log as it is. */
  lemma {:induction false} ServedBySomeEvent(auth: Authority, ttl: real, trace: seq<Event>, k: nat, end: nat)
    returns (n: nat)
    requires end <= |trace| && k < |At(auth, ttl, trace, end).log|
    ensures n < end && ServedAt(auth, ttl, trace, n, k)
  {
    StartsEmpty(auth, ttl, trace);
    AtNext(auth, ttl, trace, end - 1);
    StepLogs(auth, ttl, At(auth, ttl, trace, end - 1), trace[end - 1]);
    if k < |At(auth, ttl, trace, end - 1).log| {
      n := ServedBySomeEvent(auth, ttl, trace, k, end - 1);
    } else {
      n := end - 1;
    }
  }

  lemma StartsEmpty(auth: Authority, ttl: real, trace: seq<Event>)
    ensures At(auth, ttl, trace, 0) == START
  {
    assert trace[..0] == [];
  }

  lemma {:induction false} LogKeeps(auth: Authority, ttl: real, trace: seq<Event>, n: nat, end: nat)
    requires n <= end <= |trace|
    ensures var l := At(auth, ttl, trace, n).log;
      |l| <= |At(auth, ttl, trace, end).log| && l == At(auth, ttl, trace, end).log[..|l|]
  {
    if n < end {
      LogKeeps(auth, ttl, trace, n, end - 1);
      AtNext(auth, ttl, trace, end - 1);
      StepLogs(auth, ttl, At(auth, ttl, trace, end - 1), trace[end - 1]);
    }
  }

  /** The epoch stands still exactly while nothing commits. */
  lemma {:induction false} EpochCounts(auth: Authority, ttl: real, trace: seq<Event>, m: nat, n: nat)
    requires m < n <= |trace| && !trace[m].Commit?
    ensures At(auth, ttl, trace, m).epoch <= At(auth, ttl, trace, n).epoch
    ensures At(auth, ttl, trace, m).epoch == At(auth, ttl, trace, n).epoch
      <==> NoCommitBetween(auth, ttl, trace, m, n)
  {
    AtNext(auth, ttl, trace, n - 1);
    StepLogs(auth, ttl, At(auth, ttl, trace, n - 1), trace[n - 1]);
    if m < n - 1 {
      EpochCounts(auth, ttl, trace, m, n - 1);
      assert NoCommitBetween(auth, ttl, trace, m, n)
        <==> NoCommitBetween(auth, ttl, trace, m, n - 1) && !CommitsAt(auth, ttl, trace, n - 1);
    } else {
      assert NoCommitBetween(auth, ttl, trace, m, n);
    }
  }

  lemma ServedEpoch(auth: Authority, ttl: real, trace: seq<Event>, n: nat, k: nat)
    requires ServedAt(auth, ttl, trace, n, k)
    ensures k < |Exec(auth, ttl, START, trace).log| && !trace[n].Answer? && !trace[n].Commit?
    ensures Exec(auth, ttl, START, trace).log[k].epochNow == At(auth, ttl, trace, n).epoch
  {
    AtNext(auth, ttl, trace, n);
    StepLogs(auth, ttl, At(auth, ttl, trace, n), trace[n]);
    LogKeeps(auth, ttl, trace, n + 1, |trace|);
    assert trace[..|trace|] == trace;
  }

  /**
    The exact condition, on the events: a served verdict can be relied on exactly when no write
    commits between Permify's answer to the check that obtained it and the event that serves it,
    be that the same check or a later one that finds it in the cache.
   */
  lemma ReliableIffNoCommitBetween(auth: Authority, ttl: real, trace: seq<Event>, k: nat)
    requires CleanTrace(trace) && k < |Exec(auth, ttl, START, trace).log|
    requires Exec(auth, ttl, START, trace).log[k].origin.Some?
    ensures var o := Exec(auth, ttl, START, trace).log[k].origin.value;
      && (exists m: nat, n: nat :: m < n && AnsweredAt(auth, ttl, trace, m, o) && ServedAt(auth, ttl, trace, n, k))
      && forall m: nat, n: nat :: AnsweredAt(auth, ttl, trace, m, o) && ServedAt(auth, ttl, trace, n, k) ==>
           (RightUnderEveryAuthority(ttl, trace, k) <==> NoCommitBetween(auth, ttl, trace, m, n))
  {
    var o := Exec(auth, ttl, START, trace).log[k].origin.value;
    ReliableIffNoCommitSince(auth, ttl, trace, k);
    AnswerExists(auth, ttl, trace, k);
    forall m: nat, n: nat | AnsweredAt(auth, ttl, trace, m, o) && ServedAt(auth, ttl, trace, n, k)
      ensures RightUnderEveryAuthority(ttl, trace, k) <==> NoCommitBetween(auth, ttl, trace, m, n)
    {
      ServedEpoch(auth, ttl, trace, n, k);
      if m < n {
        EpochCounts(auth, ttl, trace, m, n);
      } else {
        EpochCounts(auth, ttl, trace, n, m);
        ExecKeepsInv(auth, ttl, START, trace);
        assert ServedOk(auth, ttl, Exec(auth, ttl, START, trace).log[k]);
      }
    }
  }

  lemma AnswerExists(auth: Authority, ttl: real, trace: seq<Event>, k: nat)
    requires k < |Exec(auth, ttl, START, trace).log| && Exec(auth, ttl, START, trace).log[k].origin.Some?
    ensures var o := Exec(auth, ttl, START, trace).log[k].origin.value;
      exists m: nat, n: nat :: m < n && AnsweredAt(auth, ttl, trace, m, o) && ServedAt(auth, ttl, trace, n, k)
  {
    var o := Exec(auth, ttl, START, trace).log[k].origin.value;
    assert trace[..|trace|] == trace;
    var n := ServedBySomeEvent(auth, ttl, trace, k, |trace|);
    SameVerdict(auth, ttl, trace, n, k);
    AnsweredByThen(auth, ttl, trace, n + 1, k, o);
    ServedEpoch(auth, ttl, trace, n, k);
    var m: nat :| m < n + 1 && AnsweredAt(auth, ttl, trace, m, o);
    assert m != n;
  }

  lemma SameVerdict(auth: Authority, ttl: real, trace: seq<Event>, n: nat, k: nat)
    requires ServedAt(auth, ttl, trace, n, k)
    ensures k < |Exec(auth, ttl, START, trace).log|
    ensures At(auth, ttl, trace, n + 1).log[k] == Exec(auth, ttl, START, trace).log[k]
  {
    LogKeeps(auth, ttl, trace, n + 1, |trace|);
    assert trace[..|trace|] == trace;
  }

  lemma AnsweredByThen(auth: Authority, ttl: real, trace: seq<Event>, n: nat, k: nat, o: Origin)
    requires n <= |trace| && k < |At(auth, ttl, trace, n).log| && At(auth, ttl, trace, n).log[k].origin == Some(o)
    ensures WasAnswered(auth, ttl, trace, n, o)
  {
    OriginsWereAnswered(auth, ttl, trace, n);
    assert o in AnsweredBefore(auth, ttl, trace, n);
  }

  // ---------------------------------------------------------------- what the cache keeps

  /** Event m stores a verdict under this key: a response that is not too late. */
  predicate StoresAt(auth: Authority, ttl: real, trace: seq<Event>, m: nat, key: string) {
    m < |trace| && StoresNow(At(auth, ttl, trace, m), trace[m], key)
  }

  predicate StoresNow(s: State, e: Event, key: string) {
    e.Receive? && Arrives(s, e.id) && CheckCacheKey(s.flights[e.id].input) == key
  }

  /** The verdict that comes with it. */
  function StoredVerdict(s: State, e: Event): bool
    requires e.Receive? && Arrives(s, e.id)
  {
    s.flights[e.id].answer.value.0
  }

  /** A relationship write begins, or a response is stored when more than 10000 are. */
  predicate EmptiesNow(s: State, e: Event) {
    e.StartWrite? || (e.Receive? && Arrives(s, e.id) && |s.cache| > 10000)
  }

  /** A verdict for key is stored at m, and nothing empties the cache between m and n. */
  ghost predicate StoredSince(auth: Authority, ttl: real, trace: seq<Event>, m: nat, n: nat, key: string)
    requires n <= |trace|
  {
    && m < n && StoresAt(auth, ttl, trace, m, key)
    && forall j :: m < j < n ==> !EmptiesNow(At(auth, ttl, trace, j), trace[j])
  }

  /** And it is the last one stored for key. */
  ghost predicate LastStored(auth: Authority, ttl: real, trace: seq<Event>, m: nat, n: nat, key: string)
    requires n <= |trace|
  {
    && StoredSince(auth, ttl, trace, m, n, key)
    && forall j :: m < j < n ==> !StoresAt(auth, ttl, trace, j, key)
  }

  /** Less than the TTL has passed from event m to event n. */
  predicate Young(auth: Authority, ttl: real, trace: seq<Event>, m: nat, n: nat)
    requires m <= |trace| && n <= |trace|
  {
    At(auth, ttl, trace, n).now < At(auth, ttl, trace, m).now + ttl
  }

  predicate HaveOrigins(s: State) {
    forall key :: key in s.cache ==> key in s.origins
  }

  /** What one event does to one entry: it is stored, lost with all others, kept, or expired and gone. */
  predicate EntryFollows(s: State, e: Event, s': State, ttl: real, key: string) {
    if StoresNow(s, e, key) then
      key in s'.cache && s'.cache[key] == Entry(StoredVerdict(s, e), s.now + ttl)
    else if EmptiesNow(s, e) then key !in s'.cache
    else if key in s'.cache then key in s.cache && s'.cache[key] == s.cache[key]
    else key !in s.cache || s.cache[key].expiresAt <= s.now
  }

  lemma EntryStep(auth: Authority, ttl: real, s: State, e: Event, key: string)
    requires HaveOrigins(s)
    ensures var s' := Next(auth, ttl, s, e);
      HaveOrigins(s') && s'.now >= s.now && EntryFollows(s, e, s', ttl, key)
  {
    match e
    case StartCheck(id, input) => CheckEntry(s, id, input, key);
    case Receive(id) => if Arrives(s, id) { RespondEntry(s, id, ttl, key); }
    case _ =>
  }

  lemma CheckEntry(s: State, id: nat, input: CheckInput, key: string)
    requires HaveOrigins(s)
    ensures var s' := Check(s, id, input);
      && HaveOrigins(s') && s'.now == s.now
      && if key in s'.cache then key in s.cache && s'.cache[key] == s.cache[key]
         else key !in s.cache || s.cache[key].expiresAt <= s.now
  {
  }

  lemma RespondEntry(s: State, id: nat, ttl: real, key: string)
    requires HaveOrigins(s) && Arrives(s, id)
    ensures var s' := Respond(s, id, ttl);
      && HaveOrigins(s') && s'.now == s.now
      && if CheckCacheKey(s.flights[id].input) == key then
           key in s'.cache && s'.cache[key] == Entry(s.flights[id].answer.value.0, s.now + ttl)
         else if |s.cache| > 10000 then key !in s'.cache
         else (key in s'.cache <==> key in s.cache) && (key in s.cache ==> s'.cache[key] == s.cache[key])
  {
  }

  lemma {:induction false} OriginsKept(auth: Authority, ttl: real, trace: seq<Event>, n: nat)
    requires n <= |trace|
    ensures HaveOrigins(At(auth, ttl, trace, n))
  {
    if n == 0 {
      StartsEmpty(auth, ttl, trace);
    } else {
      OriginsKept(auth, ttl, trace, n - 1);
      AtNext(auth, ttl, trace, n - 1);
      EntryStep(auth, ttl, At(auth, ttl, trace, n - 1), trace[n - 1], "");
    }
  }

  /** The entry that event m stored. */
  function StoredEntry(auth: Authority, ttl: real, trace: seq<Event>, m: nat, key: string): Entry
    requires StoresAt(auth, ttl, trace, m, key)
  {
    Entry(StoredVerdict(At(auth, ttl, trace, m), trace[m]), At(auth, ttl, trace, m).now + ttl)
  }

  lemma EntryStepAt(auth: Authority, ttl: real, trace: seq<Event>, n: nat, key: string)
    requires n < |trace|
    ensures EntryFollows(At(auth, ttl, trace, n), trace[n], At(auth, ttl, trace, n + 1), ttl, key)
    ensures At(auth, ttl, trace, n).now <= At(auth, ttl, trace, n + 1).now
  {
    OriginsKept(auth, ttl, trace, n);
    AtNext(auth, ttl, trace, n);
    EntryStep(auth, ttl, At(auth, ttl, trace, n), trace[n], key);
  }

  lemma StillLast(auth: Authority, ttl: real, trace: seq<Event>, m: nat, n: nat, key: string)
    requires n < |trace| && LastStored(auth, ttl, trace, m, n, key)
    requires !EmptiesNow(At(auth, ttl, trace, n), trace[n]) && !StoresAt(auth, ttl, trace, n, key)
    ensures LastStored(auth, ttl, trace, m, n + 1, key)
  {
  }

  lemma JustStored(auth: Authority, ttl: real, trace: seq<Event>, n: nat, key: string)
    requires StoresAt(auth, ttl, trace, n, key)
    ensures LastStored(auth, ttl, trace, n, n + 1, key)
    ensures key in At(auth, ttl, trace, n + 1).cache
    ensures At(auth, ttl, trace, n + 1).cache[key] == StoredEntry(auth, ttl, trace, n, key)
  {
    EntryStepAt(auth, ttl, trace, n, key);
  }

  /** An entry that is not stored at n was there before, as it is. */
  lemma WasThere(auth: Authority, ttl: real, trace: seq<Event>, n: nat, key: string)
    requires n < |trace| && key in At(auth, ttl, trace, n + 1).cache && !StoresAt(auth, ttl, trace, n, key)
    ensures key in At(auth, ttl, trace, n).cache && !EmptiesNow(At(auth, ttl, trace, n), trace[n])
    ensures At(auth, ttl, trace, n + 1).cache[key] == At(auth, ttl, trace, n).cache[key]
  {
    EntryStepAt(auth, ttl, trace, n, key);
  }

  /** What is in the cache was stored, and is as the last store for its key left it. */
  lemma {:induction false} CachedWasStored(auth: Authority, ttl: real, trace: seq<Event>, n: nat, key: string)
    returns (m: nat)
    requires n <= |trace| && key in At(auth, ttl, trace, n).cache
    ensures LastStored(auth, ttl, trace, m, n, key)
    ensures At(auth, ttl, trace, n).cache[key] == StoredEntry(auth, ttl, trace, m, key)
  {
    StartsEmpty(auth, ttl, trace);
    if StoresAt(auth, ttl, trace, n - 1, key) {
      m := n - 1;
      JustStored(auth, ttl, trace, m, key);
    } else {
      WasThere(auth, ttl, trace, n - 1, key);
      m := CachedWasStored(auth, ttl, trace, n - 1, key);
      StillLast(auth, ttl, trace, m, n - 1, key);
    }
  }

  /** key is in the cache before event n, and stays for at least the TTL from event m on. */
  predicate CachedFrom(auth: Authority, ttl: real, trace: seq<Event>, m: nat, n: nat, key: string)
    requires m <= |trace| && n <= |trace|
  {
    && key in At(auth, ttl, trace, n).cache
    && At(auth, ttl, trace, n).cache[key].expiresAt >= At(auth, ttl, trace, m).now + ttl
  }

  lemma StaysCached(auth: Authority, ttl: real, trace: seq<Event>, m: nat, n: nat, key: string)
    requires m <= n < |trace| && CachedFrom(auth, ttl, trace, m, n, key) && Young(auth, ttl, trace, m, n)
    requires !EmptiesNow(At(auth, ttl, trace, n), trace[n])
    requires At(auth, ttl, trace, m).now <= At(auth, ttl, trace, n).now
    ensures CachedFrom(auth, ttl, trace, m, n + 1, key)
  {
    EntryStepAt(auth, ttl, trace, n, key);
  }

  /** And what was stored is there until it expires, is stored again, or the cache is emptied. */
  lemma {:induction false} StoredIsCached(auth: Authority, ttl: real, trace: seq<Event>, m: nat, n: nat, key: string)
    requires n <= |trace| && StoredSince(auth, ttl, trace, m, n, key) && Young(auth, ttl, trace, m, n)
    ensures CachedFrom(auth, ttl, trace, m, n, key)
  {
    if m < n - 1 {
      StoredEarlier(auth, ttl, trace, m, n, key);
      StoredIsCached(auth, ttl, trace, m, n - 1, key);
      TimeGoesOn(auth, ttl, trace, m, n - 1);
      StaysCached(auth, ttl, trace, m, n - 1, key);
    } else {
      JustStored(auth, ttl, trace, m, key);
    }
  }

  lemma StoredEarlier(auth: Authority, ttl: real, trace: seq<Event>, m: nat, n: nat, key: string)
    requires m + 1 < n <= |trace| && StoredSince(auth, ttl, trace, m, n, key) && Young(auth, ttl, trace, m, n)
    ensures StoredSince(auth, ttl, trace, m, n - 1, key) && Young(auth, ttl, trace, m, n - 1)
    ensures !EmptiesNow(At(auth, ttl, trace, n - 1), trace[n - 1])
  {
    TimeGoesOn(auth, ttl, trace, n - 1, n);
  }

  lemma {:induction false} TimeGoesOn(auth: Authority, ttl: real, trace: seq<Event>, m: nat, n: nat)
    requires m <= n <= |trace|
    ensures At(auth, ttl, trace, m).now <= At(auth, ttl, trace, n).now
  {
    if m < n {
      TimeGoesOn(auth, ttl, trace, m, n - 1);
      EntryStepAt(auth, ttl, trace, n - 1, "");
    }
  }

  /** Event n gives a verdict from the cache. */
  predicate ServesFromCache(auth: Authority, ttl: real, trace: seq<Event>, n: nat) {
    && n < |trace| && ServedAt(auth, ttl, trace, n, |At(auth, ttl, trace, n).log|)
    && At(auth, ttl, trace, n + 1).log[|At(auth, ttl, trace, n).log|].fromCache
  }

  /**
    Retention, over every interleaving: a check is answered from the cache exactly when a response
    for its key was stored less than the TTL ago, with no relationship write begun since and no later
    store that found more than 10000 entries.  The verdict is the one stored last; any other check is
    sent to Permify, and an expired entry is gone.
   */
  lemma ServedFromCacheIffKept(auth: Authority, ttl: real, trace: seq<Event>, n: nat)
    requires n < |trace| && trace[n].StartCheck? && trace[n].id !in At(auth, ttl, trace, n).flights
    ensures var key := CheckCacheKey(trace[n].input);
      ServesFromCache(auth, ttl, trace, n) <==>
        exists m: nat :: StoredSince(auth, ttl, trace, m, n, key) && Young(auth, ttl, trace, m, n)
    ensures ServesFromCache(auth, ttl, trace, n) ==>
      var key := CheckCacheKey(trace[n].input);
      var v := At(auth, ttl, trace, n + 1).log[|At(auth, ttl, trace, n).log|];
      && v.input == trace[n].input
      && exists m: nat :: LastStored(auth, ttl, trace, m, n, key)
           && v.verdict == StoredVerdict(At(auth, ttl, trace, m), trace[m])
    ensures !ServesFromCache(auth, ttl, trace, n) ==>
      && trace[n].id in At(auth, ttl, trace, n + 1).flights
      && CheckCacheKey(trace[n].input) !in At(auth, ttl, trace, n + 1).cache
  {
    var s, key := At(auth, ttl, trace, n), CheckCacheKey(trace[n].input);
    AtNext(auth, ttl, trace, n);
    OriginsKept(auth, ttl, trace, n);
    if Hit(s.cache, key, s.now) {
      var m := CachedWasStored(auth, ttl, trace, n, key);
      assert StoredSince(auth, ttl, trace, m, n, key) && Young(auth, ttl, trace, m, n);
      assert ServesFromCache(auth, ttl, trace, n);
    }
    if exists m: nat :: StoredSince(auth, ttl, trace, m, n, key) && Young(auth, ttl, trace, m, n) {
      var m: nat :| StoredSince(auth, ttl, trace, m, n, key) && Young(auth, ttl, trace, m, n);
      StoredIsCached(auth, ttl, trace, m, n, key);
    }
  }

  /** A response on its way for 3 s, answered when it was sent. */
  function Late(auth: Authority, input: CheckInput): State {
    var answer := (auth(0, Norm(input)), Origin(input, 0.0, 0));
    State(3000.0, map[], map[], map[], map[0 := Flight(input, 0.0, Some(answer))], 0, 0, 0, [])
  }

  lemma AnswerThenWait(auth: Authority, ttl: real, input: CheckInput)
    ensures Exec(auth, ttl, START, [StartCheck(0, input), Answer(0), Tick(3000.0)]) == Late(auth, input)
  {
    var a, b, c := StartCheck(0, input), Answer(0), Tick(3000.0);
    ExecSnoc(auth, ttl, START, [], a);
    ExecSnoc(auth, ttl, START, [a], b);
    ExecSnoc(auth, ttl, START, [a, b], c);
    assert [] + [a] == [a] && [a] + [b] == [a, b] && [a, b] + [c] == [a, b, c];
  }

  lemma ServedAfterWait(auth: Authority, ttl: real, input: CheckInput, wait: real)
    requires 0.0 <= wait < ttl
    ensures var later := Next(auth, ttl, Respond(Late(auth, input), 0, ttl), Tick(wait));
      var s := Next(auth, ttl, later, StartCheck(1, input));
      && |s.log| == 2 && s.log[1].fromCache && s.log[1].at == 3000.0 + wait
      && s.log[1].origin == Some(Origin(input, 0.0, 0))
  {
    var s, key := Respond(Late(auth, input), 0, ttl), CheckCacheKey(input);
    assert s.cache == map[key := Entry(auth(0, Norm(input)), 3000.0 + ttl)] && key in s.origins && s.flights == map[];
  }

  /**
    The bound on the age of a verdict cannot be lowered: for every wait below the TTL there is a run
    in which a verdict is served 3 s and that wait after Permify gave it.
   */
  lemma StalenessIsReached(auth: Authority, ttl: real, input: CheckInput, wait: real)
    requires 0.0 <= wait < ttl
    ensures var trace := [StartCheck(0, input), Answer(0), Tick(3000.0), Receive(0), Tick(wait), StartCheck(1, input)];
      var s := Exec(auth, ttl, START, trace);
      |s.log| == 2 && s.log[1].fromCache && s.log[1].origin.Some?
      && s.log[1].at - s.log[1].origin.value.at == 3000.0 + wait
  {
    AnswerThenWait(auth, ttl, input);
    ServedAfterWait(auth, ttl, input, wait);
    var t := [StartCheck(0, input), Answer(0), Tick(3000.0)];
    ExecSnoc(auth, ttl, START, t, Receive(0));
    ExecSnoc(auth, ttl, START, t + [Receive(0)], Tick(wait));
    ExecSnoc(auth, ttl, START, t + [Receive(0)] + [Tick(wait)], StartCheck(1, input));
    assert t + [Receive(0)] + [Tick(wait)] + [StartCheck(1, input)]
        == [StartCheck(0, input), Answer(0), Tick(3000.0), Receive(0), Tick(wait), StartCheck(1, input)];
  }

  /**
    So "revocations take effect immediately" fails when a check overlaps one: the answer given
    before the commit is stored after the flush, and served although the revocation has finished.
   */
  lemma RevocationCanBeServedStale(ttl: real, input: CheckInput)
    requires 30000.0 <= ttl <= 60000.0
    ensures var auth: Authority := (e, i) => e == 0;
      var trace := [StartCheck(0, input), Answer(0), StartWrite, Commit, Receive(0), StartCheck(1, input)];
      var s := Exec(auth, ttl, START, trace);
      && |s.log| == 2 && s.pendingWrites == 0
      && s.log[1].verdict && s.log[1].fromCache && !auth(s.epoch, Norm(input))
  {
    var auth: Authority := (e, i) => e == 0;
    AnswerThenRevoke(auth, ttl, input);
    StoredLate(auth, ttl, input);
    ServedLate(auth, ttl, input);
    var t := [StartCheck(0, input), Answer(0), StartWrite, Commit];
    ExecSnoc(auth, ttl, START, t, Receive(0));
    ExecSnoc(auth, ttl, START, t + [Receive(0)], StartCheck(1, input));
    assert t + [Receive(0)] + [StartCheck(1, input)]
        == [StartCheck(0, input), Answer(0), StartWrite, Commit, Receive(0), StartCheck(1, input)];
  }

  /** A check answered before a write that has committed since, its response still on the way. */
  function Overtaken(auth: Authority, input: CheckInput): State {
    var answer := (auth(0, Norm(input)), Origin(input, 0.0, 0));
    State(0.0, map[], map[], map[], map[0 := Flight(input, 0.0, Some(answer))], 0, 1, 1, [])
  }

  lemma AnswerThenRevoke(auth: Authority, ttl: real, input: CheckInput)
    ensures Exec(auth, ttl, START, [StartCheck(0, input), Answer(0), StartWrite, Commit]) == Overtaken(auth, input)
  {
    var a, b, c, d := StartCheck(0, input), Answer(0), StartWrite, Commit;
    ExecSnoc(auth, ttl, START, [], a);
    ExecSnoc(auth, ttl, START, [a], b);
    ExecSnoc(auth, ttl, START, [a, b], c);
    ExecSnoc(auth, ttl, START, [a, b, c], d);
    assert [] + [a] == [a] && [a] + [b] == [a, b] && [a, b] + [c] == [a, b, c] && [a, b, c] + [d] == [a, b, c, d];
  }

  /** The late response is stored after the flush. */
  function StoredAfter(auth: Authority, ttl: real, input: CheckInput): State {
    Respond(Overtaken(auth, input), 0, ttl)
  }

  lemma StoredLate(auth: Authority, ttl: real, input: CheckInput)
    ensures Next(auth, ttl, Overtaken(auth, input), Receive(0)) == StoredAfter(auth, ttl, input)
  {
  }

  lemma ServedLate(auth: Authority, ttl: real, input: CheckInput)
    requires ttl > 0.0
    ensures var s := Next(auth, ttl, StoredAfter(auth, ttl, input), StartCheck(1, input));
      && |s.log| == 2 && s.pendingWrites == 0 && s.epoch == 1
      && s.log[1].verdict == auth(0, Norm(input)) && s.log[1].fromCache
  {
    var s, key := StoredAfter(auth, ttl, input), CheckCacheKey(input);
    assert s.cache == map[key := Entry(auth(0, Norm(input)), ttl)] && key in s.origins && s.flights == map[];
  }
}
