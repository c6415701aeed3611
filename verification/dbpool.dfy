/**
  The pooled database client of server/db.ts: getDb, resetDbConnection and withRetry over the
  module's shared variables.

  JavaScript runs one piece of code between two awaits without interruption.  Each such piece is
  one event below, so a trace of events is one interleaving of any number of concurrent callers.
 */
module DbPool {
  import opened Common
  import opened Powers

  // ---------------------------------------------------------------- the pool

  /** What creating the client does: postgres() or drizzle() may throw. */
  datatype Creation = Works | PostgresThrows | DrizzleThrows

  /**
    Clients are numbered as created; a drizzle instance is named by its client.  `ended` counts
    how often each client was handed to end(), `overwritten` is the number of times getDb stored a
    new client over one that was never ended.
   */
  datatype Pool = Pool(
    db: Option<nat>, client: Option<nat>, currentDb: Option<nat>,
    resets: nat, created: nat, ended: multiset<nat>, overwritten: nat)

  const EMPTY := Pool(None, None, None, 0, 0, multiset{}, 0)

  function AfterGetDb(p: Pool, hasUrl: bool, c: Creation): Pool {
    if p.db.Some? || !hasUrl || c.PostgresThrows? then p
    else
      var made := Some(p.created);
      var q := p.(client := made, created := p.created + 1,
                  overwritten := p.overwritten + if p.client.Some? then 1 else 0);
      if c.Works? then q.(db := made, currentDb := made) else q
  }

  /** The part of resetDbConnection before its await. */
  function Reset(p: Pool): Pool {
    var q := p.(db := None, client := None);
    match p.client
    case None => q
    case Some(c) => q.(resets := p.resets + 1, ended := p.ended + multiset{c})
  }

  /** Every client was created before, none is ended twice, and the current one is not ended. */
  predicate PoolInv(p: Pool) {
    && (forall c :: c in p.ended ==> c < p.created && p.ended[c] == 1)
    && (p.client.Some? ==> p.client.value < p.created && p.client.value !in p.ended)
    && (p.db.Some? ==> p.db == p.client && p.currentDb == p.db)
    && |p.ended| == p.resets
    && p.created == p.resets + p.overwritten + (if p.client.Some? then 1 else 0)
  }

  // ---------------------------------------------------------------- withRetry

  datatype CallOutcome = Rejected | Returned | Threw

  /** Where a withRetry call is waiting: for fn, for its backoff timer, for the reset. */
  datatype Phase =
    | NotStarted
    | InFn(attempt: nat) | Sleeping(attempt: nat) | Resetting(attempt: nat)
    | Finished(outcome: CallOutcome)

  /** `tries`, `swaps` and `slept` record what the call has done so far. */
  datatype Call = Call(retries: int, baseDelay: real, phase: Phase, tries: nat, swaps: nat, slept: real)

  datatype State = State(pool: Pool, queuedOps: int, calls: seq<Call>)

  datatype Event =
    | Enter(id: nat)
    | FnReturns(id: nat)
    | FnThrows(id: nat, transient: bool, jitter: real)
    | TimerFires(id: nat)
    | ResetDone(id: nat)
    | CallGetDb(hasUrl: bool, creation: Creation)
    | CallReset

  /** poolQueueMax(), on the two parsed environment variables. */
  function PoolQueueMax(explicit: Option<int>, poolMax: Option<int>): (max: int)
    ensures explicit.Some? && explicit.value > 0 ==> max == explicit.value
    ensures !(explicit.Some? && explicit.value > 0) && poolMax.Some? && poolMax.value > 0 ==>
              25 <= max && 4 * poolMax.value <= max && (max == 25 || max == 4 * poolMax.value)
    ensures !(explicit.Some? && explicit.value > 0) && !(poolMax.Some? && poolMax.value > 0) ==> max == 40
  {
    if explicit.Some? && explicit.value > 0 then explicit.value
    else
      var scaled := (if poolMax.Some? && poolMax.value > 0 then poolMax.value else 10) * 4;
      if scaled > 25 then scaled else 25
  }

  /** baseDelayMs * Math.pow(2, n), by doubling; DoubledIsPower says it is that. */
  function Doubled(b: real, n: nat): real {
    if n == 0 then b else Doubled(b, n - 1) + Doubled(b, n - 1)
  }

  lemma {:induction false} DoubledIsPower(b: real, n: nat)
    ensures Doubled(b, n) == b * Pow2(n) as real
  {
    if n != 0 {
      DoubledIsPower(b, n - 1);
      var p := Pow2(n - 1) as real;
      assert b * (p + p) == b * p + b * p;
      assert Pow2(n) as real == p + p;
    }
  }

  predicate Inside(c: Call) {
    c.phase.InFn? || c.phase.Sleeping? || c.phase.Resetting?
  }

  /** The call's own step; the result says how queuedOps and the pool change with it. */
  datatype Effect = Effect(call: Call, queued: int, resets: bool)

  function EnterCall(c: Call, queuedOps: int, max: int): Effect {
    if !c.phase.NotStarted? then Effect(c, 0, false)
    else if queuedOps >= max then Effect(c.(phase := Finished(Rejected)), 0, false)
    else if c.retries <= 0 then Effect(c.(phase := Finished(Threw)), 0, false)
    else Effect(c.(phase := InFn(0), tries := c.tries + 1), 1, false)
  }

  function FnSettles(c: Call, ok: bool, transient: bool, jitter: real): Effect {
    match c.phase
    case InFn(attempt) =>
      if ok then Effect(c.(phase := Finished(Returned)), -1, false)
      else if !transient || attempt == c.retries - 1 then Effect(c.(phase := Finished(Threw)), -1, false)
      else
        var delay := Doubled(c.baseDelay, attempt) + jitter * 50.0;
        Effect(c.(phase := Sleeping(attempt), slept := c.slept + delay), 0, false)
    case _ => Effect(c, 0, false)
  }

  function WakeUp(c: Call): Effect {
    match c.phase
    case Sleeping(attempt) => Effect(c.(phase := Resetting(attempt), swaps := c.swaps + 1), 0, true)
    case _ => Effect(c, 0, false)
  }

  function TryAgain(c: Call): Effect {
    match c.phase
    case Resetting(attempt) => Effect(c.(phase := InFn(attempt + 1), tries := c.tries + 1), 0, false)
    case _ => Effect(c, 0, false)
  }

  function CallStep(c: Call, e: Event, queuedOps: int, max: int): Effect {
    match e
    case Enter(_) => EnterCall(c, queuedOps, max)
    case FnReturns(_) => FnSettles(c, true, false, 0.0)
    case FnThrows(_, transient, jitter) => FnSettles(c, false, transient, jitter)
    case TimerFires(_) => WakeUp(c)
    case ResetDone(_) => TryAgain(c)
    case _ => Effect(c, 0, false)
  }

  function Next(s: State, e: Event, max: int): (s': State)
    ensures |s'.calls| == |s.calls|
  {
    match e
    case CallGetDb(hasUrl, creation) => s.(pool := AfterGetDb(s.pool, hasUrl, creation))
    case CallReset => s.(pool := Reset(s.pool))
    case _ =>
      if e.id >= |s.calls| then s
      else
        var f := CallStep(s.calls[e.id], e, s.queuedOps, max);
        State(if f.resets then Reset(s.pool) else s.pool, s.queuedOps + f.queued, s.calls[e.id := f.call])
  }

  function Exec(s: State, trace: seq<Event>, max: int): (s': State)
    ensures |s'.calls| == |s.calls|
    decreases |trace|
  {
    if trace == [] then s else Exec(Next(s, trace[0], max), trace[1..], max)
  }

  predicate Init(s: State) {
    && s.pool == EMPTY && s.queuedOps == 0
    && forall i :: 0 <= i < |s.calls| ==>
         s.calls[i].phase.NotStarted? && s.calls[i].tries == 0 && s.calls[i].swaps == 0 && s.calls[i].slept == 0.0
  }

  /** Math.random() is in [0, 1). */
  predicate Jittered(trace: seq<Event>) {
    forall k :: 0 <= k < |trace| && trace[k].FnThrows? ==> 0.0 <= trace[k].jitter < 1.0
  }

  // ---------------------------------------------------------------- invariants

  function CountInside(calls: seq<Call>): nat {
    if calls == [] then 0
    else CountInside(calls[..|calls| - 1]) + if Inside(calls[|calls| - 1]) then 1 else 0
  }

  /** After n backoffs of a call with this base delay: base * (2^n - 1) plus less than 50 n ms. */
  predicate SleptWithin(c: Call, n: nat) {
    && (n == 0 ==> c.slept == 0.0)
    && Doubled(c.baseDelay, n) - c.baseDelay <= c.slept
    && (n > 0 ==> c.slept < Doubled(c.baseDelay, n) - c.baseDelay + 50.0 * n as real)
  }

  /** A call has made one try more than swaps while in fn, and never more than `retries`. */
  predicate CallInv(c: Call) {
    match c.phase
    case NotStarted => c.tries == c.swaps == 0 && SleptWithin(c, 0)
    case InFn(a) => a < c.retries && c.tries == a + 1 && c.swaps == a && SleptWithin(c, a)
    case Sleeping(a) => a + 1 < c.retries && c.tries == a + 1 && c.swaps == a && SleptWithin(c, a + 1)
    case Resetting(a) => a + 1 < c.retries && c.tries == a + 1 && c.swaps == a + 1 && SleptWithin(c, a + 1)
    case Finished(_) =>
      if c.tries == 0 then c.swaps == 0 && SleptWithin(c, 0)
      else c.tries <= c.retries && c.swaps == c.tries - 1 && SleptWithin(c, c.swaps)
  }

  predicate Inv(s: State, max: int) {
    && PoolInv(s.pool)
    && s.queuedOps == CountInside(s.calls) && s.queuedOps <= max
    && forall i :: 0 <= i < |s.calls| ==> CallInv(s.calls[i])
  }

  lemma {:induction false} CountUpdate(calls: seq<Call>, i: nat, c: Call)
    requires i < |calls|
    ensures CountInside(calls[i := c]) ==
      CountInside(calls) + (if Inside(c) then 1 else 0) - (if Inside(calls[i]) then 1 else 0)
  {
    var n := |calls| - 1;
    if i == n {
      assert calls[i := c][..n] == calls[..n];
    } else {
      assert calls[i := c][..n] == calls[..n][i := c];
      CountUpdate(calls[..n], i, c);
    }
  }

  lemma ResetKeeps(p: Pool)
    requires PoolInv(p)
    ensures PoolInv(Reset(p))
  {
  }

  lemma GetDbKeeps(p: Pool, hasUrl: bool, c: Creation)
    requires PoolInv(p)
    ensures PoolInv(AfterGetDb(p, hasUrl, c))
  {
  }

  lemma CallStepKeeps(c: Call, e: Event, queuedOps: int, max: int)
    requires CallInv(c) && (e.FnThrows? ==> 0.0 <= e.jitter < 1.0)
    ensures var f := CallStep(c, e, queuedOps, max);
      && CallInv(f.call)
      && f.queued == (if Inside(f.call) then 1 else 0) - (if Inside(c) then 1 else 0)
      && (f.queued > 0 ==> queuedOps < max)
      && (f.resets <==> f.call.swaps == c.swaps + 1)
  {
    match e
    case FnReturns(_) => SettlingKeeps(c, true, false, 0.0);
    case FnThrows(_, transient, jitter) => SettlingKeeps(c, false, transient, jitter);
    case _ =>
  }

  lemma SettlingKeeps(c: Call, ok: bool, transient: bool, jitter: real)
    requires CallInv(c) && 0.0 <= jitter < 1.0
    ensures var f := FnSettles(c, ok, transient, jitter);
      && CallInv(f.call) && !f.resets && f.call.swaps == c.swaps
      && f.queued == (if Inside(f.call) then 1 else 0) - (if Inside(c) then 1 else 0) && f.queued <= 0
  {
  }

  lemma StepKeepsPool(s: State, e: Event, max: int)
    requires PoolInv(s.pool)
    ensures PoolInv(Next(s, e, max).pool)
  {
    ResetKeeps(s.pool);
    if e.CallGetDb? {
      GetDbKeeps(s.pool, e.hasUrl, e.creation);
    }
  }

  lemma StepKeepsInv(s: State, e: Event, max: int)
    requires Inv(s, max) && (e.FnThrows? ==> 0.0 <= e.jitter < 1.0)
    ensures Inv(Next(s, e, max), max)
  {
    StepKeepsPool(s, e, max);
    if !e.CallGetDb? && !e.CallReset? && e.id < |s.calls| {
      var f := CallStep(s.calls[e.id], e, s.queuedOps, max);
      CallStepKeeps(s.calls[e.id], e, s.queuedOps, max);
      CountUpdate(s.calls, e.id, f.call);
    }
  }

  lemma {:induction false} ExecKeepsInv(s: State, trace: seq<Event>, max: int)
    requires Inv(s, max) && Jittered(trace)
    ensures Inv(Exec(s, trace, max), max)
    decreases |trace|
  {
    if trace != [] {
      StepKeepsInv(s, trace[0], max);
      assert forall k :: 0 <= k < |trace[1..]| ==> trace[1..][k] == trace[k + 1];
      ExecKeepsInv(Next(s, trace[0], max), trace[1..], max);
    }
  }

  lemma {:induction false} NobodyInside(calls: seq<Call>)
    requires forall i :: 0 <= i < |calls| ==> !Inside(calls[i])
    ensures CountInside(calls) == 0
  {
    if calls != [] {
      NobodyInside(calls[..|calls| - 1]);
    }
  }

  lemma InitInv(s: State, max: int)
    requires Init(s) && max >= 0
    ensures Inv(s, max)
  {
    forall i | 0 <= i < |s.calls| ensures CallInv(s.calls[i]) && !Inside(s.calls[i]) {
    }
    NobodyInside(s.calls);
  }

  // ---------------------------------------------------------------- theorems

  /**
    Load shedding: in every interleaving the counter is the number of calls inside the body, never
    above the bound, and back to 0 when every call has finished, whichever way it finished.
   */
  lemma QueueIsBounded(s: State, trace: seq<Event>, explicit: Option<int>, poolMax: Option<int>)
    requires Init(s) && Jittered(trace)
    ensures var max := PoolQueueMax(explicit, poolMax);
      var end := Exec(s, trace, max);
      && 0 <= end.queuedOps == CountInside(end.calls) <= max
      && ((forall i :: 0 <= i < |end.calls| ==> !Inside(end.calls[i])) ==> end.queuedOps == 0)
  {
    var max := PoolQueueMax(explicit, poolMax);
    InitInv(s, max);
    ExecKeepsInv(s, trace, max);
    if forall i :: 0 <= i < |s.calls| ==> !Inside(Exec(s, trace, max).calls[i]) {
      NobodyInside(Exec(s, trace, max).calls);
    }
  }

  lemma {:induction false} ExecKeepsArguments(s: State, trace: seq<Event>, max: int, i: nat)
    requires i < |s.calls|
    ensures Exec(s, trace, max).calls[i].retries == s.calls[i].retries
    ensures Exec(s, trace, max).calls[i].baseDelay == s.calls[i].baseDelay
    decreases |trace|
  {
    if trace != [] {
      ExecKeepsArguments(Next(s, trace[0], max), trace[1..], max, i);
    }
  }

  /**
    Bounded retry: whatever the other callers do, a call runs fn at most `retries` times with
    exactly one pool swap between consecutive tries.
   */
  lemma RetryIsBounded(s: State, trace: seq<Event>, max: int, i: nat)
    requires Init(s) && Jittered(trace) && max >= 0 && i < |s.calls|
    ensures var c := Exec(s, trace, max).calls[i];
      && (c.tries > 0 ==> c.tries <= s.calls[i].retries)
      && (c.tries > 0 && (c.phase.InFn? || c.phase.Finished?) ==> c.swaps == c.tries - 1)
      && (c.tries == 0 ==> c.swaps == 0)
  {
    CallStaysWithin(s, trace, max, i);
  }

  /** How many backoffs a call has begun. */
  function Backoffs(c: Call): nat {
    match c.phase
    case Sleeping(a) => a + 1
    case Resetting(a) => a + 1
    case _ => c.swaps
  }

  lemma SleptBelow(c: Call)
    requires CallInv(c) && c.retries >= 2 && c.baseDelay >= 0.0
    ensures c.slept < Doubled(c.baseDelay, c.retries - 1) - c.baseDelay + 50.0 * (c.retries - 1) as real
  {
    assert SleptWithin(c, Backoffs(c)) && Backoffs(c) < c.retries;
    DoubledGrows(c.baseDelay, Backoffs(c), c.retries - 1);
  }

  lemma SleptClosed(c: Call)
    requires CallInv(c) && c.retries >= 2 && c.baseDelay >= 0.0
    ensures c.slept < c.baseDelay * (Pow2(c.retries - 1) - 1) as real + 50.0 * (c.retries - 1) as real
  {
    SleptBelow(c);
    ClosedForm(c.baseDelay, c.retries - 1);
  }

  lemma CallStaysWithin(s: State, trace: seq<Event>, max: int, i: nat)
    requires Init(s) && Jittered(trace) && max >= 0 && i < |s.calls|
    ensures var c := Exec(s, trace, max).calls[i];
      CallInv(c) && c.retries == s.calls[i].retries && c.baseDelay == s.calls[i].baseDelay
  {
    InitInv(s, max);
    ExecKeepsInv(s, trace, max);
    ExecKeepsArguments(s, trace, max, i);
  }

  /** With r >= 2 retries the total backoff stays below base * (2^(r-1) - 1) + 50 * (r - 1) ms. */
  lemma BackoffIsBounded(s: State, trace: seq<Event>, max: int, i: nat)
    requires Init(s) && Jittered(trace) && max >= 0 && i < |s.calls|
    requires s.calls[i].retries >= 2 && s.calls[i].baseDelay >= 0.0
    ensures var r := s.calls[i].retries;
      Exec(s, trace, max).calls[i].slept
        < s.calls[i].baseDelay * (Pow2(r - 1) - 1) as real + 50.0 * (r - 1) as real
  {
    CallStaysWithin(s, trace, max, i);
    SleptClosed(Exec(s, trace, max).calls[i]);
  }

  lemma {:induction false} DoubledGrows(b: real, n: nat, m: nat)
    requires b >= 0.0 && n <= m
    ensures b <= Doubled(b, n) <= Doubled(b, m)
  {
    if n < m {
      DoubledGrows(b, n, m - 1);
    } else if n > 0 {
      DoubledGrows(b, n - 1, n - 1);
    }
  }

  lemma ClosedForm(b: real, n: nat)
    ensures Doubled(b, n) - b == b * (Pow2(n) - 1) as real
  {
    DoubledIsPower(b, n);
    var p := Pow2(n) as real;
    assert (Pow2(n) - 1) as real == p - 1.0;
    assert b * (p - 1.0) == b * p - b;
  }

  /**
    Pool conservation, every interleaving: clients created = swaps ended + the current one + those
    overwritten; each ended client was ended exactly once; db and client agree and currentDb follows.
   */
  lemma PoolConserved(s: State, trace: seq<Event>, max: int)
    requires Init(s) && Jittered(trace) && max >= 0
    ensures var p := Exec(s, trace, max).pool;
      && p.created == p.resets + p.overwritten + (if p.client.Some? then 1 else 0)
      && |p.ended| == p.resets
      && (forall c :: c in p.ended ==> p.ended[c] == 1 && Some(c) != p.client)
      && (p.db.Some? ==> p.db == p.client && p.currentDb == p.db)
  {
    InitInv(s, max);
    ExecKeepsInv(s, trace, max);
  }

  /** Every client ever stored is the current one or was handed to end(). */
  predicate NoneLeaked(p: Pool) {
    forall c: nat :: c < p.created ==> c in p.ended || p.client == Some(c)
  }

  function Ids(n: nat): (r: set<nat>)
    ensures |r| == n && forall c: nat :: c in r <==> c < n
  {
    if n == 0 then {} else Ids(n - 1) + {n - 1}
  }

  /** The clients still known: ended or current. */
  function Known(p: Pool): set<nat> {
    (set c | c in p.ended) + (if p.client.Some? then {p.client.value} else {})
  }

  lemma KnownCount(p: Pool)
    requires PoolInv(p)
    ensures |Known(p)| == p.resets + (if p.client.Some? then 1 else 0)
    ensures Known(p) <= Ids(p.created)
  {
    var ended := set c | c in p.ended;
    assert p.ended == multiset(ended);
    assert |ended| == p.resets;
    if p.client.Some? {
      assert Known(p) == ended + {p.client.value} && p.client.value !in ended;
    } else {
      assert Known(p) == ended;
    }
  }

  lemma NoneLeakedIfKnown(p: Pool)
    ensures NoneLeaked(p) <==> Ids(p.created) <= Known(p)
  {
    assert forall c: nat :: c in Known(p) <==> c in p.ended || p.client == Some(c);
    if Ids(p.created) <= Known(p) {
      forall c: nat | c < p.created ensures c in p.ended || p.client == Some(c) {
        assert c in Ids(p.created);
      }
    }
  }

  /** The clients that are lost un-ended are those that getDb overwrote. */
  lemma NoLeakIffNothingOverwritten(p: Pool)
    requires PoolInv(p)
    ensures NoneLeaked(p) <==> p.overwritten == 0
  {
    KnownCount(p);
    NoneLeakedIfKnown(p);
    if p.overwritten == 0 {
      SameSize(Known(p), Ids(p.created));
    }
    if Ids(p.created) <= Known(p) {
      assert Ids(p.created) == Known(p);
    }
  }

  lemma SameSize(a: set<nat>, b: set<nat>)
    requires a <= b && |a| == |b|
    ensures a == b
  {
    assert |b| == |a| + |b - a|;
    assert b - a == {};
    assert b == a + (b - a);
  }

  /** The guard of the failing branch: getDb creates a client although one is still stored. */
  predicate Overwrites(p: Pool, e: Event) {
    e.CallGetDb? && e.hasUrl && p.db.None? && p.client.Some? && !e.creation.PostgresThrows?
  }

  /** The pool just before event k. */
  function PoolBefore(s: State, trace: seq<Event>, max: int, k: nat): Pool
    requires k <= |trace|
  {
    Exec(s, trace[..k], max).pool
  }

  lemma {:induction false} ExecSnoc(s: State, trace: seq<Event>, e: Event, max: int)
    ensures Exec(s, trace + [e], max) == Next(Exec(s, trace, max), e, max)
    decreases |trace|
  {
    if trace == [] {
      assert ([] + [e])[1..] == [];
    } else {
      assert (trace + [e])[1..] == trace[1..] + [e];
      ExecSnoc(Next(s, trace[0], max), trace[1..], e, max);
    }
  }

  lemma ExecStep(s: State, trace: seq<Event>, max: int, k: nat)
    requires k < |trace|
    ensures Exec(s, trace[..k + 1], max) == Next(Exec(s, trace[..k], max), trace[k], max)
  {
    assert trace[..k + 1] == trace[..k] + [trace[k]];
    ExecSnoc(s, trace[..k], trace[k], max);
  }

  lemma OverwritesCounts(s: State, e: Event, max: int)
    ensures Next(s, e, max).pool.overwritten == s.pool.overwritten + if Overwrites(s.pool, e) then 1 else 0
  {
  }

  ghost predicate NeverOverwrites(s: State, trace: seq<Event>, max: int, n: nat)
    requires n <= |trace|
  {
    forall k :: 0 <= k < n ==> !Overwrites(PoolBefore(s, trace, max, k), trace[k])
  }

  lemma {:induction false} OverwrittenSoFar(s: State, trace: seq<Event>, max: int, n: nat)
    requires s.pool.overwritten == 0 && n <= |trace|
    ensures PoolBefore(s, trace, max, n).overwritten == 0 <==> NeverOverwrites(s, trace, max, n)
  {
    if n == 0 {
      assert trace[..0] == [];
    } else {
      OverwrittenSoFar(s, trace, max, n - 1);
      ExecStep(s, trace, max, n - 1);
      OverwritesCounts(Exec(s, trace[..n - 1], max), trace[n - 1], max);
    }
  }

  /**
    In every interleaving no client is lost un-ended exactly when no getDb ever met that guard: a
    stored client without its db, and a postgres() that works.
   */
  lemma NoLeakIffGuardNeverMet(s: State, trace: seq<Event>, max: int)
    requires Init(s) && Jittered(trace) && max >= 0
    ensures NoneLeaked(Exec(s, trace, max).pool) <==>
      forall k :: 0 <= k < |trace| ==> !Overwrites(PoolBefore(s, trace, max, k), trace[k])
  {
    InitInv(s, max);
    ExecKeepsInv(s, trace, max);
    NoLeakIffNothingOverwritten(Exec(s, trace, max).pool);
    assert trace[..|trace|] == trace;
    OverwrittenSoFar(s, trace, max, |trace|);
  }

  /** The event ends the stored client: resetDbConnection, or a retry whose timer fires. */
  predicate ResetsPool(s: State, e: Event) {
    e.CallReset? || (e.TimerFires? && e.id < |s.calls| && s.calls[e.id].phase.Sleeping?)
  }

  /** Event i is a getDb that stores a client and then throws in drizzle(). */
  predicate ThrowsAt(s: State, trace: seq<Event>, max: int, i: nat)
    requires i < |trace|
  {
    trace[i] == CallGetDb(true, DrizzleThrows) && PoolBefore(s, trace, max, i).db.None?
  }

  ghost predicate NoResetBetween(s: State, trace: seq<Event>, max: int, i: nat, j: nat)
    requires j <= |trace|
  {
    forall m :: i < m < j ==> !ResetsPool(Exec(s, trace[..m], max), trace[m])
  }

  /** drizzle() threw at i and getDb gets to postgres() again at j, with no reset in between. */
  ghost predicate LosesClient(s: State, trace: seq<Event>, max: int, i: nat, j: nat) {
    && i < j < |trace| && ThrowsAt(s, trace, max, i) && NoResetBetween(s, trace, max, i, j)
    && trace[j].CallGetDb? && trace[j].hasUrl && !trace[j].creation.PostgresThrows?
  }

  predicate Dangling(p: Pool) {
    p.db.None? && p.client.Some?
  }

  /** How one event makes, keeps or ends a client without a db. */
  lemma DanglingStep(s: State, e: Event, max: int)
    requires PoolInv(s.pool)
    ensures Dangling(Next(s, e, max).pool) <==>
      || (e == CallGetDb(true, DrizzleThrows) && s.pool.db.None?)
      || (Dangling(s.pool) && !ResetsPool(s, e) && !Overwrites(s.pool, e))
  {
  }

  lemma PoolBeforeIsSound(s: State, trace: seq<Event>, max: int, k: nat)
    requires Init(s) && Jittered(trace) && max >= 0 && k <= |trace|
    ensures PoolInv(PoolBefore(s, trace, max, k))
  {
    InitInv(s, max);
    ExecKeepsInv(s, trace[..k], max);
  }

  lemma NothingDanglesAtFirst(s: State, trace: seq<Event>, max: int)
    requires Init(s)
    ensures !Dangling(PoolBefore(s, trace, max, 0))
  {
    assert trace[..0] == [];
  }

  lemma {:induction false} DanglingSince(s: State, trace: seq<Event>, max: int, k: nat) returns (i: nat)
    requires Init(s) && Jittered(trace) && max >= 0 && k <= |trace| && Dangling(PoolBefore(s, trace, max, k))
    ensures i < k && ThrowsAt(s, trace, max, i) && NoResetBetween(s, trace, max, i, k)
  {
    NothingDanglesAtFirst(s, trace, max);
    ExecStep(s, trace, max, k - 1);
    PoolBeforeIsSound(s, trace, max, k - 1);
    DanglingStep(Exec(s, trace[..k - 1], max), trace[k - 1], max);
    if ThrowsAt(s, trace, max, k - 1) {
      i := k - 1;
    } else {
      i := DanglingSince(s, trace, max, k - 1);
    }
  }

  /** From a throw on, until a reset: the client dangles, or one has been overwritten already. */
  lemma {:induction false} DanglesUntil(s: State, trace: seq<Event>, max: int, i: nat, m: nat)
    requires Init(s) && Jittered(trace) && max >= 0 && i < m <= |trace|
    requires ThrowsAt(s, trace, max, i) && NoResetBetween(s, trace, max, i, m)
    ensures Dangling(PoolBefore(s, trace, max, m)) || !NeverOverwrites(s, trace, max, m)
  {
    ExecStep(s, trace, max, m - 1);
    PoolBeforeIsSound(s, trace, max, m - 1);
    DanglingStep(Exec(s, trace[..m - 1], max), trace[m - 1], max);
    if i < m - 1 {
      DanglesUntil(s, trace, max, i, m - 1);
    }
  }

  /**
    The same in terms of the events: a client is lost exactly when drizzle() throws in a getDb and a
    later getDb gets as far as postgres() before anything has reset the pool.
   */
  lemma LeaksIffThrowIsNotReset(s: State, trace: seq<Event>, max: int)
    requires Init(s) && Jittered(trace) && max >= 0
    ensures !NoneLeaked(Exec(s, trace, max).pool) <==> exists i, j :: LosesClient(s, trace, max, i, j)
  {
    NoLeakIffGuardNeverMet(s, trace, max);
    if !NoneLeaked(Exec(s, trace, max).pool) {
      var j: nat :| j < |trace| && Overwrites(PoolBefore(s, trace, max, j), trace[j]);
      var i := DanglingSince(s, trace, max, j);
      assert LosesClient(s, trace, max, i, j);
    }
    if exists i, j :: LosesClient(s, trace, max, i, j) {
      var i: nat, j: nat :| LosesClient(s, trace, max, i, j);
      DanglesUntil(s, trace, max, i, j);
      if NeverOverwrites(s, trace, max, j) {
        assert Overwrites(PoolBefore(s, trace, max, j), trace[j]);
      }
    }
  }

  predicate DrizzleNeverThrows(trace: seq<Event>) {
    forall k :: 0 <= k < |trace| && trace[k].CallGetDb? ==> !trace[k].creation.DrizzleThrows?
  }

  lemma {:induction false} DbAndClientTogether(s: State, trace: seq<Event>, max: int)
    requires DrizzleNeverThrows(trace) && s.pool.db.Some? == s.pool.client.Some? && s.pool.overwritten == 0
    ensures var p := Exec(s, trace, max).pool; p.db.Some? == p.client.Some? && p.overwritten == 0
    decreases |trace|
  {
    if trace != [] {
      assert forall k :: 0 <= k < |trace[1..]| ==> trace[1..][k] == trace[k + 1];
      DbAndClientTogether(Next(s, trace[0], max), trace[1..], max);
    }
  }

  /** While drizzle() does not throw nothing is ever lost: every swap ends the old pool. */
  lemma NoLeak(s: State, trace: seq<Event>, max: int)
    requires Init(s) && Jittered(trace) && max >= 0 && DrizzleNeverThrows(trace)
    ensures var p := Exec(s, trace, max).pool;
      && NoneLeaked(p) && p.db.Some? == p.client.Some?
      && p.created == p.resets + (if p.db.Some? then 1 else 0)
  {
    InitInv(s, max);
    ExecKeepsInv(s, trace, max);
    DbAndClientTogether(s, trace, max);
    NoLeakIffNothingOverwritten(Exec(s, trace, max).pool);
  }

  /** If drizzle() throws once, the next getDb drops the client it had stored, un-ended. */
  lemma DrizzleThrowLeaks(s: State, max: int)
    requires Init(s)
    ensures !NoneLeaked(Exec(s, [CallGetDb(true, DrizzleThrows), CallGetDb(true, Works)], max).pool)
  {
    var first, second := CallGetDb(true, DrizzleThrows), CallGetDb(true, Works);
    var end := Next(Next(s, first, max), second, max);
    assert [first, second][1..] == [second];
    assert Exec(s, [first, second], max) == Exec(Next(s, first, max), [second], max) == end;
    assert 0 < end.pool.created && 0 !in end.pool.ended && end.pool.client == Some(1);
  }

  // ---------------------------------------------------------------- who is let in

  /** Event k is the one with which call id enters withRetry. */
  ghost predicate EntersAt(trace: seq<Event>, k: nat, id: nat) {
    k < |trace| && trace[k] == Enter(id) && forall j :: 0 <= j < k ==> trace[j] != Enter(id)
  }

  /** The calls that have been let in and have not ended. */
  function InsideNow(calls: seq<Call>): set<nat> {
    set i: nat | i < |calls| && Inside(calls[i])
  }

  lemma {:induction false} CountIsSize(calls: seq<Call>)
    ensures CountInside(calls) == |InsideNow(calls)|
  {
    if calls != [] {
      var n := |calls| - 1;
      CountIsSize(calls[..n]);
      assert InsideNow(calls) == InsideNow(calls[..n]) + if Inside(calls[n]) then {n} else {};
    }
  }

  /** Just before event k, as many calls are inside as the bound allows. */
  predicate Saturated(s: State, trace: seq<Event>, max: int, k: nat)
    requires k <= |trace|
  {
    |InsideNow(Exec(s, trace[..k], max).calls)| >= max
  }

  ghost predicate Shed(s: State, trace: seq<Event>, max: int, id: nat, n: nat)
    requires n <= |trace|
  {
    exists k: nat :: k < n && EntersAt(trace, k, id) && Saturated(s, trace, max, k)
  }

  lemma CallStepRejects(c: Call, e: Event, queuedOps: int, max: int)
    ensures var d := CallStep(c, e, queuedOps, max).call;
      && (d.phase == Finished(Rejected) <==>
            c.phase == Finished(Rejected) || (c.phase.NotStarted? && e.Enter? && queuedOps >= max))
      && (d.phase.NotStarted? <==> c.phase.NotStarted? && !e.Enter?)
  {
  }

  lemma CallUntouched(s: State, e: Event, max: int, id: nat)
    requires id < |s.calls| && (e.CallGetDb? || e.CallReset? || e.id != id)
    ensures Next(s, e, max).calls[id] == s.calls[id]
  {
  }

  lemma QueueBefore(s: State, trace: seq<Event>, max: int, k: nat)
    requires Init(s) && Jittered(trace) && max >= 0 && k <= |trace|
    ensures Inv(Exec(s, trace[..k], max), max)
    ensures Saturated(s, trace, max, k) <==> Exec(s, trace[..k], max).queuedOps >= max
  {
    InitInv(s, max);
    ExecKeepsInv(s, trace[..k], max);
    CountIsSize(Exec(s, trace[..k], max).calls);
  }

  /** A call has not started until its Enter, and is rejected there or never. */
  lemma {:induction false} RejectedOnEntry(s: State, trace: seq<Event>, max: int, id: nat, n: nat)
    requires Init(s) && Jittered(trace) && max >= 0 && id < |s.calls| && n <= |trace|
    ensures var p := Exec(s, trace[..n], max).calls[id].phase;
      && (p.NotStarted? <==> forall j :: 0 <= j < n ==> trace[j] != Enter(id))
      && (p == Finished(Rejected) <==> Shed(s, trace, max, id, n))
  {
    if n == 0 {
      assert trace[..0] == [];
    } else {
      RejectedOnEntry(s, trace, max, id, n - 1);
      ExecStep(s, trace, max, n - 1);
      QueueBefore(s, trace, max, n - 1);
      var here, e := Exec(s, trace[..n - 1], max), trace[n - 1];
      if e.CallGetDb? || e.CallReset? || e.id != id {
        CallUntouched(here, e, max, id);
        ShedOneMore(s, trace, max, id, n);
      } else {
        CallStepRejects(here.calls[id], e, here.queuedOps, max);
        ShedOneMore(s, trace, max, id, n);
      }
    }
  }

  lemma ShedOneMore(s: State, trace: seq<Event>, max: int, id: nat, n: nat)
    requires 0 < n <= |trace|
    ensures Shed(s, trace, max, id, n) <==>
      Shed(s, trace, max, id, n - 1) || (EntersAt(trace, n - 1, id) && Saturated(s, trace, max, n - 1))
  {
    if Shed(s, trace, max, id, n) {
      var k: nat :| k < n && EntersAt(trace, k, id) && Saturated(s, trace, max, k);
      assert k < n - 1 || k == n - 1;
    }
    if Shed(s, trace, max, id, n - 1) {
      var k: nat :| k < n - 1 && EntersAt(trace, k, id) && Saturated(s, trace, max, k);
      assert k < n && EntersAt(trace, k, id) && Saturated(s, trace, max, k);
    }
  }

  /**
    Admission, in every interleaving: a call is rejected exactly when as many calls as the bound are
    inside at the moment it enters.  Otherwise, if it may try at all, it runs fn at once.
   */
  lemma RejectedIffSaturated(s: State, trace: seq<Event>, max: int, id: nat)
    requires Init(s) && Jittered(trace) && max >= 0 && id < |s.calls|
    ensures Exec(s, trace, max).calls[id].phase == Finished(Rejected) <==> Shed(s, trace, max, id, |trace|)
    ensures forall k: nat :: EntersAt(trace, k, id) && !Saturated(s, trace, max, k) && s.calls[id].retries > 0 ==>
      var c := Exec(s, trace[..k + 1], max).calls[id]; c.phase == InFn(0) && c.tries == 1
  {
    RejectedOnEntry(s, trace, max, id, |trace|);
    assert trace[..|trace|] == trace;
    forall k: nat | EntersAt(trace, k, id) && !Saturated(s, trace, max, k) && s.calls[id].retries > 0
      ensures var c := Exec(s, trace[..k + 1], max).calls[id]; c.phase == InFn(0) && c.tries == 1
    {
      RejectedOnEntry(s, trace, max, id, k);
      ExecStep(s, trace, max, k);
      QueueBefore(s, trace, max, k);
      ExecKeepsArguments(s, trace[..k], max, id);
      assert CallInv(Exec(s, trace[..k], max).calls[id]);
    }
  }

  // ---------------------------------------------------------------- who is connected

  lemma ConnectedStep(s: State, e: Event, max: int)
    ensures Next(s, e, max).pool.db.Some? <==>
      e == CallGetDb(true, Works) || (s.pool.db.Some? && !ResetsPool(s, e))
  {
  }

  /** Event k is a getDb whose postgres() and drizzle() work, and nothing resets the pool before event n. */
  ghost predicate ConnectedSince(s: State, trace: seq<Event>, max: int, k: nat, n: nat)
    requires n <= |trace|
  {
    k < n && trace[k] == CallGetDb(true, Works) && NoResetBetween(s, trace, max, k, n)
  }

  lemma {:induction false} ConnectedBefore(s: State, trace: seq<Event>, max: int, n: nat)
    requires Init(s) && n <= |trace|
    ensures PoolBefore(s, trace, max, n).db.Some? <==> exists k: nat :: ConnectedSince(s, trace, max, k, n)
  {
    if n == 0 {
      assert trace[..0] == [];
    } else {
      ConnectedBefore(s, trace, max, n - 1);
      ExecStep(s, trace, max, n - 1);
      var here := Exec(s, trace[..n - 1], max);
      ConnectedStep(here, trace[n - 1], max);
      if trace[n - 1] == CallGetDb(true, Works) {
        assert ConnectedSince(s, trace, max, n - 1, n);
      } else if here.pool.db.Some? && !ResetsPool(here, trace[n - 1]) {
        var k: nat :| ConnectedSince(s, trace, max, k, n - 1);
        assert ConnectedSince(s, trace, max, k, n);
      }
      if exists k: nat :: ConnectedSince(s, trace, max, k, n) {
        var k: nat :| ConnectedSince(s, trace, max, k, n);
        if k < n - 1 {
          assert ConnectedSince(s, trace, max, k, n - 1);
        }
      }
    }
  }

  /**
    In every interleaving getDb hands out a db exactly when some getDb since the last reset created
    one: the pool is created by the first that can, and kept.
   */
  lemma ConnectedIffCreatedSinceReset(s: State, trace: seq<Event>, max: int)
    requires Init(s)
    ensures Exec(s, trace, max).pool.db.Some? <==> exists k: nat :: ConnectedSince(s, trace, max, k, |trace|)
  {
    ConnectedBefore(s, trace, max, |trace|);
    assert trace[..|trace|] == trace;
  }

  lemma CurrentStep(s: State, e: Event, max: int)
    requires s.pool.db.Some? ==> s.pool.currentDb.Some?
    ensures Next(s, e, max).pool.currentDb.Some? <==> e == CallGetDb(true, Works) || s.pool.currentDb.Some?
    ensures Next(s, e, max).pool.db.Some? ==> Next(s, e, max).pool.currentDb.Some?
  {
  }

  ghost predicate EverCreated(trace: seq<Event>, n: nat)
    requires n <= |trace|
  {
    exists k :: 0 <= k < n && trace[k] == CallGetDb(true, Works)
  }

  lemma {:induction false} CurrentBefore(s: State, trace: seq<Event>, max: int, n: nat)
    requires Init(s) && n <= |trace|
    ensures var p := PoolBefore(s, trace, max, n);
      (p.currentDb.Some? <==> EverCreated(trace, n)) && (p.db.Some? ==> p.currentDb.Some?)
  {
    if n == 0 {
      assert trace[..0] == [];
    } else {
      CurrentBefore(s, trace, max, n - 1);
      ExecStep(s, trace, max, n - 1);
      CurrentStep(Exec(s, trace[..n - 1], max), trace[n - 1], max);
    }
  }

  /**
    __currentDb is never taken away: in every interleaving it is set exactly once some getDb has
    created a db, whatever has been reset since.
   */
  lemma CurrentDbIsKept(s: State, trace: seq<Event>, max: int)
    requires Init(s)
    ensures Exec(s, trace, max).pool.currentDb.Some? <==> CallGetDb(true, Works) in trace
  {
    CurrentBefore(s, trace, max, |trace|);
    assert trace[..|trace|] == trace;
  }

  // ---------------------------------------------------------------- the module itself

  /** How one run of fn ends, and the random part of the backoff that may follow. */
  datatype FnResult = FnResult(ok: bool, transient: bool, jitter: real)

  /** The event that comes next for a call in this phase, when attempt a of fn ends as results(a). */
  function EventUnder(results: nat -> FnResult, id: nat, p: Phase): Event {
    match p
    case InFn(a) => if results(a).ok then FnReturns(id) else FnThrows(id, results(a).transient, results(a).jitter)
    case Sleeping(_) => TimerFires(id)
    case Resetting(_) => ResetDone(id)
    case _ => Enter(id)
  }

  /** The machine after n events of call id alone. */
  function Drive(s: State, id: nat, results: nat -> FnResult, max: int, n: nat): (s': State)
    requires id < |s.calls|
    ensures |s'.calls| == |s.calls|
  {
    if n == 0 then s
    else
      var before := Drive(s, id, results, max, n - 1);
      Next(before, EventUnder(results, id, before.calls[id].phase), max)
  }

  ghost predicate Reaches(s: State, id: nat, results: nat -> FnResult, max: int, t: State)
    requires id < |s.calls|
  {
    exists n: nat :: Drive(s, id, results, max, n) == t
  }

  lemma ReachesNext(s: State, id: nat, results: nat -> FnResult, max: int, t: State)
    requires id < |s.calls| == |t.calls| && Reaches(s, id, results, max, t)
    ensures Reaches(s, id, results, max, Next(t, EventUnder(results, id, t.calls[id].phase), max))
  {
    var n: nat :| Drive(s, id, results, max, n) == t;
    assert Drive(s, id, results, max, n + 1) == Next(t, EventUnder(results, id, t.calls[id].phase), max);
  }

  /** The next event of call id, when the call is c and the rest is as given. */
  lemma ReachesStep(s: State, id: nat, results: nat -> FnResult, max: int, pool: Pool, queued: int, c: Call)
    requires id < |s.calls| && Reaches(s, id, results, max, State(pool, queued, s.calls[id := c]))
    ensures var f := CallStep(c, EventUnder(results, id, c.phase), queued, max);
      Reaches(s, id, results, max,
              State(if f.resets then Reset(pool) else pool, queued + f.queued, s.calls[id := f.call]))
  {
    ReachesNext(s, id, results, max, State(pool, queued, s.calls[id := c]));
    var f := CallStep(c, EventUnder(results, id, c.phase), queued, max);
    assert s.calls[id := c][id := f.call] == s.calls[id := f.call];
  }

  /** The call after a try that failed for the moment: backoff, swap, next try. */
  function NextTry(c: Call, r: FnResult): Call {
    TryAgain(WakeUp(FnSettles(c, false, r.transient, r.jitter).call).call).call
  }

  lemma ReachesNextTry(s: State, id: nat, results: nat -> FnResult, max: int, pool: Pool, queued: int, c: Call)
    requires id < |s.calls| && Reaches(s, id, results, max, State(pool, queued, s.calls[id := c]))
    requires c.phase.InFn? && c.phase.attempt < c.retries - 1
    requires !results(c.phase.attempt).ok && results(c.phase.attempt).transient
    ensures var d := NextTry(c, results(c.phase.attempt));
      && d.phase == InFn(c.phase.attempt + 1) && d.retries == c.retries
      && Reaches(s, id, results, max, State(Reset(pool), queued, s.calls[id := d]))
  {
    var r := results(c.phase.attempt);
    ReachesStep(s, id, results, max, pool, queued, c);
    ReachesSwap(s, id, results, max, pool, queued, FnSettles(c, false, r.transient, r.jitter).call);
  }

  lemma ReachesSwap(s: State, id: nat, results: nat -> FnResult, max: int, pool: Pool, queued: int, c: Call)
    requires id < |s.calls| && Reaches(s, id, results, max, State(pool, queued, s.calls[id := c]))
    requires c.phase.Sleeping?
    ensures Reaches(s, id, results, max, State(Reset(pool), queued, s.calls[id := TryAgain(WakeUp(c).call).call]))
  {
    ReachesStep(s, id, results, max, pool, queued, c);
    ReachesStep(s, id, results, max, Reset(pool), queued, WakeUp(c).call);
  }

  lemma ReachesEnd(s: State, id: nat, results: nat -> FnResult, max: int, pool: Pool, queued: int, c: Call)
    requires id < |s.calls| && Reaches(s, id, results, max, State(pool, queued, s.calls[id := c]))
    requires c.phase.InFn?
    requires var r := results(c.phase.attempt); r.ok || !r.transient || c.phase.attempt == c.retries - 1
    ensures var r := results(c.phase.attempt);
      var d := FnSettles(c, r.ok, r.transient, r.jitter).call;
      && d.phase == Finished(if r.ok then Returned else Threw)
      && Reaches(s, id, results, max, State(pool, queued - 1, s.calls[id := d]))
  {
    ReachesStep(s, id, results, max, pool, queued, c);
  }

  /** Every try before a failed in a way that is worth another one. */
  ghost predicate TransientBefore(results: nat -> FnResult, a: nat) {
    forall b: nat :: b < a ==> !results(b).ok && results(b).transient
  }

  /** Try a is the last one: it succeeds, fails for good, or is the last allowed. */
  ghost predicate LastTry(results: nat -> FnResult, retries: int, a: nat) {
    && a < retries && TransientBefore(results, a)
    && (results(a).ok || !results(a).transient || a == retries - 1)
  }

  /** What n backoffs add up to: base, 2 base, 4 base, ... and up to 50 ms each. */
  function Backoff(base: real, results: nat -> FnResult, n: nat): real {
    if n == 0 then 0.0
    else Backoff(base, results, n - 1) + base * Pow2(n - 1) as real + 50.0 * results(n - 1).jitter
  }

  lemma LastTryDecides(results: nat -> FnResult, retries: int, a: nat)
    requires LastTry(results, retries, a)
    ensures results(a).ok <==> exists b: nat :: b < retries && results(b).ok && TransientBefore(results, b)
  {
    if exists b: nat :: b < retries && results(b).ok && TransientBefore(results, b) {
      var b: nat :| b < retries && results(b).ok && TransientBefore(results, b);
      assert b <= a && a <= b;
    }
  }

  lemma ResetOnce(p: Pool)
    ensures Reset(Reset(p)) == Reset(p)
  {
  }

  /** The call as it is while try a runs, all before having failed for the moment. */
  ghost predicate Trying(results: nat -> FnResult, c0: Call, c: Call, a: nat) {
    && c == c0.(phase := InFn(a), tries := a + 1, swaps := a, slept := Backoff(c0.baseDelay, results, a))
    && a < c0.retries && TransientBefore(results, a)
  }

  lemma TriesAgain(results: nat -> FnResult, c0: Call, c: Call, a: nat)
    requires Trying(results, c0, c, a) && a < c.retries - 1 && !results(a).ok && results(a).transient
    ensures Trying(results, c0, NextTry(c, results(a)), a + 1)
  {
    DoubledIsPower(c.baseDelay, a);
    assert results(a).jitter * 50.0 == 50.0 * results(a).jitter;
  }

  /** The call as it ends. */
  ghost predicate Ended(results: nat -> FnResult, c0: Call, c: Call, outcome: CallOutcome) {
    && c.tries == c.swaps + 1 && LastTry(results, c0.retries, c.swaps)
    && outcome == (if results(c.swaps).ok then Returned else Threw)
    && c.slept == Backoff(c0.baseDelay, results, c.swaps)
  }

  lemma Ends(results: nat -> FnResult, c0: Call, c: Call, a: nat)
    requires Trying(results, c0, c, a)
    requires results(a).ok || !results(a).transient || a == c.retries - 1
    ensures var d := FnSettles(c, results(a).ok, results(a).transient, results(a).jitter).call;
      Ended(results, c0, d, if results(a).ok then Returned else Threw) && d.swaps == a
  {
  }

  /** The module variables of server/db.ts; the ghost ones only count. */
  class DbModule {
    var db: Option<nat>
    var client: Option<nat>
    var currentDb: Option<nat>
    var queuedOps: int
    var poolResets: nat
    ghost var created: nat
    ghost var ended: multiset<nat>
    ghost var overwritten: nat

    ghost function View(): Pool
      reads this
    {
      Pool(db, client, currentDb, poolResets, created, ended, overwritten)
    }

    constructor ()
      ensures View() == EMPTY && queuedOps == 0
    {
      db, client, currentDb, queuedOps, poolResets := None, None, None, 0, 0;
      created, ended, overwritten := 0, multiset{}, 0;
    }

    /** `handle` names the client that postgres() would create. */
    method GetDb(hasUrl: bool, handle: nat, c: Creation) returns (r: Option<nat>)
      requires handle == created
      modifies this
      ensures View() == AfterGetDb(old(View()), hasUrl, c) && queuedOps == old(queuedOps) && r == db
      ensures r == if old(db).Some? then old(db) else if hasUrl && c.Works? then Some(handle) else None
    {
      if db.None? && hasUrl {
        if !c.PostgresThrows? {
          overwritten := overwritten + if client.Some? then 1 else 0;
          client, created := Some(handle), created + 1;
          if !c.DrizzleThrows? {
            db := Some(handle);
            currentDb := db;
          } else {
            db := None;
          }
        } else {
          db := None;
        }
      }
      r := db;
    }

    method ResetDbConnection()
      modifies this
      ensures View() == Reset(old(View())) && queuedOps == old(queuedOps)
      ensures db.None? && client.None? && currentDb == old(currentDb)
      ensures poolResets == old(poolResets) + if old(client).Some? then 1 else 0
    {
      var oldClient := client;
      db, client := None, None;
      if oldClient.Some? {
        poolResets := poolResets + 1;
        ended := ended + multiset{oldClient.value};
      }
    }

    /**
      withRetry from start to finish without interference: for every sequence of fn results it ends
      as the machine ends, with the same outcome, pool and queue, and the same tries and swaps.
      It is rejected exactly when the queue is full, returns exactly when some try succeeds after
      transient failures only, and throws otherwise; a try is followed by one swap and the next try
      until the last.
     */
    method WithRetry(results: nat -> FnResult, retries: int, baseDelay: real, max: int, ghost s0: State, ghost id: nat)
      returns (outcome: CallOutcome, ghost c: Call)
      requires id < |s0.calls| && s0.calls[id] == Call(retries, baseDelay, NotStarted, 0, 0, 0.0)
      requires s0.pool == View() && s0.queuedOps == queuedOps
      modifies this
      ensures c.phase == Finished(outcome) && queuedOps == old(queuedOps)
      ensures outcome.Rejected? <==> old(queuedOps) >= max
      ensures outcome.Returned? <==>
        old(queuedOps) < max && exists a: nat :: a < retries && results(a).ok && TransientBefore(results, a)
      ensures if old(queuedOps) >= max || retries <= 0 then c.tries == c.swaps == 0
              else c.tries == c.swaps + 1 && LastTry(results, retries, c.swaps)
      ensures c.slept == Backoff(baseDelay, results, c.swaps)
      ensures View() == if c.swaps == 0 then old(View()) else Reset(old(View()))
      ensures Reaches(s0, id, results, max, State(View(), queuedOps, s0.calls[id := c]))
    {
      c := s0.calls[id];
      assert s0.calls[id := c] == s0.calls;
      assert Drive(s0, id, results, max, 0) == State(View(), queuedOps, s0.calls[id := c]);
      ReachesStep(s0, id, results, max, View(), queuedOps, c);
      c := EnterCall(c, queuedOps, max).call;
      if queuedOps >= max {
        return Rejected, c;
      }
      if retries <= 0 {
        return Threw, c;
      }
      queuedOps := queuedOps + 1;
      outcome, c := RetryLoop(results, retries, max, s0, id, c);
      LastTryDecides(results, retries, c.swaps);
    }

    /** The loop and its finally block; c is the call as it enters the loop. */
    method RetryLoop(results: nat -> FnResult, retries: int, max: int, ghost s0: State, ghost id: nat, ghost c0: Call)
      returns (outcome: CallOutcome, ghost c: Call)
      requires id < |s0.calls| && retries > 0 && c0.retries == retries && c0.phase == InFn(0)
      requires Trying(results, c0, c0, 0)
      requires Reaches(s0, id, results, max, State(View(), queuedOps, s0.calls[id := c0]))
      modifies this
      ensures c.phase == Finished(outcome) && queuedOps == old(queuedOps) - 1
      ensures Ended(results, c0, c, outcome)
      ensures View() == if c.swaps == 0 then old(View()) else Reset(old(View()))
      ensures Reaches(s0, id, results, max, State(View(), queuedOps, s0.calls[id := c]))
    {
      c := c0;
      var attempt := 0;
      while true
        invariant 0 <= attempt < retries
        invariant Trying(results, c0, c, attempt) && queuedOps == old(queuedOps)
        invariant View() == if attempt == 0 then old(View()) else Reset(old(View()))
        invariant Reaches(s0, id, results, max, State(View(), queuedOps, s0.calls[id := c]))
        decreases retries - attempt
      {
        var r := results(attempt);
        if r.ok || !r.transient || attempt == retries - 1 {
          ReachesEnd(s0, id, results, max, View(), queuedOps, c);
          Ends(results, c0, c, attempt);
          c := FnSettles(c, r.ok, r.transient, r.jitter).call;
          queuedOps := queuedOps - 1;
          return if r.ok then Returned else Threw, c;
        }
        ReachesNextTry(s0, id, results, max, View(), queuedOps, c);
        TriesAgain(results, c0, c, attempt);
        c := NextTry(c, r);
        ResetOnce(old(View()));
        ResetDbConnection();
        attempt := attempt + 1;
      }
    }
  }
}
