/**
 * Coalesced key fetches: any number of concurrent callers of keys(), with the lock, the
 * network call and the hand-over of its result as separate steps.
 */
module Jwks {
  import opened Wrappers

  type Keys = map<string, Bytes>

  type Answer = Result<Keys, string>

  /** Where a caller is in keys(). */
  datatype Pc =
    | Calling
    | Checking
    | Waiting(f: nat)
    | Fetching(f: nat)
    | Returning(f: nat, r: Answer)
    | Storing(f: nat, r: Answer)
    | Publishing(f: nat, r: Answer)
    | Leaving(next: Pc)
    | Finished(r: Answer)

  /** What a fetch returned, and what has been published to those who wait for it. */
  datatype Fetch = Fetch(returned: Option<Answer>, published: Option<Answer>)

  /** The lock, the fields it guards, every fetch so far, and the callers. */
  datatype State = State(
    lock: Option<nat>,
    cached: Option<Keys>,
    fetchedAt: int,
    inflight: Option<nat>,
    fetches: seq<Fetch>,
    callers: seq<Pc>)

  predicate Fresh(s: State, ttl: int, now: int) { s.cached.Some? && now - s.fetchedAt < ttl }

  /**
   * The next step of caller t, at the given time; a fetch returns only when the network has an
   * answer. None when the caller is blocked or finished.
   */
  function Step(s: State, ttl: int, t: nat, now: int, answer: Option<Answer>): Option<State> {
    if t >= |s.callers| then None
    else
      match s.callers[t]
      case Calling =>
        if s.lock.Some? then None else Some(s.(lock := Some(t), callers := s.callers[t := Checking]))
      case Checking =>
        if Fresh(s, ttl, now) then
          Some(s.(callers := s.callers[t := Leaving(Finished(Ok(s.cached.value)))]))
        else if s.inflight.Some? then
          Some(s.(callers := s.callers[t := Leaving(Waiting(s.inflight.value))]))
        else
          var f := |s.fetches|;
          Some(s.(inflight := Some(f), fetches := s.fetches + [Fetch(None, None)],
                  callers := s.callers[t := Leaving(Fetching(f))]))
      case Leaving(next) => Some(s.(lock := None, callers := s.callers[t := next]))
      case Waiting(f) =>
        if f < |s.fetches| && s.fetches[f].published.Some? then
          Some(s.(callers := s.callers[t := Finished(s.fetches[f].published.value)]))
        else None
      case Fetching(f) =>
        if f >= |s.fetches| || answer.None? then None
        else Some(s.(fetches := s.fetches[f := s.fetches[f].(returned := answer)],
                     callers := s.callers[t := Returning(f, answer.value)]))
      case Returning(f, r) =>
        if s.lock.Some? then None else Some(s.(lock := Some(t), callers := s.callers[t := Storing(f, r)]))
      case Storing(f, r) =>
        var kept := if r.Ok? then s.(cached := Some(r.value), fetchedAt := now) else s;
        Some(kept.(inflight := None, callers := s.callers[t := Leaving(Publishing(f, r))]))
      case Publishing(f, r) =>
        if f >= |s.fetches| then None
        else Some(s.(fetches := s.fetches[f := s.fetches[f].(published := Some(r))],
                     callers := s.callers[t := Finished(r)]))
      case Finished(_) => None
  }

  // ---- the invariant ----

  /** What a caller is about, whether or not it still has to give up the lock. */
  function Core(pc: Pc): Pc { if pc.Leaving? then pc.next else pc }

  ghost predicate InCritical(pc: Pc) { pc.Checking? || pc.Storing? || pc.Leaving? }

  /** The caller runs fetch f and has not yet taken it off the books. */
  ghost predicate Running(pc: Pc, f: nat) {
    var c := Core(pc);
    (c.Fetching? || c.Returning? || c.Storing?) && c.f == f
  }

  /** The caller owes the result of fetch f to those who wait for it. */
  ghost predicate Owns(pc: Pc, f: nat) {
    Running(pc, f) || (Core(pc).Publishing? && Core(pc).f == f)
  }

  ghost predicate PcOk(s: State, pc: Pc) {
    match pc
    case Leaving(next) =>
      && (next.Finished? || next.Waiting? || next.Fetching? || next.Publishing?)
      && CoreOk(s, next)
    case _ => CoreOk(s, pc)
  }

  ghost predicate CoreOk(s: State, pc: Pc) {
    match pc
    case Waiting(f) => f < |s.fetches|
    case Fetching(f) => f < |s.fetches| && s.fetches[f] == Fetch(None, None)
    case Returning(f, r) => f < |s.fetches| && s.fetches[f] == Fetch(Some(r), None)
    case Storing(f, r) => f < |s.fetches| && s.fetches[f] == Fetch(Some(r), None)
    case Publishing(f, r) => f < |s.fetches| && s.fetches[f] == Fetch(Some(r), None)
    case Finished(Ok(k)) => FromFetch(s, k)
    case _ => true
  }

  /** The keys were returned by some fetch that succeeded. */
  ghost predicate FromFetch(s: State, k: Keys) {
    exists i :: 0 <= i < |s.fetches| && s.fetches[i].returned == Some(Ok(k))
  }

  ghost predicate LockOk(s: State) {
    && (forall t | 0 <= t < |s.callers| :: InCritical(s.callers[t]) <==> s.lock == Some(t))
    && (s.lock.Some? ==> s.lock.value < |s.callers|)
  }

  /** One caller answers for each unpublished fetch, and only one. */
  ghost predicate OwnersOk(s: State) {
    && (forall f | 0 <= f < |s.fetches| && s.fetches[f].published.None? ::
          exists t :: 0 <= t < |s.callers| && Owns(s.callers[t], f))
    && (forall t, u, f: nat | 0 <= t < u < |s.callers| :: !(Owns(s.callers[t], f) && Owns(s.callers[u], f)))
  }

  /** The fetch on the books is the only one running. */
  ghost predicate InflightOk(s: State) {
    && (forall t, f: nat | 0 <= t < |s.callers| && Running(s.callers[t], f) :: s.inflight == Some(f))
    && (s.inflight.Some? ==> s.inflight.value < |s.fetches|
                             && exists t :: 0 <= t < |s.callers| && Running(s.callers[t], s.inflight.value))
  }

  ghost predicate Inv(s: State) {
    && (forall t | 0 <= t < |s.callers| :: PcOk(s, s.callers[t]))
    && (forall f | 0 <= f < |s.fetches| && s.fetches[f].published.Some? ::
          s.fetches[f].returned == s.fetches[f].published)
    && (s.cached.Some? ==> FromFetch(s, s.cached.value))
    && LockOk(s) && OwnersOk(s) && InflightOk(s)
  }

  function Start(n: nat): State { State(None, None, 0, None, [], seq(n, _ => Calling)) }

  lemma StartInv(n: nat)
    ensures Inv(Start(n))
  {}

  /** s with caller t moved on to pc, and nothing else changed that the others look at. */
  ghost predicate Moves(s: State, s': State, t: nat, pc: Pc) {
    && t < |s.callers| && s'.callers == s.callers[t := pc]
  }

  /** The lock is taken on entering a critical section, released on leaving it, and otherwise left alone. */
  ghost predicate LockFollows(s: State, s': State, t: nat, pc: Pc)
    requires t < |s.callers|
  {
    if InCritical(pc) == InCritical(s.callers[t]) then s'.lock == s.lock
    else if InCritical(pc) then s.lock.None? && s'.lock == Some(t)
    else s'.lock.None?
  }

  lemma LockStep(s: State, s': State, t: nat, pc: Pc)
    requires LockOk(s) && Moves(s, s', t, pc)
    requires LockFollows(s, s', t, pc)
    ensures LockOk(s')
  {
    hide InCritical;
    assert forall u | 0 <= u < |s.callers| && u != t :: s'.callers[u] == s.callers[u];
    assert s'.callers[t] == pc;
  }

  /** A caller that goes on owning what it owned leaves ownership as it was. */
  lemma OwnersStep(s: State, s': State, t: nat, pc: Pc)
    requires OwnersOk(s) && Moves(s, s', t, pc) && |s'.fetches| == |s.fetches|
    requires forall f | 0 <= f < |s.fetches| :: s'.fetches[f].published == s.fetches[f].published
    requires forall f: nat :: Owns(pc, f) <==> Owns(s.callers[t], f)
    ensures OwnersOk(s')
  {
    hide Owns;
    assert forall u | 0 <= u < |s.callers| && u != t :: s'.callers[u] == s.callers[u];
    assert s'.callers[t] == pc;
    forall f | 0 <= f < |s'.fetches| && s'.fetches[f].published.None?
      ensures exists u :: 0 <= u < |s'.callers| && Owns(s'.callers[u], f)
    {
      var u :| 0 <= u < |s.callers| && Owns(s.callers[u], f);
      assert Owns(s'.callers[u], f);
    }
  }

  lemma InflightStep(s: State, s': State, t: nat, pc: Pc)
    requires InflightOk(s) && Moves(s, s', t, pc) && |s'.fetches| == |s.fetches| && s'.inflight == s.inflight
    requires forall f: nat :: Running(pc, f) <==> Running(s.callers[t], f)
    ensures InflightOk(s')
  {
    hide Running;
    assert forall u | 0 <= u < |s.callers| && u != t :: s'.callers[u] == s.callers[u];
    assert s'.callers[t] == pc;
    if s.inflight.Some? {
      var u :| 0 <= u < |s.callers| && Running(s.callers[u], s.inflight.value);
      assert Running(s'.callers[u], s.inflight.value);
    }
  }

  /** Steps that only move one caller on, with the fetches as they were. */
  lemma QuietStep(s: State, s': State, t: nat, pc: Pc)
    requires Inv(s) && Moves(s, s', t, pc)
    requires s'.fetches == s.fetches && s'.inflight == s.inflight && s'.cached == s.cached
    requires LockFollows(s, s', t, pc)
    requires forall f: nat :: Owns(pc, f) <==> Owns(s.callers[t], f)
    requires forall f: nat :: Running(pc, f) <==> Running(s.callers[t], f)
    requires PcOk(s', pc)
    ensures Inv(s')
  {
    hide LockOk, OwnersOk, InflightOk, Owns, Running, InCritical;
    LockStep(s, s', t, pc);
    OwnersStep(s, s', t, pc);
    InflightStep(s, s', t, pc);
    forall u | 0 <= u < |s'.callers| ensures PcOk(s', s'.callers[u]) {
      if u != t { assert s'.callers[u] == s.callers[u]; }
    }
  }

  // ---- the steps that change the fetches ----

  /** A caller that finds neither fresh keys nor a fetch opens one. */
  lemma OpenStep(s: State, s': State, t: nat)
    requires Inv(s) && t < |s.callers| && s.callers[t].Checking? && s.inflight.None?
    requires s' == s.(inflight := Some(|s.fetches|), fetches := s.fetches + [Fetch(None, None)],
                      callers := s.callers[t := Leaving(Fetching(|s.fetches|))])
    ensures Inv(s')
  {
    hide LockOk;
    var f := |s.fetches|;
    LockStep(s, s', t, Leaving(Fetching(f)));
    assert s'.callers[t] == Leaving(Fetching(f)) && Running(s'.callers[t], f) && Owns(s'.callers[t], f);
    assert forall u | 0 <= u < |s.callers| && u != t :: s'.callers[u] == s.callers[u];
    forall u | 0 <= u < |s'.callers| ensures PcOk(s', s'.callers[u]) {
      if u != t { GrownPc(s, s', s.callers[u]); }
    }
    if s.cached.Some? { GrownFrom(s, s', s.cached.value); }
    forall u, g: nat | 0 <= u < |s.callers| && Owns(s.callers[u], g) ensures g < f { OwnedIsOpen(s, u, g); }
    forall g | 0 <= g < |s'.fetches| && s'.fetches[g].published.None?
      ensures exists u :: 0 <= u < |s'.callers| && Owns(s'.callers[u], g)
    {
      if g < f {
        var u :| 0 <= u < |s.callers| && Owns(s.callers[u], g);
        assert u != t && Owns(s'.callers[u], g);
      }
    }
  }

  lemma OwnedIsOpen(s: State, u: nat, f: nat)
    requires u < |s.callers| && PcOk(s, s.callers[u]) && Owns(s.callers[u], f)
    ensures f < |s.fetches| && s.fetches[f].published.None?
  {}

  /** More fetches on record do not disturb a caller. */
  lemma GrownPc(s: State, s': State, pc: Pc)
    requires PcOk(s, pc) && s.fetches <= s'.fetches
    ensures PcOk(s', pc)
  {
    if Core(pc).Finished? && Core(pc).r.Ok? { GrownFrom(s, s', Core(pc).r.value); }
  }

  lemma GrownFrom(s: State, s': State, k: Keys)
    requires FromFetch(s, k) && s.fetches <= s'.fetches
    ensures FromFetch(s', k)
  {
    var i :| 0 <= i < |s.fetches| && s.fetches[i].returned == Some(Ok(k));
    assert s'.fetches[i] == s.fetches[i];
  }

  /** A fetch returns, with whatever answer, to the caller that runs it. */
  lemma ReturnStep(s: State, s': State, t: nat, f: nat, answer: Answer)
    requires Inv(s) && t < |s.callers| && s.callers[t] == Fetching(f) && f < |s.fetches|
    requires s' == s.(fetches := s.fetches[f := s.fetches[f].(returned := Some(answer))],
                      callers := s.callers[t := Returning(f, answer)])
    ensures Inv(s')
  {
    hide LockOk, OwnersOk, InflightOk;
    var pc := Returning(f, answer);
    LockStep(s, s', t, pc);
    OwnersStep(s, s', t, pc);
    InflightStep(s, s', t, pc);
    assert PcOk(s, s.callers[t]);
    if s.cached.Some? { UpdatedFrom(s, s', f, s.cached.value); }
    forall u | 0 <= u < |s'.callers| ensures PcOk(s', s'.callers[u]) {
      if u != t {
        SoleOwner(s, t, u, f);
        UpdatedPc(s, s', f, s.callers[u]);
      }
    }
  }

  /** Only fetch f is updated, and what it returned is not revised. */
  ghost predicate Updates(s: State, s': State, f: nat)
    requires |s'.fetches| == |s.fetches|
  {
    && f < |s.fetches| && s'.fetches == s.fetches[f := s'.fetches[f]]
    && (s.fetches[f].returned.Some? ==> s'.fetches[f].returned == s.fetches[f].returned)
  }

  lemma UpdatedFrom(s: State, s': State, f: nat, k: Keys)
    requires FromFetch(s, k) && |s'.fetches| == |s.fetches| && Updates(s, s', f)
    ensures FromFetch(s', k)
  {
    var i :| 0 <= i < |s.fetches| && s.fetches[i].returned == Some(Ok(k));
    assert s'.fetches[i].returned == s.fetches[i].returned;
  }

  /** An update to one fetch does not disturb a caller that does not own it. */
  lemma UpdatedPc(s: State, s': State, f: nat, pc: Pc)
    requires PcOk(s, pc) && |s'.fetches| == |s.fetches| && Updates(s, s', f) && !Owns(pc, f)
    ensures PcOk(s', pc)
  {
    if Core(pc).Finished? && Core(pc).r.Ok? { UpdatedFrom(s, s', f, Core(pc).r.value); }
  }

  /** The caller that runs a fetch is the only one that owns it. */
  lemma SoleOwner(s: State, t: nat, u: nat, f: nat)
    requires OwnersOk(s) && t < |s.callers| && u < |s.callers| && t != u && Owns(s.callers[t], f)
    ensures !Owns(s.callers[u], f)
  {}

  /** There is one running fetch, and one caller that runs it. */
  lemma OnlyRunner(s: State, t: nat, u: nat, f: nat, g: nat)
    requires OwnersOk(s) && InflightOk(s) && t < |s.callers| && u < |s.callers|
    requires Running(s.callers[t], f) && Running(s.callers[u], g)
    ensures t == u && f == g
  {
    hide Running;
    assert s.inflight == Some(f) == Some(g);
    if t != u { SoleOwner(s, t, u, f); }
  }

  /** The fetch is taken off the books, and successful keys are cached, under the lock. */
  lemma StoreStep(s: State, s': State, t: nat, f: nat, r: Answer, now: int)
    requires Inv(s) && t < |s.callers| && s.callers[t] == Storing(f, r)
    requires s' == (if r.Ok? then s.(cached := Some(r.value), fetchedAt := now) else s)
                     .(inflight := None, callers := s.callers[t := Leaving(Publishing(f, r))])
    ensures Inv(s')
  {
    hide LockOk, OwnersOk;
    var pc := Leaving(Publishing(f, r));
    LockStep(s, s', t, pc);
    OwnersStep(s, s', t, pc);
    assert s.inflight == Some(f) by { assert Running(s.callers[t], f); }
    assert forall u | 0 <= u < |s.callers| && u != t :: s'.callers[u] == s.callers[u];
    assert s'.callers[t] == pc;
    assert PcOk(s, s.callers[t]);
    if r.Ok? { assert s.fetches[f].returned == Some(r); }
    forall u, g: nat | 0 <= u < |s'.callers| ensures !Running(s'.callers[u], g) {
      if u != t && Running(s.callers[u], g) { OnlyRunner(s, t, u, f, g); }
    }
  }

  /** The result is handed to everyone who waits, after which nobody owns the fetch. */
  lemma PublishStep(s: State, s': State, t: nat, f: nat, r: Answer)
    requires Inv(s) && t < |s.callers| && s.callers[t] == Publishing(f, r) && f < |s.fetches|
    requires s' == s.(fetches := s.fetches[f := s.fetches[f].(published := Some(r))],
                      callers := s.callers[t := Finished(r)])
    ensures Inv(s')
  {
    hide LockOk, OwnersOk, InflightOk;
    LockStep(s, s', t, Finished(r));
    InflightStep(s, s', t, Finished(r));
    OwnersPublished(s, s', t, f, r);
    assert PcOk(s, s.callers[t]) && s.fetches[f] == Fetch(Some(r), None);
    forall u | 0 <= u < |s'.callers| ensures PcOk(s', s'.callers[u]) {
      if u != t {
        SoleOwner(s, t, u, f);
        UpdatedPc(s, s', f, s.callers[u]);
      }
    }
    if s.cached.Some? { UpdatedFrom(s, s', f, s.cached.value); }
  }

  lemma OwnersPublished(s: State, s': State, t: nat, f: nat, r: Answer)
    requires OwnersOk(s) && t < |s.callers| && s.callers[t] == Publishing(f, r) && f < |s.fetches|
    requires s'.fetches == s.fetches[f := s.fetches[f].(published := Some(r))]
    requires s'.callers == s.callers[t := Finished(r)]
    ensures OwnersOk(s')
  {
    assert forall u | 0 <= u < |s.callers| && u != t :: s'.callers[u] == s.callers[u];
    assert s'.callers[t] == Finished(r);
    forall g | 0 <= g < |s'.fetches| && s'.fetches[g].published.None?
      ensures exists u :: 0 <= u < |s'.callers| && Owns(s'.callers[u], g)
    {
      var u :| 0 <= u < |s.callers| && Owns(s.callers[u], g);
      assert u != t && Owns(s'.callers[u], g);
    }
  }

  /** Every step of every caller keeps the invariant. */
  lemma StepKeepsInv(s: State, ttl: int, t: nat, now: int, answer: Option<Answer>)
    requires Inv(s) && Step(s, ttl, t, now, answer).Some?
    ensures Inv(Step(s, ttl, t, now, answer).value)
  {
    hide OwnersOk, InflightOk;
    var s' := Step(s, ttl, t, now, answer).value;
    var pc := s'.callers[t];
    assert PcOk(s, s.callers[t]);
    match s.callers[t]
    case Checking =>
      if !Fresh(s, ttl, now) && s.inflight.None? { OpenStep(s, s', t); } else { CheckStep(s, s', t, ttl, now); }
    case Fetching(f) => ReturnStep(s, s', t, f, answer.value);
    case Storing(f, r) => StoreStep(s, s', t, f, r, now);
    case Publishing(f, r) => PublishStep(s, s', t, f, r);
    case _ => QuietStep(s, s', t, pc);
  }

  lemma CheckStep(s: State, s': State, t: nat, ttl: int, now: int)
    requires Inv(s) && t < |s.callers| && s.callers[t].Checking? && (Fresh(s, ttl, now) || s.inflight.Some?)
    requires s' == s.(callers := s.callers[t := Leaving(
                        if Fresh(s, ttl, now) then Finished(Ok(s.cached.value)) else Waiting(s.inflight.value))])
    ensures Inv(s')
  {
    QuietStep(s, s', t, s'.callers[t]);
  }

  // ---- runs ----

  /** Whose turn it is, what the clock says, and what the network has to say to it, if anything. */
  datatype Turn = Turn(caller: nat, now: int, answer: Option<Answer>)

  /** The turn of a caller that is blocked or finished changes nothing. */
  function After(s: State, ttl: int, turn: Turn): State {
    match Step(s, ttl, turn.caller, turn.now, turn.answer)
    case None => s
    case Some(next) => next
  }

  function Run(s: State, ttl: int, turns: seq<Turn>): State
    decreases |turns|
  {
    if turns == [] then s else After(Run(s, ttl, turns[..|turns| - 1]), ttl, turns[|turns| - 1])
  }

  lemma AfterKeepsInv(s: State, ttl: int, turn: Turn)
    requires Inv(s)
    ensures Inv(After(s, ttl, turn))
  {
    hide Inv, Step;
    if Step(s, ttl, turn.caller, turn.now, turn.answer).Some? {
      StepKeepsInv(s, ttl, turn.caller, turn.now, turn.answer);
    }
  }

  lemma {:induction false} RunKeepsInv(s: State, ttl: int, turns: seq<Turn>)
    requires Inv(s)
    ensures Inv(Run(s, ttl, turns))
    decreases |turns|
  {
    hide Inv, After;
    if turns != [] {
      RunKeepsInv(s, ttl, turns[..|turns| - 1]);
      AfterKeepsInv(Run(s, ttl, turns[..|turns| - 1]), ttl, turns[|turns| - 1]);
    }
  }

  /** In every interleaving of any number of callers at most one is fetching, and it does not hold the lock. */
  lemma OneFetchUnlocked(n: nat, ttl: int, turns: seq<Turn>, t: nat, u: nat)
    ensures var s := Run(Start(n), ttl, turns);
            t < |s.callers| && u < |s.callers| && s.callers[t].Fetching? ==>
              s.lock != Some(t) && (s.callers[u].Fetching? ==> t == u)
  {
    StartInv(n);
    RunKeepsInv(Start(n), ttl, turns);
    hide Run, OwnersOk, InflightOk, PcOk;
    var s := Run(Start(n), ttl, turns);
    if t < |s.callers| && u < |s.callers| && s.callers[t].Fetching? && s.callers[u].Fetching? {
      OnlyRunner(s, t, u, s.callers[t].f, s.callers[u].f);
    }
  }

  /** Keys handed to a caller, and keys in the cache, were returned by a successful fetch. */
  lemma OnlyFetchedKeys(n: nat, ttl: int, turns: seq<Turn>, t: nat)
    ensures var s := Run(Start(n), ttl, turns);
            && (s.cached.Some? ==> FromFetch(s, s.cached.value))
            && (t < |s.callers| && s.callers[t].Finished? && s.callers[t].r.Ok? ==> FromFetch(s, s.callers[t].r.value))
  {
    StartInv(n);
    RunKeepsInv(Start(n), ttl, turns);
    hide Run;
    var s := Run(Start(n), ttl, turns);
    if t < |s.callers| { assert PcOk(s, s.callers[t]); }
  }

  /** A waiter that is released gets what the fetch it joined returned. */
  lemma WaiterGetsItsFetch(n: nat, ttl: int, turns: seq<Turn>, t: nat, now: int, answer: Option<Answer>)
    ensures var s := Run(Start(n), ttl, turns);
            t < |s.callers| && s.callers[t].Waiting? && Step(s, ttl, t, now, answer).Some? ==>
              var f := s.callers[t].f;
              && f < |s.fetches| && s.fetches[f].returned.Some?
              && Step(s, ttl, t, now, answer).value.callers[t] == Finished(s.fetches[f].returned.value)
  {
    StartInv(n);
    RunKeepsInv(Start(n), ttl, turns);
    hide Run, LockOk, OwnersOk, InflightOk;
  }

  // ---- nobody is left waiting ----

  /** An endless schedule: whose turn it is at each moment. */
  type Schedule = nat -> Turn

  /** The state at moment i. */
  ghost function At(s: State, ttl: int, schedule: Schedule, i: nat): State {
    if i == 0 then s else After(At(s, ttl, schedule, i - 1), ttl, schedule(i - 1))
  }

  /** Caller t has its turn at moment j, at or after moment i. */
  predicate HasTurn(schedule: Schedule, t: nat, i: nat, j: nat) { i <= j && schedule(j).caller == t }

  ghost predicate TurnComes(schedule: Schedule, t: nat, i: nat) { exists j: nat :: HasTurn(schedule, t, i, j) }

  /** Every caller gets its turn again and again; nothing is asked of the network. */
  ghost predicate Fair(n: nat, schedule: Schedule) {
    forall t: nat, i: nat | t < n :: TurnComes(schedule, t, i)
  }

  /** The steps a caller may still have ahead of it. */
  function Work(pc: Pc): nat {
    match pc
    case Calling => 9
    case Checking => 8
    case Fetching(_) => 5
    case Returning(_, _) => 4
    case Storing(_, _) => 3
    case Publishing(_, _) => 1
    case Waiting(_) => 1
    case Leaving(next) => 1 + Work(next)
    case Finished(_) => 0
  }

  function TotalWork(pcs: seq<Pc>): nat { if pcs == [] then 0 else Work(pcs[0]) + TotalWork(pcs[1..]) }

  lemma {:induction false} WorkDone(pcs: seq<Pc>, t: nat, pc: Pc)
    requires t < |pcs| && Work(pc) < Work(pcs[t])
    ensures TotalWork(pcs[t := pc]) < TotalWork(pcs)
  {
    if t == 0 {
      assert pcs[0 := pc][1..] == pcs[1..];
    } else {
      WorkDone(pcs[1..], t - 1, pc);
      assert pcs[t := pc][1..] == pcs[1..][t - 1 := pc];
    }
  }

  /** A step moves its own caller on, and no other. */
  lemma StepWorks(s: State, ttl: int, u: nat, now: int, answer: Option<Answer>)
    requires Step(s, ttl, u, now, answer).Some?
    ensures var next := Step(s, ttl, u, now, answer).value;
            && u < |s.callers| && |next.callers| == |s.callers| && TotalWork(next.callers) < TotalWork(s.callers)
            && forall t | 0 <= t < |s.callers| && t != u :: next.callers[t] == s.callers[t]
  {
    hide TotalWork;
    var next := Step(s, ttl, u, now, answer).value;
    assert next.callers == s.callers[u := next.callers[u]];
    WorkDone(s.callers, u, next.callers[u]);
  }

  lemma {:induction false} AtKeepsInv(s: State, ttl: int, schedule: Schedule, i: nat)
    requires Inv(s)
    ensures Inv(At(s, ttl, schedule, i)) && |At(s, ttl, schedule, i).callers| == |s.callers|
  {
    hide Inv, Step;
    if i > 0 {
      AtKeepsInv(s, ttl, schedule, i - 1);
      var before, turn := At(s, ttl, schedule, i - 1), schedule(i - 1);
      AfterKeepsInv(before, ttl, turn);
      if Step(before, ttl, turn.caller, turn.now, turn.answer).Some? {
        StepWorks(before, ttl, turn.caller, turn.now, turn.answer);
      }
    }
  }

  /** The turn at moment i is one that its caller can use. */
  ghost predicate Effective(s: State, ttl: int, schedule: Schedule, i: nat) {
    Step(At(s, ttl, schedule, i), ttl, schedule(i).caller, schedule(i).now, schedule(i).answer).Some?
  }

  /** Up to the next moment at which some turn is used the state stands still. */
  lemma {:induction false} NextEffective(s: State, ttl: int, schedule: Schedule, i: nat, j: nat) returns (k: nat)
    requires i <= j
    requires Step(At(s, ttl, schedule, i), ttl, schedule(j).caller, schedule(j).now, schedule(j).answer).Some?
    ensures i <= k <= j && At(s, ttl, schedule, k) == At(s, ttl, schedule, i) && Effective(s, ttl, schedule, k)
    decreases j - i
  {
    hide Step;
    if i == j || Effective(s, ttl, schedule, i) {
      k := i;
    } else {
      assert At(s, ttl, schedule, i + 1) == At(s, ttl, schedule, i);
      k := NextEffective(s, ttl, schedule, i + 1, j);
    }
  }

  /** Caller t waits for a fetch that has returned r. */
  ghost predicate WaitsFor(s: State, t: nat, f: nat, r: Answer) {
    Inv(s) && t < |s.callers| && s.callers[t] == Waiting(f) && f < |s.fetches| && s.fetches[f].returned == Some(r)
  }

  lemma CallersAreOk(s: State, u: nat)
    requires Inv(s)
    ensures u < |s.callers| ==> PcOk(s, s.callers[u])
  {}

  /** What a fetch returned is not revised. */
  lemma ReturnedStays(s: State, ttl: int, u: nat, now: int, answer: Option<Answer>, f: nat)
    requires f < |s.fetches| && s.fetches[f].returned.Some?
    requires Step(s, ttl, u, now, answer).Some? && (u < |s.callers| ==> PcOk(s, s.callers[u]))
    ensures var next := Step(s, ttl, u, now, answer).value;
            f < |next.fetches| && next.fetches[f].returned == s.fetches[f].returned
  {
    hide FromFetch;
  }

  /** A used turn either releases the waiter, with the result of its fetch, or leaves it waiting for that. */
  lemma WaiterStep(s: State, ttl: int, u: nat, now: int, answer: Option<Answer>, t: nat, f: nat, r: Answer)
    requires WaitsFor(s, t, f, r) && Step(s, ttl, u, now, answer).Some?
    ensures var next := Step(s, ttl, u, now, answer).value;
            t < |next.callers| && if u == t then next.callers[t] == Finished(r) else WaitsFor(next, t, f, r)
  {
    StepKeepsInv(s, ttl, u, now, answer);
    CallersAreOk(s, u);
    if u == t {
      hide LockOk, OwnersOk, InflightOk, PcOk;
    } else {
      hide Inv, Step;
      StepWorks(s, ttl, u, now, answer);
      ReturnedStays(s, ttl, u, now, answer, f);
    }
  }

  /** While a fetch has returned but is not stored, the lock is only held for a look at the cache. */
  lemma HolderIsPassing(s: State, v: nat, u: nat, f: nat)
    requires Inv(s) && s.lock == Some(v) && u < |s.callers| && s.callers[u].Returning? && s.callers[u].f == f
    ensures v < |s.callers| && (s.callers[v].Leaving? || s.callers[v].Checking?)
  {
    assert InCritical(s.callers[v]);
    if s.callers[v].Storing? { OnlyRunner(s, u, v, f, s.callers[v].f); }
  }

  /** When a waiter's fetch has returned, somebody can move who is not held up by the network. */
  lemma SomeoneCanMove(s: State, ttl: int, t: nat, f: nat, r: Answer) returns (u: nat)
    requires WaitsFor(s, t, f, r)
    ensures u < |s.callers| && forall now, answer :: Step(s, ttl, u, now, answer).Some?
  {
    if s.fetches[f].published.Some? {
      u := t;
    } else {
      u :| u < |s.callers| && Owns(s.callers[u], f);
      CallersAreOk(s, u);
      if s.callers[u].Returning? && s.lock.Some? {
        HolderIsPassing(s, s.lock.value, u, f);
        u := s.lock.value;
      }
    }
  }

  /** From any moment on, a fair schedule releases the waiter: each used turn leaves less work to do. */
  lemma {:induction false} Released(s: State, ttl: int, schedule: Schedule, i: nat, t: nat, f: nat, r: Answer)
    requires Fair(|s.callers|, schedule) && Inv(s) && WaitsFor(At(s, ttl, schedule, i), t, f, r)
    ensures exists j: nat :: i <= j && t < |At(s, ttl, schedule, j).callers|
                             && At(s, ttl, schedule, j).callers[t] == Finished(r)
    decreases TotalWork(At(s, ttl, schedule, i).callers)
  {
    hide Inv, Step, TotalWork, WaitsFor;
    AtKeepsInv(s, ttl, schedule, i);
    var u := SomeoneCanMove(At(s, ttl, schedule, i), ttl, t, f, r);
    assert TurnComes(schedule, u, i);
    var j: nat :| HasTurn(schedule, u, i, j);
    var k := NextEffective(s, ttl, schedule, i, j);
    var turn := schedule(k);
    StepWorks(At(s, ttl, schedule, k), ttl, turn.caller, turn.now, turn.answer);
    WaiterStep(At(s, ttl, schedule, k), ttl, turn.caller, turn.now, turn.answer, t, f, r);
    assert At(s, ttl, schedule, k + 1) == After(At(s, ttl, schedule, k), ttl, turn);
    if turn.caller != t { Released(s, ttl, schedule, k + 1, t, f, r); }
  }

  /**
   * No waiter is left behind: under every fair schedule of any number of callers, a caller whose fetch has
   * returned is released with that result, even if the network never answers anyone again.
   */
  lemma WaiterIsReleased(n: nat, ttl: int, schedule: Schedule, i: nat, t: nat)
    requires Fair(n, schedule)
    ensures var s := At(Start(n), ttl, schedule, i);
            t < |s.callers| && s.callers[t].Waiting? && s.callers[t].f < |s.fetches|
            && s.fetches[s.callers[t].f].returned.Some? ==>
              exists j: nat :: i <= j && t < |At(Start(n), ttl, schedule, j).callers|
                && At(Start(n), ttl, schedule, j).callers[t] == Finished(s.fetches[s.callers[t].f].returned.value)
  {
    StartInv(n);
    AtKeepsInv(Start(n), ttl, schedule, i);
    hide Inv, Fair, At;
    var s := At(Start(n), ttl, schedule, i);
    if t < |s.callers| && s.callers[t].Waiting? && s.callers[t].f < |s.fetches|
       && s.fetches[s.callers[t].f].returned.Some? {
      Released(Start(n), ttl, schedule, i, t, s.callers[t].f, s.fetches[s.callers[t].f].returned.value);
    }
  }

  // ---- everyone returns ----

  ghost predicate NetworkAnswers(schedule: Schedule) { forall i: nat :: schedule(i).answer.Some? }

  /** As long as somebody is not done, somebody can move, given an answer from the network. */
  lemma UnfinishedMoves(s: State, ttl: int, t: nat) returns (u: nat)
    requires Inv(s) && t < |s.callers| && !s.callers[t].Finished?
    ensures u < |s.callers| && forall now, answer: Option<Answer> | answer.Some? :: Step(s, ttl, u, now, answer).Some?
  {
    if s.lock.Some? {
      u := s.lock.value;
      assert InCritical(s.callers[u]);
    } else {
      u := t;
      CallersAreOk(s, t);
      assert !InCritical(s.callers[t]);
      if s.callers[t].Waiting? && s.fetches[s.callers[t].f].published.None? {
        u :| u < |s.callers| && Owns(s.callers[u], s.callers[t].f);
        CallersAreOk(s, u);
        assert !InCritical(s.callers[u]);
      }
    }
  }

  ghost predicate AllFinished(s: State) { forall t | 0 <= t < |s.callers| :: s.callers[t].Finished? }

  lemma {:induction false} FinishedFrom(s: State, ttl: int, schedule: Schedule, i: nat)
    requires Fair(|s.callers|, schedule) && NetworkAnswers(schedule) && Inv(s)
    ensures exists j: nat :: i <= j && AllFinished(At(s, ttl, schedule, j))
    decreases TotalWork(At(s, ttl, schedule, i).callers)
  {
    hide Inv, Step, TotalWork;
    AtKeepsInv(s, ttl, schedule, i);
    var now := At(s, ttl, schedule, i);
    if t: nat :| t < |now.callers| && !now.callers[t].Finished? {
      var u := UnfinishedMoves(now, ttl, t);
      assert TurnComes(schedule, u, i);
      var j: nat :| HasTurn(schedule, u, i, j);
      var k := NextEffective(s, ttl, schedule, i, j);
      var turn := schedule(k);
      StepWorks(At(s, ttl, schedule, k), ttl, turn.caller, turn.now, turn.answer);
      assert At(s, ttl, schedule, k + 1) == After(At(s, ttl, schedule, k), ttl, turn);
      FinishedFrom(s, ttl, schedule, k + 1);
    }
  }

  /** When the network answers, every caller of keys() returns under every fair schedule. */
  lemma EveryCallReturns(n: nat, ttl: int, schedule: Schedule)
    requires Fair(n, schedule) && NetworkAnswers(schedule)
    ensures exists j: nat ::
              |At(Start(n), ttl, schedule, j).callers| == n && AllFinished(At(Start(n), ttl, schedule, j))
  {
    hide Inv, Fair, At, NetworkAnswers, AllFinished;
    StartInv(n);
    FinishedFrom(Start(n), ttl, schedule, 0);
    var j: nat :| AllFinished(At(Start(n), ttl, schedule, j));
    AtKeepsInv(Start(n), ttl, schedule, j);
  }

  /** Whose turn it is at moment i when n callers take turns in a circle. */
  function InCircle(n: nat, i: nat): (t: nat)
    requires n > 0
    ensures t < n
  {
    if i == 0 || InCircle(n, i - 1) + 1 == n then 0 else InCircle(n, i - 1) + 1
  }

  /** Taking turns in a circle is fair, whatever the network does. */
  lemma CircleIsFair(n: nat, schedule: Schedule)
    requires n > 0 && forall i: nat :: schedule(i).caller == InCircle(n, i)
    ensures Fair(n, schedule)
  {
    forall t: nat, i: nat | t < n ensures TurnComes(schedule, t, i) {
      var j := InTurn(n, t, i);
      assert HasTurn(schedule, t, i, j);
    }
  }

  lemma {:induction false} InTurn(n: nat, t: nat, i: nat) returns (j: nat)
    requires t < n
    ensures i <= j && InCircle(n, j) == t
    decreases if InCircle(n, i) <= t then t - InCircle(n, i) else n - InCircle(n, i) + t
  {
    if InCircle(n, i) == t { j := i; } else { j := InTurn(n, t, i + 1); }
  }
}
