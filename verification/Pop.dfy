/**
 * Proof of possession: the checks on a signed invocation, the nonce cache that is
 * consulted last, and when one invocation can be accepted twice. Clock readings
 * are in nanoseconds.
 */
module Pop {
  import opened Wrappers

  const INVOCATION_TYP := "adtp/inv/1"
  const INVOCATION_LIFETIME := 300
  const INVOCATION_FRESHNESS := 60
  const INVOCATION_CLOCK_SKEW := 60
  const SECOND := 1_000_000_000

  /**
   * A request parameter, as far as caveats can tell parameters apart: JSON numbers decode to finite
   * floating-point numbers, while a caller in the same program may also pass integers; infinities and
   * what is not a number bound nothing and are among the others.
   */
  datatype Param = Text(s: string) | Integer(n: int) | Floating(r: real) | OtherParam

  /** What an invocation asks to do. */
  datatype Request = Request(action: string, resource: string, parameters: map<string, Param>)

  datatype Invocation = Invocation(
    typ: string, iss: string, aud: string, iat: int, exp: int, nonce: string, cb: string,
    onBehalfOf: bool, delegation: string, request: Request, sig: string)

  /** Key resolution and signature checking for presenters. */
  datatype Presenters = Presenters(resolve: string -> Option<Bytes>, signed: (Bytes, Invocation) -> bool)

  datatype PopError =
    | UnexpectedTyp
    | OnBehalfOf
    | WrongPresenter
    | WrongAudience
    | FutureIat
    | StaleIat
    | InvocationExpired
    | LifetimeTooLong
    | UnresolvedPresenter
    | BadSignature
    | NonceReplay

  /** time.Time.Unix: whole seconds. */
  function Seconds(t: int): int { t / SECOND }

  // ---- the nonce cache ----

  type Nonces = map<string, int>

  predicate Seen(m: Nonces, nonce: string, t: int) { nonce in m && t < m[nonce] }

  class MemoryNonceCache {
    var m: Nonces

    constructor ()
      ensures m == map[]
    {
      m := map[];
    }

    /** Records the nonce until t1 + ttl unless it is still live at t2. */
    method CheckAndStore(nonce: string, ttl: int, t1: int, t2: int) returns (alreadySeen: bool)
      modifies this
      ensures alreadySeen == Seen(old(m), nonce, t2)
      ensures m == if alreadySeen then old(m) else old(m)[nonce := t1 + ttl]
    {
      var expiry := t1 + ttl;
      if nonce in m {
        if t2 < m[nonce] { return true; }
        m := m[nonce := expiry];
      } else {
        m := m[nonce := expiry];
      }
      return false;
    }
  }

  // ---- the checks ----

  /** The checks that come before the nonce is looked at, in order. */
  function CheckInvocation(p: Presenters, inv: Invocation, expectedAud: string, leafAud: string, now: int)
    : Option<PopError>
  {
    if inv.typ != INVOCATION_TYP then Some(UnexpectedTyp)
    else if inv.onBehalfOf then Some(OnBehalfOf)
    else if inv.iss != leafAud then Some(WrongPresenter)
    else if inv.aud != expectedAud then Some(WrongAudience)
    else if inv.iat > now + INVOCATION_CLOCK_SKEW then Some(FutureIat)
    else if now - inv.iat > INVOCATION_FRESHNESS then Some(StaleIat)
    else if inv.exp < now then Some(InvocationExpired)
    else if inv.exp > inv.iat + INVOCATION_LIFETIME then Some(LifetimeTooLong)
    else if p.resolve(inv.iss).None? then Some(UnresolvedPresenter)
    else if !p.signed(p.resolve(inv.iss).value, inv) then Some(BadSignature)
    else None
  }

  /** How long a nonce is kept, in nanoseconds; never nothing. */
  function TimeToLive(exp: int, now: int): int {
    if exp - now <= 0 then SECOND else (exp - now) * SECOND
  }

  /** The invocation check as it runs: t0 is read first, t1 and t2 by the nonce cache. */
  method VerifyInvocation(p: Presenters, inv: Invocation, expectedAud: string, leafAud: string,
                          cache: MemoryNonceCache, t0: int, t1: int, t2: int)
    returns (err: Option<PopError>)
    modifies cache
    ensures var bad := CheckInvocation(p, inv, expectedAud, leafAud, Seconds(t0));
            && err == (if bad.Some? then bad else if Seen(old(cache.m), inv.nonce, t2) then Some(NonceReplay) else None)
            && (err.Some? ==> cache.m == old(cache.m))
            && (err.None? ==> cache.m == old(cache.m)[inv.nonce := t1 + TimeToLive(inv.exp, Seconds(t0))])
  {
    var now := Seconds(t0);
    var bad := CheckInvocation(p, inv, expectedAud, leafAud, now);
    if bad.Some? { return bad; }
    var ttl := (inv.exp - now) * SECOND;
    if ttl <= 0 { ttl := SECOND; }
    assert ttl == TimeToLive(inv.exp, now);
    var seen := cache.CheckAndStore(inv.nonce, ttl, t1, t2);
    if seen { return Some(NonceReplay); }
    return None;
  }

  // ---- runs ----

  /** One call of VerifyInvocation, with the clock readings it made. */
  datatype Attempt = Attempt(inv: Invocation, leafAud: string, t0: int, t1: int, t2: int)

  /** The clock never runs backwards, and cache calls take effect one after another. */
  predicate Timely(run: seq<Attempt>) {
    && (forall i | 0 <= i < |run| :: run[i].t0 <= run[i].t1 <= run[i].t2)
    && (forall i, j | 0 <= i < j < |run| :: run[i].t2 <= run[j].t1)
  }

  /** Whole seconds that pass between an attempt's first clock reading and its cache call. */
  function Pause(a: Attempt): int { Seconds(a.t2) - Seconds(a.t0) }

  predicate Accepts(p: Presenters, aud: string, m: Nonces, a: Attempt) {
    && CheckInvocation(p, a.inv, aud, a.leafAud, Seconds(a.t0)).None?
    && !Seen(m, a.inv.nonce, a.t2)
  }

  /** When the nonce recorded by an accepted attempt runs out. */
  function Expiry(a: Attempt): int { a.t1 + TimeToLive(a.inv.exp, Seconds(a.t0)) }

  function After(p: Presenters, aud: string, run: seq<Attempt>): Nonces
    decreases |run|
  {
    if run == [] then map[]
    else
      var m, last := After(p, aud, run[..|run| - 1]), run[|run| - 1];
      if Accepts(p, aud, m, last) then m[last.inv.nonce := Expiry(last)] else m
  }

  predicate AcceptedAt(p: Presenters, aud: string, run: seq<Attempt>, i: nat)
    requires i < |run|
  {
    Accepts(p, aud, After(p, aud, run[..i]), run[i])
  }

  /** From its acceptance on, a nonce stays recorded, and is only renewed once its expiry has passed. */
  lemma {:induction false} NonceHeld(p: Presenters, aud: string, run: seq<Attempt>, i: nat, n: nat)
    requires Timely(run) && i < n <= |run| && AcceptedAt(p, aud, run, i)
    ensures var m, nonce := After(p, aud, run[..n]), run[i].inv.nonce;
            nonce in m && (m[nonce] == Expiry(run[i]) || exists c :: i < c < n && run[c].t2 >= Expiry(run[i]))
    decreases n
  {
    hide CheckInvocation, Expiry;
    assert run[..n][..n - 1] == run[..n - 1];
    if n > i + 1 { NonceHeld(p, aud, run, i, n - 1); }
  }

  /** A second acceptance can only come after the first one's nonce has expired. */
  lemma SecondIsLate(p: Presenters, aud: string, run: seq<Attempt>, i: nat, j: nat)
    requires Timely(run) && i < j < |run| && run[i].inv.nonce == run[j].inv.nonce
    requires AcceptedAt(p, aud, run, i) && AcceptedAt(p, aud, run, j)
    ensures run[j].t2 >= Expiry(run[i])
  {
    hide CheckInvocation, Expiry, After;
    NonceHeld(p, aud, run, i, j);
  }

  lemma ExpiryCoversExp(a: Attempt)
    requires a.t0 <= a.t1
    ensures Expiry(a) >= a.inv.exp * SECOND
  {}

  /** The part of the invocation check that does not look at the clock. */
  predicate WellSigned(p: Presenters, aud: string, inv: Invocation) {
    && inv.typ == INVOCATION_TYP && !inv.onBehalfOf && inv.aud == aud
    && p.resolve(inv.iss).Some? && p.signed(p.resolve(inv.iss).value, inv)
  }

  /** The lifetimes for which a replay is possible when attempts pause for at most `pause` seconds. */
  predicate Replayable(inv: Invocation, pause: nat) {
    && inv.iat - INVOCATION_CLOCK_SKEW + (if pause == 0 then 1 else 0) <= inv.exp
    && inv.exp <= inv.iat + INVOCATION_FRESHNESS + pause
    && inv.exp <= inv.iat + INVOCATION_LIFETIME
  }

  /** The run accepts inv at i and again at j, and no attempt in it pauses for longer than `pause`. */
  ghost predicate Replays(p: Presenters, aud: string, inv: Invocation, pause: nat, run: seq<Attempt>, i: nat, j: nat) {
    && Timely(run) && (forall k | 0 <= k < |run| :: Pause(run[k]) <= pause)
    && i < j < |run| && run[i].inv == inv && run[j].inv == inv
    && AcceptedAt(p, aud, run, i) && AcceptedAt(p, aud, run, j)
  }

  lemma ReplayNeeds(p: Presenters, aud: string, inv: Invocation, pause: nat,
                    run: seq<Attempt>, i: nat, j: nat)
    requires Replays(p, aud, inv, pause, run, i, j)
    ensures WellSigned(p, aud, inv) && Replayable(inv, pause)
  {
    hide After;
    SecondIsLate(p, aud, run, i, j);
    ExpiryCoversExp(run[i]);
    assert Seconds(run[j].t2) >= inv.exp by { assert run[j].t2 >= inv.exp * SECOND; }
    LastSecond(run[i], run[j]);
  }

  /** An invocation accepted in its very last second is kept for a second more. */
  lemma LastSecond(a: Attempt, b: Attempt)
    requires a.t0 <= a.t1 && b.t2 >= Expiry(a)
    ensures Seconds(a.t0) == a.inv.exp && Seconds(b.t0) <= a.inv.exp ==> Pause(b) >= 1
  {}

  /** One attempt per side of the nonce's expiry, each with whole-second readings. */
  lemma ReplayRun(p: Presenters, aud: string, inv: Invocation, pause: nat) returns (run: seq<Attempt>)
    requires WellSigned(p, aud, inv) && Replayable(inv, pause)
    ensures Replays(p, aud, inv, pause, run, 0, 1)
  {
    var first := inv.iat - INVOCATION_CLOCK_SKEW;
    var last := if inv.exp <= inv.iat + INVOCATION_FRESHNESS then inv.exp else inv.iat + INVOCATION_FRESHNESS;
    var expired := if first < inv.exp then inv.exp else inv.exp + 1;
    var a := Attempt(inv, inv.iss, first * SECOND, first * SECOND, first * SECOND);
    var b := Attempt(inv, inv.iss, last * SECOND, expired * SECOND, expired * SECOND);
    run := [a, b];
    assert run[..0] == [] && run[..1] == [a] && [a][..0] == [];
    assert Expiry(a) == expired * SECOND;
    assert After(p, aud, [a]) == map[inv.nonce := Expiry(a)];
  }

  /**
   * When one invocation can be accepted twice by one cache, whatever else is submitted: exactly
   * when it expires within a minute (and the longest pause) of its freshness window.
   */
  lemma ReplayExactly(p: Presenters, aud: string, inv: Invocation, pause: nat)
    ensures (exists run, i, j :: Replays(p, aud, inv, pause, run, i, j)) <==>
            WellSigned(p, aud, inv) && Replayable(inv, pause)
  {
    hide Replays, WellSigned, Replayable;
    forall run, i, j | Replays(p, aud, inv, pause, run, i, j)
      ensures WellSigned(p, aud, inv) && Replayable(inv, pause)
    {
      ReplayNeeds(p, aud, inv, pause, run, i, j);
    }
    if WellSigned(p, aud, inv) && Replayable(inv, pause) {
      var run := ReplayRun(p, aud, inv, pause);
      assert Replays(p, aud, inv, pause, run, 0, 1);
    }
  }

  /** Minted invocations, which live for the whole 300 seconds, are never accepted twice within 240 seconds' pause. */
  lemma MintedNeverReplayed(p: Presenters, aud: string, inv: Invocation, run: seq<Attempt>, i: nat, j: nat)
    requires inv.exp == inv.iat + INVOCATION_LIFETIME
    ensures !Replays(p, aud, inv, INVOCATION_LIFETIME - INVOCATION_FRESHNESS - 1, run, i, j)
  {
    hide Replays;
    if Replays(p, aud, inv, INVOCATION_LIFETIME - INVOCATION_FRESHNESS - 1, run, i, j) {
      ReplayNeeds(p, aud, inv, INVOCATION_LIFETIME - INVOCATION_FRESHNESS - 1, run, i, j);
    }
  }
}
