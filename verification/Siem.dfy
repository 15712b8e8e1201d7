/**
 * The export buffer: events are enqueued while at most one flush has a batch in the
 * air, and a failed batch is put back in front. A flush gives up the lock while it
 * posts, so it is two steps of the protocol.
 */
module Siem {
  import opened Wrappers

  const DEFAULT_BATCH_SIZE := 100
  const MAX_BUFFERED_FACTOR := 10

  /** The newest events that fit. */
  function Trim<E>(buf: seq<E>, maxBuffered: nat): (r: seq<E>)
    ensures |r| <= maxBuffered && |r| <= |buf| && r == buf[|buf| - |r|..]
    ensures |r| < |buf| ==> |r| == maxBuffered
  {
    if |buf| > maxBuffered then buf[|buf| - maxBuffered..] else buf
  }

  class Exporter<E> {
    const batchSize: nat
    const maxBuffered: nat
    var buf: seq<E>
    var flushNow: bool

    constructor (configured: int)
      ensures batchSize == (if configured <= 0 then DEFAULT_BATCH_SIZE else configured)
      ensures maxBuffered == batchSize * MAX_BUFFERED_FACTOR && maxBuffered > 0
      ensures buf == [] && !flushNow
    {
      var size: nat := if configured <= 0 then DEFAULT_BATCH_SIZE else configured;
      batchSize := size;
      maxBuffered := size * MAX_BUFFERED_FACTOR;
      buf := [];
      flushNow := false;
    }

    /** Appends, drops the oldest events over the cap, and signals a full batch. */
    method Enqueue(e: E)
      modifies this
      ensures buf == Trim(old(buf) + [e], maxBuffered)
      ensures flushNow <==> old(flushNow) || |buf| >= batchSize
    {
      buf := buf + [e];
      if |buf| > maxBuffered {
        var drop := |buf| - maxBuffered;
        buf := buf[drop..];
      }
      if |buf| >= batchSize { flushNow := true; }
    }

    /** The first half of a flush: takes the whole buffer, unless there is nothing to send. */
    method TakeBatch() returns (batch: Option<seq<E>>)
      modifies this`buf
      ensures batch == (if old(buf) == [] then None else Some(old(buf)))
      ensures buf == []
    {
      if |buf| == 0 { return None; }
      batch := Some(buf);
      buf := [];
    }

    /** The second half after a failed post: the batch goes back in front, within the cap. */
    method Requeue(batch: seq<E>)
      modifies this`buf
      ensures buf == Trim(batch + old(buf), maxBuffered)
    {
      buf := batch + buf;
      if |buf| > maxBuffered {
        var drop := |buf| - maxBuffered;
        buf := buf[drop..];
      }
    }
  }

  /** The events at the given positions of a stream. */
  function EventsAt<E>(stream: seq<E>, ps: seq<nat>): seq<E>
    requires forall i | 0 <= i < |ps| :: ps[i] < |stream|
  {
    seq(|ps|, i requires 0 <= i < |ps| => stream[ps[i]])
  }

  /** Trimming looks at positions only, so the exporter's buffer is the protocol's, event for event. */
  lemma TrimEvents<E>(stream: seq<E>, ps: seq<nat>, maxBuffered: nat)
    requires forall i | 0 <= i < |ps| :: ps[i] < |stream|
    ensures forall i | 0 <= i < |Trim(ps, maxBuffered)| :: Trim(ps, maxBuffered)[i] < |stream|
    ensures Trim(EventsAt(stream, ps), maxBuffered) == EventsAt(stream, Trim(ps, maxBuffered))
  {
    var trimmed := Trim(ps, maxBuffered);
    assert forall i | 0 <= i < |trimmed| :: trimmed[i] == ps[|ps| - |trimmed| + i];
  }

  // ---- the protocol, with events named by their position in the stream ----

  datatype State = State(count: nat, buf: seq<nat>, pending: Option<seq<nat>>, sent: seq<seq<nat>>)

  const EMPTY := State(0, [], None, [])

  datatype Action = Enqueue | BeginFlush | PostSucceeds | PostFails

  /** One step; there is one flusher, so a flush begins only when none is in the air. */
  function Step(s: State, a: Action, maxBuffered: nat): State {
    match a
    case Enqueue => s.(count := s.count + 1, buf := Trim(s.buf + [s.count], maxBuffered))
    case BeginFlush =>
      if s.pending.Some? || s.buf == [] then s else s.(pending := Some(s.buf), buf := [])
    case PostSucceeds =>
      if s.pending.None? then s else s.(pending := None, sent := s.sent + [s.pending.value])
    case PostFails =>
      if s.pending.None? then s else s.(pending := None, buf := Trim(s.pending.value + s.buf, maxBuffered))
  }

  function Run(actions: seq<Action>, maxBuffered: nat): State
    decreases |actions|
  {
    if actions == [] then EMPTY
    else Step(Run(actions[..|actions| - 1], maxBuffered), actions[|actions| - 1], maxBuffered)
  }

  /** Consecutive positions that start at lo. */
  predicate Consecutive(ps: seq<nat>, lo: int) { forall i | 0 <= i < |ps| :: ps[i] == lo + i }

  /** Where the buffered events start. */
  function Lo(s: State): int { s.count - |s.buf| }

  /** Where the events that are still to be sent start. */
  function Front(s: State): int {
    if s.pending.Some? && s.pending.value != [] then s.pending.value[0] else Lo(s)
  }

  /** The batches sent are nonempty runs of positions, in increasing order, all before bound. */
  predicate SentInOrder(sent: seq<seq<nat>>, bound: int) {
    && (forall i | 0 <= i < |sent| ::
          sent[i] != [] && Consecutive(sent[i], sent[i][0]) && sent[i][0] + |sent[i]| <= bound)
    && (forall i, j | 0 <= i < j < |sent| :: sent[i] != [] && sent[j] != [] ==> sent[i][0] + |sent[i]| <= sent[j][0])
  }

  /** Whether position p has been sent, is being sent, or waits in the buffer. */
  predicate Kept(s: State, p: nat) {
    || p in s.buf
    || (s.pending.Some? && p in s.pending.value)
    || exists i | 0 <= i < |s.sent| :: p in s.sent[i]
  }

  predicate BufferOk(s: State, maxBuffered: nat) {
    && |s.buf| <= maxBuffered && |s.buf| <= s.count && Consecutive(s.buf, Lo(s))
  }

  /** The batch in the air comes before the buffer, right before it unless the buffer is full. */
  predicate PendingOk(s: State, maxBuffered: nat) {
    s.pending.Some? ==>
      var b := s.pending.value;
      && b != [] && Consecutive(b, b[0])
      && b[0] + |b| <= Lo(s) && (b[0] + |b| < Lo(s) ==> |s.buf| == maxBuffered)
  }

  /** An event is gone only when at least maxBuffered newer ones have been enqueued. */
  predicate LossOk(s: State, maxBuffered: nat) {
    forall p: nat | p < s.count && !Kept(s, p) :: s.count - (p + 1) >= maxBuffered
  }

  predicate Inv(s: State, maxBuffered: nat) {
    BufferOk(s, maxBuffered) && PendingOk(s, maxBuffered) && SentInOrder(s.sent, Front(s)) && LossOk(s, maxBuffered)
  }

  lemma InRun(ps: seq<nat>, lo: int, p: nat)
    requires Consecutive(ps, lo)
    ensures p in ps <==> lo <= p < lo + |ps|
  {
    if lo <= p < lo + |ps| { assert ps[p - lo] == p; }
  }

  lemma EnqueueKeepsInv(s: State, maxBuffered: nat)
    requires Inv(s, maxBuffered) && maxBuffered > 0
    ensures Inv(Step(s, Enqueue, maxBuffered), maxBuffered)
  {
    hide Trim;
    var t := Step(s, Enqueue, maxBuffered);
    var appended := s.buf + [s.count];
    assert Consecutive(appended, Lo(s));
    assert t.buf == appended[|appended| - |t.buf|..];
    forall p: nat | p < t.count && !Kept(t, p) ensures t.count - (p + 1) >= maxBuffered {
      InRun(t.buf, Lo(t), p);
      InRun(s.buf, Lo(s), p);
      if Kept(s, p) {
        assert p in s.buf;
      } else {
        assert p != s.count;
      }
    }
  }

  lemma BeginKeepsInv(s: State, maxBuffered: nat)
    requires Inv(s, maxBuffered)
    ensures Inv(Step(s, BeginFlush, maxBuffered), maxBuffered)
  {
    var t := Step(s, BeginFlush, maxBuffered);
    assert forall p: nat :: Kept(s, p) ==> Kept(t, p);
  }

  lemma SuccessKeepsInv(s: State, maxBuffered: nat)
    requires Inv(s, maxBuffered)
    ensures Inv(Step(s, PostSucceeds, maxBuffered), maxBuffered)
  {
    var t := Step(s, PostSucceeds, maxBuffered);
    forall p: nat | Kept(s, p) ensures Kept(t, p) {
      if s.pending.Some? {
        assert t.sent[|s.sent|] == s.pending.value;
        assert forall i | 0 <= i < |s.sent| :: t.sent[i] == s.sent[i];
      }
    }
  }

  lemma FailureKeepsInv(s: State, maxBuffered: nat)
    requires Inv(s, maxBuffered) && s.pending.Some?
    ensures Inv(Step(s, PostFails, maxBuffered), maxBuffered)
  {
    hide Trim;
    var t := Step(s, PostFails, maxBuffered);
    var b := s.pending.value;
    var joined := b + s.buf;
    assert t.buf == joined[|joined| - |t.buf|..];
    if b[0] + |b| == Lo(s) {
      assert Consecutive(joined, b[0]);
    } else {
      assert t.buf == s.buf;
    }
    assert Consecutive(t.buf, Lo(t));
    FailureLoses(s, maxBuffered);
  }

  /** A failed post drops nothing while the joined buffer fits, and otherwise leaves it full. */
  lemma FailureLoses(s: State, maxBuffered: nat)
    requires s.pending.Some? && LossOk(s, maxBuffered)
    requires var t := Step(s, PostFails, maxBuffered); Consecutive(t.buf, Lo(t))
    ensures LossOk(Step(s, PostFails, maxBuffered), maxBuffered)
  {
    hide Trim, Consecutive;
    var t := Step(s, PostFails, maxBuffered);
    var joined := s.pending.value + s.buf;
    assert t.buf == joined[|joined| - |t.buf|..];
    forall p: nat | p < t.count && !Kept(t, p) ensures t.count - (p + 1) >= maxBuffered {
      InRun(t.buf, Lo(t), p);
      if |t.buf| < maxBuffered {
        assert t.buf == joined;
        assert p in s.pending.value || p in s.buf ==> p in joined;
        assert !Kept(s, p);
      }
    }
  }

  lemma StepKeepsInv(s: State, a: Action, maxBuffered: nat)
    requires Inv(s, maxBuffered) && maxBuffered > 0
    ensures Inv(Step(s, a, maxBuffered), maxBuffered)
  {
    hide Inv;
    match a
    case Enqueue => EnqueueKeepsInv(s, maxBuffered);
    case BeginFlush => BeginKeepsInv(s, maxBuffered);
    case PostSucceeds => SuccessKeepsInv(s, maxBuffered);
    case PostFails => if s.pending.Some? { FailureKeepsInv(s, maxBuffered); }
  }

  /**
   * Over any interleaving the buffer is the newest stretch of the stream and within its cap, the
   * batches sent are disjoint stretches in increasing order, and an event is lost only when at
   * least maxBuffered newer ones exist.
   */
  lemma {:induction false} RunKeepsInv(actions: seq<Action>, maxBuffered: nat)
    requires maxBuffered > 0
    ensures Inv(Run(actions, maxBuffered), maxBuffered)
    decreases |actions|
  {
    hide Step;
    if actions != [] {
      RunKeepsInv(actions[..|actions| - 1], maxBuffered);
      StepKeepsInv(Run(actions[..|actions| - 1], maxBuffered), actions[|actions| - 1], maxBuffered);
    }
  }

  /** No event is sent twice. */
  lemma SentOnce(actions: seq<Action>, maxBuffered: nat, i: nat, j: nat, p: nat)
    requires maxBuffered > 0
    ensures var sent := Run(actions, maxBuffered).sent;
            i < j < |sent| && p in sent[i] ==> p !in sent[j] && p !in Run(actions, maxBuffered).buf
  {
    hide Run;
    RunKeepsInv(actions, maxBuffered);
    var s := Run(actions, maxBuffered);
    if i < j < |s.sent| {
      InRun(s.sent[i], s.sent[i][0], p);
      InRun(s.sent[j], s.sent[j][0], p);
      InRun(s.buf, Lo(s), p);
    }
  }
}
