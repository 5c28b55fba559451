/** internal/service/worker/worker.go: the queue worker. Run repeats processNext, waiting
    with an exponential backoff after an error; processNext pops one job, decodes it and
    hands it to processJob, which translates it and reports the result to the callback.
    Redis, JSON decoding, the translator and the callback client are replaced by their
    outcomes; time is whole seconds. */
module Worker {
  import opened GoText
  import JobTypes

  // ---------------------------------------------------------------- backoff

  const InitialBackoff: nat := 1
  const MaxBackoff: nat := 30
  const BackoffFactor: nat := 2

  /** The backoff after one more error: doubled, but never above the cap. */
  function Grow(backoff: nat): (r: nat)
    ensures 1 <= backoff <= MaxBackoff ==> 1 <= r <= MaxBackoff
    ensures BackoffFactor * backoff < MaxBackoff ==> r == BackoffFactor * backoff
    ensures BackoffFactor * backoff >= MaxBackoff ==> r == MaxBackoff
  {
    if backoff * BackoffFactor < MaxBackoff then backoff * BackoffFactor else MaxBackoff
  }

  function Pow2(k: nat): (r: nat)
    ensures r >= 1
  {
    if k == 0 then 1 else 2 * Pow2(k - 1)
  }

  /** The wait before the retry that follows k errors in a row: 1, 2, 4, 8, 16, then 30
      for good. */
  function BackoffAfter(k: nat): (r: nat)
    ensures 1 <= r <= MaxBackoff
  {
    if k < 5 then (PowSmall(k); Pow2(k)) else MaxBackoff
  }

  /** One more error moves the backoff one step along the sequence. */
  lemma GrowStep(k: nat)
    ensures Grow(BackoffAfter(k)) == BackoffAfter(k + 1)
  {
    if k < 4 {
      assert Pow2(k + 1) == 2 * Pow2(k);
      PowSmall(k);
    } else if k == 4 {
      PowSmall(4);
    }
  }

  lemma {:induction false} PowSmall(k: nat)
    requires k < 5
    ensures Pow2(k) == [1, 2, 4, 8, 16][k]
  {
    if k > 0 {
      PowSmall(k - 1);
    }
  }

  // ---------------------------------------------------------------- Run

  /** The error processNext returns: the context's cancellation, or any other failure. */
  datatype ProcessError = ContextCanceled | Failed(cause: string)

  /** One pass of Run's loop: the context was already done, or processNext returned (nil or
      an error); after an error, whether the context ended during the wait. */
  datatype Iteration =
    | ContextDone
    | Processed(err: Option<ProcessError>, doneDuringWait: bool)

  /** How Run ended: the context's own error, or the cancellation error processNext returned. */
  datatype Exit = ContextErr | CanceledErr

  /** The waits Run starts, in order, and how it ended (None: the given passes ran out first). */
  datatype RunTrace = RunTrace(waits: seq<nat>, exit: Option<Exit>)

  /** What Run does over the given passes with the given current backoff. */
  function RunFrom(steps: seq<Iteration>, backoff: nat): (t: RunTrace)
    ensures |t.waits| <= |steps|
    decreases |steps|
  {
    if steps == [] then RunTrace([], None)
    else
      match steps[0]
      case ContextDone => RunTrace([], Some(ContextErr))
      case Processed(err, doneDuringWait) =>
        if err.None? then RunFrom(steps[1..], InitialBackoff)
        else if err.value.ContextCanceled? then RunTrace([], Some(CanceledErr))
        else if doneDuringWait then RunTrace([backoff], Some(ContextErr))
        else
          var rest := RunFrom(steps[1..], Grow(backoff));
          RunTrace([backoff] + rest.waits, rest.exit)
  }

  /** Run: starting from the initial backoff, pass after pass. */
  method Run(steps: seq<Iteration>) returns (waits: seq<nat>, exit: Option<Exit>)
    ensures RunTrace(waits, exit) == RunFrom(steps, InitialBackoff)
    ensures forall i :: 0 <= i < |waits| ==> 1 <= waits[i] <= MaxBackoff
  {
    var backoff := InitialBackoff;
    waits := [];
    var i := 0;
    while i < |steps|
      invariant 0 <= i <= |steps|
      invariant 1 <= backoff <= MaxBackoff
      invariant forall j :: 0 <= j < |waits| ==> 1 <= waits[j] <= MaxBackoff
      invariant RunFrom(steps, InitialBackoff)
                == RunTrace(waits + RunFrom(steps[i..], backoff).waits, RunFrom(steps[i..], backoff).exit)
    {
      var step := steps[i];
      ghost var here := steps[i..];
      assert here[0] == step && here[1..] == steps[i + 1..];
      match step
      case ContextDone =>
        assert RunFrom(here, backoff) == RunTrace([], Some(ContextErr));
        assert waits + [] == waits;
        return waits, Some(ContextErr);
      case Processed(err, doneDuringWait) =>
        if err.None? {
          assert RunFrom(here, backoff) == RunFrom(steps[i + 1..], InitialBackoff);
          backoff := InitialBackoff;
        } else if err.value.ContextCanceled? {
          assert RunFrom(here, backoff) == RunTrace([], Some(CanceledErr));
          assert waits + [] == waits;
          return waits, Some(CanceledErr);
        } else if doneDuringWait {
          assert RunFrom(here, backoff) == RunTrace([backoff], Some(ContextErr));
          return waits + [backoff], Some(ContextErr);
        } else {
          ghost var rest := RunFrom(steps[i + 1..], Grow(backoff));
          assert RunFrom(here, backoff) == RunTrace([backoff] + rest.waits, rest.exit);
          assert waits + ([backoff] + rest.waits) == (waits + [backoff]) + rest.waits;
          waits := waits + [backoff];
          backoff := Grow(backoff);
        }
      i := i + 1;
    }
    assert steps[i..] == [];
    assert waits + [] == waits;
    exit := None;
  }

  /** A nil result resets the backoff: what follows runs as from the start. */
  lemma NilResets(rest: seq<Iteration>, backoff: nat, doneDuringWait: bool)
    ensures RunFrom([Processed(None, doneDuringWait)] + rest, backoff) == RunFrom(rest, InitialBackoff)
  {
    assert ([Processed(None, doneDuringWait)] + rest)[1..] == rest;
  }

  /** Every wait lasts between 1 and 30 seconds. */
  lemma {:induction false} WaitsBounded(steps: seq<Iteration>, backoff: nat)
    requires 1 <= backoff <= MaxBackoff
    ensures forall i :: 0 <= i < |RunFrom(steps, backoff).waits| ==> 1 <= RunFrom(steps, backoff).waits[i] <= MaxBackoff
    decreases |steps|
  {
    if steps != [] && steps[0].Processed? {
      if steps[0].err.None? {
        WaitsBounded(steps[1..], InitialBackoff);
      } else if !steps[0].err.value.ContextCanceled? && !steps[0].doneDuringWait {
        WaitsBounded(steps[1..], Grow(backoff));
      }
    }
  }

  /** A pass after which Run returns: the context was done, processNext reported the
      cancellation, or the context ended during the wait. */
  predicate Ends(step: Iteration) {
    step.ContextDone? || (step.err.Some? && (step.err.value.ContextCanceled? || step.doneDuringWait))
  }

  /** Run keeps going exactly as long as no pass ends it. */
  lemma {:induction false} EndsOnlyThroughContext(steps: seq<Iteration>, backoff: nat)
    ensures RunFrom(steps, backoff).exit.None? <==> forall i :: 0 <= i < |steps| ==> !Ends(steps[i])
    decreases |steps|
  {
    if steps != [] && !Ends(steps[0]) {
      EndsOnlyThroughContext(steps[1..], if steps[0].err.None? then InitialBackoff else Grow(backoff));
      forall i | 1 <= i < |steps| ensures steps[i] == steps[1..][i - 1] {
      }
    }
  }

  /** The first pass that ends Run decides the error: the cancellation error exactly when
      processNext reported the cancellation there, the context's error otherwise. */
  predicate CanceledFirst(steps: seq<Iteration>) {
    exists i :: 0 <= i < |steps| && Ends(steps[i]) && steps[i].Processed? && steps[i].err.value.ContextCanceled?
                && forall j :: 0 <= j < i ==> !Ends(steps[j])
  }

  lemma {:induction false} CanceledOnlyWhenReported(steps: seq<Iteration>, backoff: nat)
    ensures RunFrom(steps, backoff).exit == Some(CanceledErr) <==> CanceledFirst(steps)
    decreases |steps|
  {
    if steps != [] && !Ends(steps[0]) {
      CanceledOnlyWhenReported(steps[1..], if steps[0].err.None? then InitialBackoff else Grow(backoff));
      if CanceledFirst(steps[1..]) {
        var i :| 0 <= i < |steps[1..]| && Ends(steps[1..][i]) && steps[1..][i].Processed? && steps[1..][i].err.value.ContextCanceled?
                 && forall j :: 0 <= j < i ==> !Ends(steps[1..][j]);
        forall j | 0 <= j < i + 1 ensures !Ends(steps[j]) {
          if j > 0 {
            assert steps[j] == steps[1..][j - 1];
          }
        }
        assert steps[i + 1] == steps[1..][i];
      }
      if CanceledFirst(steps) {
        var i :| 0 <= i < |steps| && Ends(steps[i]) && steps[i].Processed? && steps[i].err.value.ContextCanceled?
                 && forall j :: 0 <= j < i ==> !Ends(steps[j]);
        forall j | 0 <= j < i - 1 ensures !Ends(steps[1..][j]) {
          assert steps[1..][j] == steps[j + 1];
        }
        assert steps[1..][i - 1] == steps[i];
      }
    } else if steps != [] {
      assert Ends(steps[0]);
      if steps[0].Processed? && steps[0].err.value.ContextCanceled? {
        assert CanceledFirst(steps);
      } else {
        forall i | 0 <= i < |steps| && Ends(steps[i]) && steps[i].Processed? && steps[i].err.value.ContextCanceled?
          ensures exists j :: 0 <= j < i && Ends(steps[j])
        {
          assert i != 0 && Ends(steps[0]);
        }
      }
    }
  }

  /** An uninterrupted run of failures. */
  predicate AllFailures(steps: seq<Iteration>) {
    forall i :: 0 <= i < |steps| ==> steps[i].Processed? && steps[i].err.Some? && steps[i].err.value.Failed?
                                     && !steps[i].doneDuringWait
  }

  /** After k errors in a row, a run of failures waits 1, 2, 4, 8, 16, 30, 30, ... seconds,
      continuing the sequence. */
  lemma {:induction false} FailureStreak(steps: seq<Iteration>, k: nat)
    requires AllFailures(steps)
    ensures |RunFrom(steps, BackoffAfter(k)).waits| == |steps|
    ensures forall i :: 0 <= i < |steps| ==> RunFrom(steps, BackoffAfter(k)).waits[i] == BackoffAfter(k + i)
    ensures RunFrom(steps, BackoffAfter(k)).exit == None
    decreases |steps|
  {
    if steps != [] {
      var rest := RunFrom(steps[1..], Grow(BackoffAfter(k)));
      GrowStep(k);
      assert AllFailures(steps[1..]) by {
        forall i | 0 <= i < |steps[1..]| ensures steps[1..][i] == steps[i + 1] {
        }
      }
      FailureStreak(steps[1..], k + 1);
      var w := RunFrom(steps, BackoffAfter(k)).waits;
      assert w == [BackoffAfter(k)] + rest.waits;
      forall i | 0 <= i < |steps| ensures w[i] == BackoffAfter(k + i) {
        if i > 0 {
          assert w[i] == rest.waits[i - 1];
        }
      }
    }
  }

  // ---------------------------------------------------------------- processNext

  /** What BRPop returned: an error (redis.Nil on a timeout, or another failure), or the
      key/value pair it popped. */
  datatype Dequeue =
    | DequeueFailed(isNil: bool, cause: string)
    | Dequeued(result: seq<string>)

  /** The callback's body: the translated file, the original subtitle and the video. */
  datatype Payload = Payload(chsSubtitlePath: string, engSubtitlePath: string, videoPath: string)

  /** What handling one job did: the callback it sent, if any, and the error it returned. */
  datatype JobOutcome = JobOutcome(sent: Option<Payload>, err: Option<string>)

  /** processJob: translate; only on success send the callback; report the first error. */
  function ProcessJob(msg: JobTypes.JobMessage, translated: Result<string, string>, callbackErr: Option<string>)
    : (r: JobOutcome)
    ensures r.sent.Some? <==> translated.Ok?
    ensures r.sent.Some? ==> r.sent.value == Payload(translated.value, msg.path, msg.videoPath)
    ensures r.err.None? <==> translated.Ok? && callbackErr.None?
  {
    match translated
    case Err(e) => JobOutcome(None, Some(e))
    case Ok(chsPath) =>
      var payload := Payload(chsPath, msg.path, msg.videoPath);
      match callbackErr
      case Some(e) => JobOutcome(Some(payload), Some(e))
      case None => JobOutcome(Some(payload), None)
  }

  /** What one processNext call did: the callback sent, if any, and the error returned. */
  datatype StepOutcome = StepOutcome(sent: Option<Payload>, err: Option<string>)

  /** processNext: a dequeue error other than redis.Nil is returned; a short reply, a message
      that does not decode and a failed job are all dropped with a nil result. */
  function ProcessNext(dq: Dequeue, decode: string -> Option<JobTypes.JobMessage>,
                       translate: JobTypes.JobMessage -> Result<string, string>, callbackErr: Option<string>)
    : (r: StepOutcome)
    ensures r.err.Some? <==> dq.DequeueFailed? && !dq.isNil
    ensures r.err.Some? ==> r.err.value == dq.cause
    ensures r.sent.Some? <==> dq.Dequeued? && |dq.result| >= 2 && decode(dq.result[1]).Some?
                              && translate(decode(dq.result[1]).value).Ok?
    ensures r.sent.Some? ==> var msg := decode(dq.result[1]).value;
                             r.sent.value == Payload(translate(msg).value, msg.path, msg.videoPath)
  {
    match dq
    case DequeueFailed(isNil, cause) => if isNil then StepOutcome(None, None) else StepOutcome(None, Some(cause))
    case Dequeued(result) =>
      if |result| < 2 then StepOutcome(None, None)
      else
        match decode(result[1])
        case None => StepOutcome(None, None)
        case Some(msg) =>
          var job := ProcessJob(msg, translate(msg), callbackErr);
          StepOutcome(job.sent, None)
  }
}
