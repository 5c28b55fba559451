/** internal/service/modelselection/selector.go: the model selector. It keeps the selected
    model, the last model known to be good and the time of the last successful evaluation,
    notifies registered listeners when the selection changes, and decides each hour whether
    the daily evaluation is due. The catalogue request and the evaluator's reply are
    parameters; time is whole seconds plus the local hour of day; the lock is left out
    because every access is sequential here. */
module Selector {
  import opened GoText
  import OpenRouterClient
  import Evaluator

  datatype SelectorConfig = SelectorConfig(
    openRouterApiKey: string,
    evaluatorApiKey: string,
    evaluatorModel: string,
    fallbackModel: string,
    scheduleHour: int)

  datatype ConfigError = OpenRouterKeyRequired | EvaluatorKeyRequired | FallbackModelRequired

  /** The hour of day the daily evaluation runs at: an hour outside 0..23 becomes 3. */
  function ScheduleHourOrDefault(hour: int): (r: int)
    ensures 0 <= r <= 23
    ensures 0 <= hour <= 23 ==> r == hour
    ensures !(0 <= hour <= 23) ==> r == 3
  {
    if hour < 0 || hour > 23 then 3 else hour
  }

  /** The evaluator's model: "gemini-3-flash-preview" when none is configured. */
  function EvaluatorModelOrDefault(model: string): (r: string)
    ensures r != ""
    ensures model != "" ==> r == model
  {
    if model == "" then "gemini-3-flash-preview" else model
  }

  /** The checks of NewSelector, in order: the OpenRouter key, the evaluator key, the
      fallback model. On success, the configuration with its schedule hour defaulted. */
  function CheckConfig(cfg: SelectorConfig): (r: Result<SelectorConfig, ConfigError>)
    ensures r.Ok? <==> cfg.openRouterApiKey != "" && cfg.evaluatorApiKey != "" && cfg.fallbackModel != ""
    ensures cfg.openRouterApiKey == "" ==> r == Err(OpenRouterKeyRequired)
    ensures cfg.openRouterApiKey != "" && cfg.evaluatorApiKey == "" ==> r == Err(EvaluatorKeyRequired)
    ensures cfg.openRouterApiKey != "" && cfg.evaluatorApiKey != "" && cfg.fallbackModel == "" ==> r == Err(FallbackModelRequired)
    ensures r.Ok? ==> r.value == cfg.(scheduleHour := ScheduleHourOrDefault(cfg.scheduleHour))
  {
    if cfg.openRouterApiKey == "" then Err(OpenRouterKeyRequired)
    else if cfg.evaluatorApiKey == "" then Err(EvaluatorKeyRequired)
    else if cfg.fallbackModel == "" then Err(FallbackModelRequired)
    else Ok(cfg.(scheduleHour := ScheduleHourOrDefault(cfg.scheduleHour)))
  }

  /** A registered ModelUpdateCallback, by its registration identity. */
  type CallbackId = nat

  /** One call of a callback with the newly selected model. */
  datatype Notification = Notification(callback: CallbackId, model: string)

  /** Why an evaluation failed. */
  datatype EvalError =
    | FetchModels(fetchError: OpenRouterClient.FetchError)
    | NoFreeModels
    | SelectModel(selectError: Evaluator.EvalError)

  /** The result of one evaluation: the catalogue is fetched and filtered to its free
      models, an empty list is an error, and the evaluator picks among the free models. */
  function EvalOutcome(catalog: OpenRouterClient.Response, reply: Result<string, Evaluator.GeminiError>): (r: Result<string, EvalError>)
    ensures r.Ok? ==> catalog.HttpResponse? && r.value in Evaluator.Ids(OpenRouterClient.FreeModels(catalog.data))
    ensures OpenRouterClient.FetchOutcome(catalog).Err? ==> r == Err(FetchModels(OpenRouterClient.FetchOutcome(catalog).error))
    ensures OpenRouterClient.FetchOutcome(catalog) == Ok([]) ==> r == Err(NoFreeModels)
    ensures OpenRouterClient.FetchOutcome(catalog).Ok? && OpenRouterClient.FetchOutcome(catalog).value != [] ==>
              var pick := Evaluator.BestMatch(OpenRouterClient.FetchOutcome(catalog).value, reply);
              r == (if pick.Ok? then Ok(pick.value) else Err(SelectModel(pick.error)))
  {
    match OpenRouterClient.FetchOutcome(catalog)
    case Err(e) => Err(FetchModels(e))
    case Ok(models) =>
      if models == [] then Err(NoFreeModels)
      else
        match Evaluator.BestMatch(models, reply)
        case Err(e) => Err(SelectModel(e))
        case Ok(id) => Ok(id)
  }

  /** A successful evaluation selects the id of a free model of the catalogue. */
  lemma EvalSelectsFreeModel(catalog: OpenRouterClient.Response, reply: Result<string, Evaluator.GeminiError>)
    requires EvalOutcome(catalog, reply).Ok?
    ensures exists m :: m in catalog.data && OpenRouterClient.IsFreeModel(m) && m.id == EvalOutcome(catalog, reply).value
  {
    var free := OpenRouterClient.FreeModels(catalog.data);
    var id := EvalOutcome(catalog, reply).value;
    var k :| 0 <= k < |free| && Evaluator.Ids(free)[k] == id;
    OpenRouterClient.FreeModelsMembership(catalog.data, free[k]);
  }

  /** The calls made when the selection changes: every callback, in registration order,
      with the new model. */
  function Notifications(callbacks: seq<CallbackId>, model: string): (r: seq<Notification>)
    ensures |r| == |callbacks|
    ensures forall k :: 0 <= k < |callbacks| ==> r[k] == Notification(callbacks[k], model)
  {
    seq(|callbacks|, k requires 0 <= k < |callbacks| => Notification(callbacks[k], model))
  }

  /** The loop that calls the callbacks of a snapshot one after the other. */
  method NotifyAll(callbacks: seq<CallbackId>, model: string) returns (calls: seq<Notification>)
    ensures |calls| == |callbacks|
    ensures forall k :: 0 <= k < |callbacks| ==> calls[k] == Notification(callbacks[k], model)
    ensures calls == Notifications(callbacks, model)
  {
    calls := [];
    for i := 0 to |callbacks|
      invariant |calls| == i
      invariant forall k :: 0 <= k < i ==> calls[k] == Notification(callbacks[k], model)
    {
      calls := calls + [Notification(callbacks[i], model)];
    }
  }

  /** Whether an hourly tick starts the daily evaluation: the local hour is the scheduled
      one and at least 23 hours have passed since the last successful evaluation (never
      having evaluated counts as long ago). */
  predicate Due(scheduleHour: int, lastEvalTime: Option<int>, localHour: int, now: int)
    ensures Due(scheduleHour, lastEvalTime, localHour, now) ==> localHour == scheduleHour
    ensures Due(scheduleHour, lastEvalTime, localHour, now) && lastEvalTime.Some? ==> now >= lastEvalTime.value + 23 * 3600
    ensures localHour == scheduleHour && lastEvalTime.None? ==> Due(scheduleHour, lastEvalTime, localHour, now)
  {
    localHour == scheduleHour && (lastEvalTime.None? || now - lastEvalTime.value >= 23 * 3600)
  }

  /** Within 23 hours of a successful evaluation no tick starts another. */
  lemma NotDueWithin23Hours(scheduleHour: int, t: int, localHour: int, now: int)
    requires now < t + 23 * 3600
    ensures !Due(scheduleHour, Some(t), localHour, now)
  {
  }

  /** At the scheduled hour a day later the evaluation is due again. */
  lemma DueNextDay(scheduleHour: int, t: int, now: int)
    requires now >= t + 24 * 3600
    ensures Due(scheduleHour, Some(t), scheduleHour, now)
  {
  }

  /** Outside the scheduled hour nothing is due. */
  lemma NotDueOffHour(scheduleHour: int, last: Option<int>, localHour: int, now: int)
    requires localHour != scheduleHour
    ensures !Due(scheduleHour, last, localHour, now)
  {
  }

  /** One hourly tick of the scheduler: the local hour and time of the tick, the time the
      evaluation would finish and record (evaluate reads the clock again after the catalogue
      request and the evaluator have answered), and what those two would answer if an
      evaluation ran. */
  datatype Tick = Tick(localHour: int, now: int, doneAt: int, catalog: OpenRouterClient.Response,
                       reply: Result<string, Evaluator.GeminiError>)

  /** Ticks handled one after the other, as the single scheduler goroutine does: each
      evaluation finishes no earlier than its tick, and before the next tick is handled. */
  predicate Sequential(ticks: seq<Tick>) {
    (forall k :: 0 <= k < |ticks| ==> ticks[k].now <= ticks[k].doneAt)
    && (forall a, b :: 0 <= a < b < |ticks| ==> ticks[a].doneAt <= ticks[b].now)
  }

  /** The part of the selector that evaluations change. */
  datatype SelState = SelState(selected: string, lastKnown: string, lastEvalTime: Option<int>)

  /** What one tick does: the new state, whether an evaluation ran, and the calls made. */
  datatype TickOutcome = TickOutcome(state: SelState, evaluated: bool, calls: seq<Notification>)

  /** One evaluation: a failure changes nothing and calls nothing; a success selects the
      chosen model, records it as last known with the time it finished, and calls every
      callback when the previous selection was set and different. */
  function EvalStep(st: SelState, callbacks: seq<CallbackId>, catalog: OpenRouterClient.Response,
                    reply: Result<string, Evaluator.GeminiError>, doneAt: int): TickOutcome
  {
    match EvalOutcome(catalog, reply)
    case Err(_) => TickOutcome(st, true, [])
    case Ok(id) =>
      TickOutcome(SelState(id, id, Some(doneAt)), true,
                  if st.selected != "" && st.selected != id then Notifications(callbacks, id) else [])
  }

  /** One hourly tick: the evaluation runs only when it is due. */
  function TickStep(hour: int, callbacks: seq<CallbackId>, st: SelState, t: Tick): TickOutcome {
    if Due(hour, st.lastEvalTime, t.localHour, t.now) then EvalStep(st, callbacks, t.catalog, t.reply, t.doneAt)
    else TickOutcome(st, false, [])
  }

  /** What a run of ticks does: the final state, the indices of the ticks that evaluated,
      and every call made, in order. */
  datatype ScheduleTrace = ScheduleTrace(state: SelState, ran: seq<nat>, calls: seq<Notification>)

  function Schedule(hour: int, callbacks: seq<CallbackId>, st: SelState, ticks: seq<Tick>): ScheduleTrace
    decreases |ticks|
  {
    if ticks == [] then ScheduleTrace(st, [], [])
    else
      var prev := Schedule(hour, callbacks, st, ticks[..|ticks| - 1]);
      var step := TickStep(hour, callbacks, prev.state, ticks[|ticks| - 1]);
      ScheduleTrace(step.state, prev.ran + (if step.evaluated then [|ticks| - 1] else []), prev.calls + step.calls)
  }

  /** One more tick extends the run by that tick's step. */
  lemma ScheduleStep(hour: int, callbacks: seq<CallbackId>, st: SelState, ticks: seq<Tick>, i: nat)
    requires i < |ticks|
    ensures var prev := Schedule(hour, callbacks, st, ticks[..i]);
            var step := TickStep(hour, callbacks, prev.state, ticks[i]);
            Schedule(hour, callbacks, st, ticks[..i + 1])
              == ScheduleTrace(step.state, prev.ran + (if step.evaluated then [i] else []), prev.calls + step.calls)
  {
    assert ticks[..i + 1][..i] == ticks[..i];
  }

  /** Indices below n, in increasing order. */
  predicate IncreasingBelow(ran: seq<nat>, n: int) {
    (forall k :: 0 <= k < |ran| ==> ran[k] < n) && (forall k, l :: 0 <= k < l < |ran| ==> ran[k] < ran[l])
  }

  /** The ticks that evaluated are indices of the run, in increasing order. */
  lemma {:induction false} RanOrdered(hour: int, callbacks: seq<CallbackId>, st: SelState, ticks: seq<Tick>)
    ensures IncreasingBelow(Schedule(hour, callbacks, st, ticks).ran, |ticks|)
    decreases |ticks|
  {
    if ticks != [] {
      var n := |ticks| - 1;
      var front := ticks[..n];
      RanOrdered(hour, callbacks, st, front);
      var prev := Schedule(hour, callbacks, st, front);
      var step := TickStep(hour, callbacks, prev.state, ticks[n]);
      var ran := Schedule(hour, callbacks, st, ticks).ran;
      assert |front| == n && IncreasingBelow(prev.ran, n);
      assert ran == prev.ran + (if step.evaluated then [n] else []);
    }
  }

  /** Every tick that evaluated is at the scheduled hour. */
  lemma RanAtHour(hour: int, callbacks: seq<CallbackId>, st: SelState, ticks: seq<Tick>)
    ensures var ran := Schedule(hour, callbacks, st, ticks).ran;
            forall k :: 0 <= k < |ran| ==> ran[k] < |ticks| && ticks[ran[k]].localHour == hour
  {
    var ran := Schedule(hour, callbacks, st, ticks).ran;
    RanOrdered(hour, callbacks, st, ticks);
    assert IncreasingBelow(ran, |ticks|);
    forall k | 0 <= k < |ran| ensures ticks[ran[k]].localHour == hour {
      RanIffDue(hour, callbacks, st, ticks, ran[k]);
    }
  }

  /** The recorded evaluation time is the initial one or the time at which the evaluation of
      a tick that evaluated finished. */
  lemma {:induction false} EvalTimeFromRan(hour: int, callbacks: seq<CallbackId>, st: SelState, ticks: seq<Tick>)
    ensures var r := Schedule(hour, callbacks, st, ticks);
            r.state.lastEvalTime == st.lastEvalTime
            || exists k :: 0 <= k < |r.ran| && r.ran[k] < |ticks| && r.state.lastEvalTime == Some(ticks[r.ran[k]].doneAt)
    decreases |ticks|
  {
    if ticks != [] {
      var n := |ticks| - 1;
      var front := ticks[..n];
      EvalTimeFromRan(hour, callbacks, st, front);
      var prev := Schedule(hour, callbacks, st, front);
      var step := TickStep(hour, callbacks, prev.state, ticks[n]);
      var r := Schedule(hour, callbacks, st, ticks);
      assert r.ran == prev.ran + (if step.evaluated then [n] else []);
      RanOrdered(hour, callbacks, st, front);
      if step.state.lastEvalTime != prev.state.lastEvalTime {
        assert r.ran[|r.ran| - 1] == n;
      } else if prev.state.lastEvalTime != st.lastEvalTime {
        var k :| 0 <= k < |prev.ran| && prev.ran[k] < |front| && prev.state.lastEvalTime == Some(front[prev.ran[k]].doneAt);
        assert r.ran[k] == prev.ran[k];
      }
    }
  }

  /** A tick evaluates exactly when the evaluation is due in the state the earlier ticks
      left: at the scheduled hour, and at least 23 hours after the last successful one. */
  lemma {:induction false} RanIffDue(hour: int, callbacks: seq<CallbackId>, st: SelState, ticks: seq<Tick>, i: nat)
    requires i < |ticks|
    ensures i in Schedule(hour, callbacks, st, ticks).ran
            <==> Due(hour, Schedule(hour, callbacks, st, ticks[..i]).state.lastEvalTime, ticks[i].localHour, ticks[i].now)
    decreases |ticks|
  {
    var n := |ticks| - 1;
    var front := ticks[..n];
    RanOrdered(hour, callbacks, st, front);
    var prev := Schedule(hour, callbacks, st, front);
    assert |front| == n && IncreasingBelow(prev.ran, n);
    if i == n {
      assert i !in prev.ran;
    } else {
      RanIffDue(hour, callbacks, st, front, i);
      assert front[..i] == ticks[..i];
      assert front[i] == ticks[i];
    }
  }

  /** After a tick whose evaluation recorded time x, the recorded time never drops below x
      while no later evaluation finishes before x. */
  lemma {:induction false} EvalTimeKept(hour: int, callbacks: seq<CallbackId>, st: SelState, ticks: seq<Tick>,
                                        j: nat, x: int)
    requires j <= |ticks|
    requires Schedule(hour, callbacks, st, ticks[..j]).state.lastEvalTime == Some(x)
    requires forall k :: j <= k < |ticks| ==> ticks[k].doneAt >= x
    ensures Schedule(hour, callbacks, st, ticks).state.lastEvalTime.Some?
    ensures Schedule(hour, callbacks, st, ticks).state.lastEvalTime.value >= x
    decreases |ticks|
  {
    if j == |ticks| {
      assert ticks[..j] == ticks;
    } else {
      var front := ticks[..|ticks| - 1];
      assert front[..j] == ticks[..j];
      EvalTimeKept(hour, callbacks, st, front, j, x);
    }
  }

  /** With ticks handled one after the other, a tick evaluates only 23 hours or more after
      an earlier successful evaluation finished, and so after that evaluation's tick. */
  lemma EvaluationsSpaced(hour: int, callbacks: seq<CallbackId>, st: SelState, ticks: seq<Tick>, j: nat, i: nat)
    requires j < i < |ticks|
    requires Sequential(ticks)
    requires j in Schedule(hour, callbacks, st, ticks).ran && i in Schedule(hour, callbacks, st, ticks).ran
    requires EvalOutcome(ticks[j].catalog, ticks[j].reply).Ok?
    ensures ticks[i].now - ticks[j].doneAt >= 23 * 3600
    ensures ticks[i].now - ticks[j].now >= 23 * 3600
  {
    RanIffDue(hour, callbacks, st, ticks, j);
    SuccessRecordsTime(hour, callbacks, st, ticks, j);
    var before := ticks[..i];
    assert before[..j + 1] == ticks[..j + 1];
    forall k | j + 1 <= k < |before| ensures before[k].doneAt >= ticks[j].doneAt {
      assert ticks[j].doneAt <= ticks[k].now <= ticks[k].doneAt;
    }
    EvalTimeKept(hour, callbacks, st, before, j + 1, ticks[j].doneAt);
    RanIffDue(hour, callbacks, st, ticks, i);
  }

  /** A due tick whose evaluation succeeds records the time the evaluation finished, not
      the time of the tick. */
  lemma SuccessRecordsTime(hour: int, callbacks: seq<CallbackId>, st: SelState, ticks: seq<Tick>, j: nat)
    requires j < |ticks|
    requires Due(hour, Schedule(hour, callbacks, st, ticks[..j]).state.lastEvalTime, ticks[j].localHour, ticks[j].now)
    requires EvalOutcome(ticks[j].catalog, ticks[j].reply).Ok?
    ensures Schedule(hour, callbacks, st, ticks[..j + 1]).state.lastEvalTime == Some(ticks[j].doneAt)
  {
    var upto := ticks[..j + 1];
    assert upto[..j] == ticks[..j] && upto[j] == ticks[j];
  }

  /** A same-hour tick exactly 23 hours after a successful evaluation's tick, as on the day
      clocks spring forward, does not evaluate when that evaluation took any time at all:
      the 23 hours are counted from when it finished. */
  lemma SpringForwardSkipped(hour: int, callbacks: seq<CallbackId>, st: SelState, t0: Tick, t1: Tick)
    requires Due(hour, st.lastEvalTime, t0.localHour, t0.now)
    requires EvalOutcome(t0.catalog, t0.reply).Ok?
    requires t0.doneAt > t0.now && t1.localHour == hour && t1.now == t0.now + 23 * 3600
    ensures Schedule(hour, callbacks, st, [t0, t1]).ran == [0]
  {
    assert [t0, t1][..1] == [t0];
    ScheduleStep(hour, callbacks, st, [t0], 0);
    assert [t0][..0] == [] && [t0][..1] == [t0];
    var first := Schedule(hour, callbacks, st, [t0]);
    assert TickStep(hour, callbacks, st, t0).evaluated;
    assert first.state.lastEvalTime == Some(t0.doneAt) && first.ran == [0];
    assert !Due(hour, first.state.lastEvalTime, t1.localHour, t1.now);
  }

  class Selector {
    const fallbackModel: string
    const scheduleHour: int
    const evaluatorModel: string
    var selected: string
    var lastKnown: string
    var lastEvalTime: Option<int>
    var callbacks: seq<CallbackId>

    /** The selection state of the selector. */
    function State(): SelState
      reads this
    {
      SelState(selected, lastKnown, lastEvalTime)
    }

    /** The fallback model is set and the schedule hour is an hour of the day. */
    ghost predicate Valid()
      reads this
    {
      fallbackModel != "" && 0 <= scheduleHour <= 23
    }

    /** The selector NewSelector builds from a checked configuration: nothing selected,
        never evaluated, no callbacks. */
    constructor (cfg: SelectorConfig)
      requires CheckConfig(cfg).Ok?
      ensures Valid()
      ensures fallbackModel == cfg.fallbackModel && scheduleHour == ScheduleHourOrDefault(cfg.scheduleHour)
      ensures evaluatorModel == EvaluatorModelOrDefault(cfg.evaluatorModel)
      ensures selected == "" && lastKnown == "" && lastEvalTime == None && callbacks == []
    {
      fallbackModel := cfg.fallbackModel;
      scheduleHour := ScheduleHourOrDefault(cfg.scheduleHour);
      evaluatorModel := EvaluatorModelOrDefault(cfg.evaluatorModel);
      selected := "";
      lastKnown := "";
      lastEvalTime := None;
      callbacks := [];
    }

    /** GetCurrentModel: the selected model, else the last known one, else the fallback;
        never empty. */
    function CurrentModel(): (r: string)
      reads this
      requires Valid()
      ensures r != ""
      ensures selected != "" ==> r == selected
      ensures selected == "" && lastKnown != "" ==> r == lastKnown
      ensures selected == "" && lastKnown == "" ==> r == fallbackModel
    {
      if selected != "" then selected
      else if lastKnown != "" then lastKnown
      else fallbackModel
    }

    /** OnModelUpdate: the callback is appended; nothing else changes. */
    method OnModelUpdate(cb: CallbackId)
      requires Valid()
      modifies this
      ensures Valid()
      ensures callbacks == old(callbacks) + [cb]
      ensures selected == old(selected) && lastKnown == old(lastKnown) && lastEvalTime == old(lastEvalTime)
    {
      callbacks := callbacks + [cb];
    }

    /** evaluate: on success the selection, the last known model and the evaluation time are
        updated, the time being the clock when the evaluator has answered (doneAt), and the callbacks are called with the new model when the previous selection
        was set and different; on failure nothing changes and nothing is called. */
    method Evaluate(catalog: OpenRouterClient.Response, reply: Result<string, Evaluator.GeminiError>, doneAt: int)
      returns (err: Option<EvalError>, calls: seq<Notification>)
      requires Valid()
      modifies this
      ensures Valid()
      ensures callbacks == old(callbacks)
      ensures EvalOutcome(catalog, reply).Err? ==>
                err == Some(EvalOutcome(catalog, reply).error) && calls == []
                && selected == old(selected) && lastKnown == old(lastKnown) && lastEvalTime == old(lastEvalTime)
      ensures EvalOutcome(catalog, reply).Ok? ==>
                err == None && selected == EvalOutcome(catalog, reply).value && lastKnown == selected
                && lastEvalTime == Some(doneAt)
      ensures EvalOutcome(catalog, reply).Ok? ==>
                var id := EvalOutcome(catalog, reply).value;
                if old(selected) != "" && old(selected) != id then calls == Notifications(callbacks, id) else calls == []
    {
      calls := [];
      var fetched := OpenRouterClient.GetFreeModels(catalog);
      if fetched.Err? {
        return Some(FetchModels(fetched.error)), [];
      }
      var models := fetched.value;
      if |models| == 0 {
        return Some(NoFreeModels), [];
      }
      var choice := Evaluator.SelectBestModel(models, reply);
      if choice.Err? {
        return Some(SelectModel(choice.error)), [];
      }
      var id := choice.value;
      var oldModel := selected;
      selected := id;
      lastKnown := id;
      lastEvalTime := Some(doneAt);
      var snapshot := callbacks;
      if oldModel != id && oldModel != "" {
        calls := NotifyAll(snapshot, id);
      }
      err := None;
    }

    /** Start: the initial evaluation; if it fails, the fallback model becomes both the
        selected and the last known model. Start itself never fails. */
    method Start(catalog: OpenRouterClient.Response, reply: Result<string, Evaluator.GeminiError>, doneAt: int)
      returns (calls: seq<Notification>)
      requires Valid()
      modifies this
      ensures Valid()
      ensures callbacks == old(callbacks)
      ensures EvalOutcome(catalog, reply).Ok? ==>
                selected == EvalOutcome(catalog, reply).value && lastKnown == selected && lastEvalTime == Some(doneAt)
      ensures EvalOutcome(catalog, reply).Ok? ==>
                var id := EvalOutcome(catalog, reply).value;
                if old(selected) != "" && old(selected) != id then calls == Notifications(callbacks, id) else calls == []
      ensures EvalOutcome(catalog, reply).Err? ==>
                selected == fallbackModel && lastKnown == fallbackModel && lastEvalTime == old(lastEvalTime)
                && calls == []
    {
      var err;
      err, calls := Evaluate(catalog, reply, doneAt);
      if err.Some? {
        selected := fallbackModel;
        lastKnown := fallbackModel;
      }
    }

    /** One tick of runScheduler: when the evaluation is due it runs, and a failure keeps
        the current model. */
    method OnTick(t: Tick) returns (evaluated: bool, calls: seq<Notification>)
      requires Valid()
      modifies this
      ensures Valid()
      ensures callbacks == old(callbacks)
      ensures evaluated == Due(scheduleHour, old(lastEvalTime), t.localHour, t.now)
      ensures !evaluated ==> selected == old(selected) && lastKnown == old(lastKnown)
                             && lastEvalTime == old(lastEvalTime) && calls == []
      ensures evaluated && EvalOutcome(t.catalog, t.reply).Err? ==>
                selected == old(selected) && lastKnown == old(lastKnown) && lastEvalTime == old(lastEvalTime) && calls == []
      ensures evaluated && EvalOutcome(t.catalog, t.reply).Ok? ==>
                var id := EvalOutcome(t.catalog, t.reply).value;
                selected == id && lastKnown == id && lastEvalTime == Some(t.doneAt)
                && if old(selected) != "" && old(selected) != id then calls == Notifications(callbacks, id) else calls == []
      ensures TickOutcome(State(), evaluated, calls) == TickStep(scheduleHour, callbacks, old(State()), t)
    {
      evaluated := Due(scheduleHour, lastEvalTime, t.localHour, t.now);
      calls := [];
      if evaluated {
        var err;
        err, calls := Evaluate(t.catalog, t.reply, t.doneAt);
      }
    }

    /** runScheduler over a finite run of hourly ticks. Returns the indices of the ticks that
        ran an evaluation and every callback call made; together with the final state they are
        those of Schedule, so a tick evaluates exactly when it is due (RanIffDue). */
    method RunScheduler(ticks: seq<Tick>) returns (ran: seq<nat>, calls: seq<Notification>)
      requires Valid()
      modifies this
      ensures Valid()
      ensures callbacks == old(callbacks)
      ensures forall k :: 0 <= k < |ran| ==> ran[k] < |ticks| && ticks[ran[k]].localHour == scheduleHour
      ensures forall k, l :: 0 <= k < l < |ran| ==> ran[k] < ran[l]
      ensures lastEvalTime == old(lastEvalTime) || exists k :: 0 <= k < |ran| && lastEvalTime == Some(ticks[ran[k]].doneAt)
      ensures ScheduleTrace(State(), ran, calls) == Schedule(scheduleHour, callbacks, old(State()), ticks)
    {
      ghost var start := State();
      ran, calls := [], [];
      for i := 0 to |ticks|
        invariant Valid()
        invariant callbacks == old(callbacks)
        invariant ScheduleTrace(State(), ran, calls) == Schedule(scheduleHour, callbacks, start, ticks[..i])
      {
        ScheduleStep(scheduleHour, callbacks, start, ticks, i);
        var evaluated, more := OnTick(ticks[i]);
        if evaluated {
          ran := ran + [i];
        }
        calls := calls + more;
      }
      assert ticks[..|ticks|] == ticks;
      RanOrdered(scheduleHour, callbacks, start, ticks);
      RanAtHour(scheduleHour, callbacks, start, ticks);
      EvalTimeFromRan(scheduleHour, callbacks, start, ticks);
    }
  }

  /** NewSelector: the configuration is checked in order; on success a fresh selector. */
  method NewSelector(cfg: SelectorConfig) returns (r: Result<Selector, ConfigError>)
    ensures CheckConfig(cfg).Err? ==> r == Err(CheckConfig(cfg).error)
    ensures CheckConfig(cfg).Ok? ==>
              r.Ok? && fresh(r.value) && r.value.Valid()
              && r.value.fallbackModel == cfg.fallbackModel
              && r.value.scheduleHour == ScheduleHourOrDefault(cfg.scheduleHour)
              && r.value.evaluatorModel == EvaluatorModelOrDefault(cfg.evaluatorModel)
              && r.value.selected == "" && r.value.lastKnown == "" && r.value.lastEvalTime == None
              && r.value.callbacks == []
  {
    var checked := CheckConfig(cfg);
    if checked.Err? {
      return Err(checked.error);
    }
    var s := new Selector(cfg);
    return Ok(s);
  }

  /** Registers the callbacks one after the other, in order. */
  method RegisterAll(s: Selector, cbs: seq<CallbackId>)
    requires s.Valid()
    modifies s
    ensures s.Valid() && s.callbacks == old(s.callbacks) + cbs
    ensures s.selected == old(s.selected) && s.lastKnown == old(s.lastKnown) && s.lastEvalTime == old(s.lastEvalTime)
  {
    for i := 0 to |cbs|
      invariant s.Valid() && s.callbacks == old(s.callbacks) + cbs[..i]
      invariant s.selected == old(s.selected) && s.lastKnown == old(s.lastKnown) && s.lastEvalTime == old(s.lastEvalTime)
    {
      s.OnModelUpdate(cbs[i]);
      assert cbs[..i + 1] == cbs[..i] + [cbs[i]];
    }
    assert cbs[..|cbs|] == cbs;
  }

  /** A failed first evaluation leaves the fallback model selected, so the first later
      successful evaluation that picks another model calls every registered callback. */
  method FallbackThenChange(cfg: SelectorConfig, cbs: seq<CallbackId>,
                            badCatalog: OpenRouterClient.Response, catalog: OpenRouterClient.Response,
                            reply: Result<string, Evaluator.GeminiError>, t0: int, t1: int)
    returns (calls: seq<Notification>)
    requires CheckConfig(cfg).Ok?
    requires EvalOutcome(badCatalog, reply).Err?
    requires EvalOutcome(catalog, reply).Ok? && EvalOutcome(catalog, reply).value != cfg.fallbackModel
    ensures |calls| == |cbs|
    ensures forall k :: 0 <= k < |cbs| ==> calls[k] == Notification(cbs[k], EvalOutcome(catalog, reply).value)
  {
    var s := new Selector(cfg);
    RegisterAll(s, cbs);
    assert s.callbacks == cbs;
    var first := s.Start(badCatalog, reply, t0);
    ghost var id := EvalOutcome(catalog, reply).value;
    assert s.selected == cfg.fallbackModel != id;
    var err;
    err, calls := s.Evaluate(catalog, reply, t1);
    assert calls == Notifications(cbs, id);
  }
}
