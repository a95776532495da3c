/**
 * `SystemdClient::start`: queue a transient-unit job and wait for its JobRemoved signal, against
 * every interleaving with systemd, the bus and the timer.
 */
module JobWait {
  import opened Wrappers

  /** What the stream of JobRemoved signals yields; a garbled one has arguments that do not decode. */
  datatype Signal = Signal(job: string, unit: string, result: string) | Garbled

  datatype StartError =
    | InvalidProperties
    | CallFailed
    | BadSignal
    | JobFailed(result: string)
    | StreamClosed
    | TimedOut(unit: string, job: string)

  type Outcome = Result<(), StartError>

  function Judge(result: string): Outcome {
    if result == "done" then Ok(()) else Err(JobFailed(result))
  }

  // The wait loop over the signals the stream yields until it closes.

  predicate IsOwn(signal: Signal, job: string) {
    signal.Signal? && signal.job == job
  }

  function WaitResult(signals: seq<Signal>, job: string): Outcome {
    if signals == [] then Err(StreamClosed)
    else if signals[0].Garbled? then Err(BadSignal)
    else if signals[0].job == job then Judge(signals[0].result)
    else WaitResult(signals[1..], job)
  }

  method WaitForJob(signals: seq<Signal>, job: string) returns (r: Outcome, consumed: nat)
    ensures r == WaitResult(signals, job)
    ensures consumed <= |signals| && forall i | 0 <= i < consumed - 1 :: signals[i].Signal? && signals[i].job != job
    // The last signal taken decides, and without a deciding one all are taken.
    ensures if consumed > 0 && signals[consumed - 1].Garbled? then r == Err(BadSignal)
            else if consumed > 0 && signals[consumed - 1].job == job then
              var result := signals[consumed - 1].result;
              r == if result == "done" then Ok(()) else Err(JobFailed(result))
            else r == Err(StreamClosed) && consumed == |signals|
  {
    consumed := 0;
    while consumed < |signals|
      invariant consumed <= |signals|
      invariant forall i | 0 <= i < consumed :: signals[i].Signal? && signals[i].job != job
      invariant WaitResult(signals, job) == WaitResult(signals[consumed..], job)
    {
      var signal := signals[consumed];
      assert signals[consumed..][1..] == signals[consumed + 1..];
      consumed := consumed + 1;
      if signal.Garbled? {
        return Err(BadSignal), consumed;
      }
      if signal.job != job {
        continue;
      }
      match signal.result {
        case "done" => return Ok(()), consumed;
        case _ => return Err(JobFailed(signal.result)), consumed;
      }
    }
    r := Err(StreamClosed);
  }

  /** The signals that can decide: those of the job, and those that do not decode. */
  function Deciding(signals: seq<Signal>, job: string): seq<Signal> {
    if signals == [] then []
    else (if signals[0].Garbled? || signals[0].job == job then [signals[0]] else []) + Deciding(signals[1..], job)
  }

  lemma {:induction false} OthersNeverDecide(signals: seq<Signal>, job: string)
    ensures WaitResult(signals, job) == WaitResult(Deciding(signals, job), job)
    ensures WaitResult(signals, job) == Err(StreamClosed) <==> Deciding(signals, job) == []
  {
    if signals != [] {
      OthersNeverDecide(signals[1..], job);
      var first, rest := signals[0], Deciding(signals[1..], job);
      assert Deciding(signals, job) == if first.Garbled? || first.job == job then [first] + rest else rest;
    }
  }

  // The protocol. `ListenFirst` is the order of the source, `StartFirst` the one it avoids.

  datatype Order = ListenFirst | StartFirst

  datatype Config = Config(order: Order, unit: string, hasPids: bool)

  /** The source goes through the phases in this order; with `StartFirst`, Queued comes second. */
  datatype Phase =
    | Idle
    | Listening                  // the match rule is installed
    | Subscribed                 // systemd was told to emit signals as well
    | Queued                     // StartTransientUnit has answered with the job
    | Waiting
    | Finished(outcome: Outcome)

  /**
   * `own` is the job StartTransientUnit answered with. `inFlight` holds signals that were broadcast
   * to the client and have not reached its stream. `jobs` maps every job systemd has queued to its
   * unit, `removed` the finished ones to their result. `garbled` tells that a signal was garbled.
   */
  datatype State = State(
    phase: Phase, own: Option<string>, listening: bool, subscribed: bool, closed: bool, garbled: bool,
    jobs: map<string, string>, removed: map<string, string>,
    inFlight: seq<Signal>, stream: seq<Signal>)

  datatype Step =
    | Call(job: string)                      // the next D-Bus call of start(); `job` answers StartTransientUnit
    | FailCall                               // the next D-Bus call fails
    | Await                                  // with all calls made, the client enters the wait loop
    | OtherJob(job: string, unit: string)    // somebody else queues a job, maybe for the same unit
    | Remove(job: string, result: string)    // systemd finishes a job
    | Garble                                 // a signal is sent that does not decode
    | Arrive                                 // the bus delivers one signal
    | Receive                                // the client takes one signal from its stream
    | Close                                  // the connection is lost
    | Expire                                 // the timer wins the race

  predicate Init(s: State) {
    s.phase == Idle && s.own == None && !s.listening && !s.subscribed && !s.garbled
    && s.inFlight == [] && s.stream == [] && s.removed.Keys <= s.jobs.Keys
  }

  /** All calls are made. */
  predicate Ready(c: Config, s: State) {
    if c.order == ListenFirst then s.phase.Queued? else s.phase.Subscribed?
  }

  predicate Calling(c: Config, s: State) {
    s.phase in {Idle, Listening, Subscribed, Queued} && !Ready(c, s)
  }

  predicate Enabled(c: Config, s: State, step: Step) {
    match step
    case Call(job) => Calling(c, s) && (s.closed ==> !c.hasPids) && job !in s.jobs
    case FailCall => Calling(c, s) && c.hasPids
    case Await => Ready(c, s)
    case OtherJob(job, _) => job !in s.jobs
    case Remove(job, _) => job in s.jobs && job !in s.removed
    case Garble => true
    case Arrive => s.inFlight != [] && !s.closed
    case Receive => s.phase.Waiting? && s.own.Some? && (s.stream != [] || s.closed)
    case Close => true
    case Expire => s.phase.Waiting? && s.own.Some?
  }

  function Queue(c: Config, s: State, job: string): State {
    s.(phase := Queued, own := Some(job), jobs := s.jobs[job := c.unit])
  }

  function Proceed(c: Config, s: State, job: string): State {
    match s.phase
    case Idle =>
      if !c.hasPids then s.(phase := Finished(Err(InvalidProperties)))
      else if c.order == ListenFirst then s.(phase := Listening, listening := true)
      else Queue(c, s, job)
    case Listening => s.(phase := Subscribed, subscribed := true)
    case Subscribed => Queue(c, s, job)
    case Queued => s.(phase := Listening, listening := true)
    case _ => s
  }

  /** A JobRemoved signal goes to the client if it subscribed and the match rule names the unit. */
  function Broadcast(c: Config, s: State, signal: Signal): seq<Signal> {
    if s.listening && s.subscribed && (signal.Garbled? || signal.unit == c.unit) then s.inFlight + [signal]
    else s.inFlight
  }

  function Apply(c: Config, s: State, step: Step): State
    requires Enabled(c, s, step)
  {
    match step
    case Call(job) => Proceed(c, s, job)
    case FailCall => s.(phase := Finished(Err(CallFailed)))
    case Await => s.(phase := Waiting)
    case OtherJob(job, u) => s.(jobs := s.jobs[job := u])
    case Remove(job, result) =>
      s.(removed := s.removed[job := result], inFlight := Broadcast(c, s, Signal(job, s.jobs[job], result)))
    case Garble => s.(garbled := true, inFlight := Broadcast(c, s, Garbled))
    case Arrive => s.(inFlight := s.inFlight[1..], stream := s.stream + [s.inFlight[0]])
    case Receive =>
      if s.stream == [] then s.(phase := Finished(Err(StreamClosed)))
      else
        var signal, next := s.stream[0], s.(stream := s.stream[1..]);
        if signal.Garbled? then next.(phase := Finished(Err(BadSignal)))
        else if signal.job != s.own.value then next
        else next.(phase := Finished(Judge(signal.result)))
    case Close => s.(closed := true)
    case Expire => s.(phase := Finished(Err(TimedOut(c.unit, s.own.value))))
  }

  function Exec(c: Config, s: State, steps: seq<Step>): Option<State> {
    if steps == [] then Some(s)
    else
      match Exec(c, s, steps[..|steps| - 1])
      case None => None
      case Some(m) =>
        var step := steps[|steps| - 1];
        if Enabled(c, m, step) then Some(Apply(c, m, step)) else None
  }

  /** The signals the client has still to see, in order. */
  function Pending(s: State): seq<Signal> {
    s.stream + s.inFlight
  }

  /** The job is queued, and its result is still to be seen. */
  predicate Expecting(s: State) {
    s.phase.Queued? || s.phase.Waiting?
  }

  ghost predicate Inv(c: Config, s: State) {
    && s.removed.Keys <= s.jobs.Keys
    && (forall signal | signal in Pending(s) :: Truthful(s, signal))
    && (s.phase in {Listening, Subscribed, Queued, Waiting} ==> s.listening && c.hasPids)
    && (s.phase in {Subscribed, Queued, Waiting} ==> s.subscribed)
    && (s.own.Some? ==> s.own.value in s.jobs && s.jobs[s.own.value] == c.unit && c.hasPids)
    && (s.own.Some? ==> s.listening && s.subscribed)
    && (s.phase in {Idle, Listening, Subscribed} ==> s.own == None)
    && (Expecting(s) ==> s.own.Some?)
    && (Expecting(s) && s.own.value in s.removed ==>
          Signal(s.own.value, c.unit, s.removed[s.own.value]) in Pending(s))
    && (s.phase.Finished? ==> Justified(c, s))
  }

  predicate Truthful(s: State, signal: Signal) {
    if signal.Garbled? then s.garbled else signal.job in s.removed && signal.result == s.removed[signal.job]
  }

  /** What each outcome says about the job the call queued. */
  predicate Justified(c: Config, s: State)
    requires s.phase.Finished?
  {
    match s.phase.outcome
    case Ok(_) => s.own.Some? && s.own.value in s.removed && s.removed[s.own.value] == "done"
    case Err(JobFailed(r)) => r != "done" && s.own.Some? && s.own.value in s.removed && s.removed[s.own.value] == r
    case Err(StreamClosed) => s.closed && s.own.Some?
    case Err(BadSignal) => s.garbled && s.own.Some?
    case Err(TimedOut(u, job)) => u == c.unit && s.own == Some(job)
    case Err(InvalidProperties) => !c.hasPids && s.own == None
    case Err(CallFailed) => c.hasPids && s.own == None
  }

  lemma ArriveKeeps(c: Config, s: State)
    requires Inv(c, s) && Enabled(c, s, Arrive)
    ensures Inv(c, Apply(c, s, Arrive))
  {
    assert Pending(Apply(c, s, Arrive)) == Pending(s);
  }

  lemma TakeFirst(stream: seq<Signal>, inFlight: seq<Signal>)
    requires stream != []
    ensures stream + inFlight == [stream[0]] + (stream[1..] + inFlight) && stream[0] in stream + inFlight
    ensures forall signal | signal in stream[1..] + inFlight :: signal in stream + inFlight
  {
    var rest := stream[1..] + inFlight;
    assert stream + inFlight == [stream[0]] + rest;
  }

  lemma ReceiveKeeps(c: Config, s: State)
    requires Inv(c, s) && Enabled(c, s, Receive)
    ensures Inv(c, Apply(c, s, Receive))
  {
    if s.stream != [] {
      TakeFirst(s.stream, s.inFlight);
      assert Truthful(s, s.stream[0]);
    }
    var s' := Apply(c, s, Receive);
    forall signal | signal in Pending(s')
      ensures Truthful(s', signal)
    {
      assert Truthful(s, signal);
    }
  }

  lemma SendKeeps(c: Config, s: State, step: Step)
    requires Inv(c, s) && (step.Remove? || step.Garble?) && Enabled(c, s, step)
    ensures Inv(c, Apply(c, s, step))
  {
    var s' := Apply(c, s, step);
    var signal := if step.Garble? then Garbled else Signal(step.job, s.jobs[step.job], step.result);
    assert Pending(s') == Pending(s) || Pending(s') == Pending(s) + [signal];
    assert forall x | x in Pending(s') :: x in Pending(s) || x == signal;
  }

  /** The other steps touch no signal. */
  lemma RestKeeps(c: Config, s: State, step: Step)
    requires c.order == ListenFirst && Inv(c, s) && Enabled(c, s, step)
    requires step.Call? || step.FailCall? || step.Await? || step.OtherJob? || step.Close? || step.Expire?
    ensures Inv(c, Apply(c, s, step))
  {
    assert Pending(Apply(c, s, step)) == Pending(s);
  }

  lemma StepKeeps(c: Config, s: State, step: Step)
    requires c.order == ListenFirst && Inv(c, s) && Enabled(c, s, step)
    ensures Inv(c, Apply(c, s, step))
  {
    match step
    case Arrive => ArriveKeeps(c, s);
    case Receive => ReceiveKeeps(c, s);
    case Remove(_, _) => SendKeeps(c, s, step);
    case Garble => SendKeeps(c, s, step);
    case _ => RestKeeps(c, s, step);
  }

  lemma {:induction false} RunKeeps(c: Config, s: State, steps: seq<Step>)
    requires c.order == ListenFirst && Inv(c, s) && Exec(c, s, steps).Some?
    ensures Inv(c, Exec(c, s, steps).value)
  {
    if steps != [] {
      RunKeeps(c, s, steps[..|steps| - 1]);
      StepKeeps(c, Exec(c, s, steps[..|steps| - 1]).value, steps[|steps| - 1]);
    }
  }

  /**
   * From the moment the job is queued, before the client waits and while it does, the result of the
   * finished job is among the signals to come, and waiting for them gives it.
   */
  lemma NoLostCompletion(c: Config, s0: State, steps: seq<Step>)
    requires c.order == ListenFirst && Init(s0) && Exec(c, s0, steps).Some?
    requires var s := Exec(c, s0, steps).value; Expecting(s) && s.own.Some? && s.own.value in s.removed
    ensures var s := Exec(c, s0, steps).value;
            var wait := WaitResult(Pending(s), s.own.value);
            && Signal(s.own.value, c.unit, s.removed[s.own.value]) in Pending(s)
            && (wait == Judge(s.removed[s.own.value]) || (s.garbled && wait == Err(BadSignal)))
  {
    RunKeeps(c, s0, steps);
    var s := Exec(c, s0, steps).value;
    FirstDecides(Pending(s), s.own.value, s.removed[s.own.value]);
  }

  lemma {:induction false} FirstDecides(signals: seq<Signal>, job: string, result: string)
    requires exists signal :: signal in signals && IsOwn(signal, job)
    requires forall signal | signal in signals && IsOwn(signal, job) :: signal.result == result
    ensures WaitResult(signals, job) == Judge(result)
            || (Garbled in signals && WaitResult(signals, job) == Err(BadSignal))
  {
    assert forall signal :: signal in signals ==> signal == signals[0] || signal in signals[1..];
    if signals[0].Signal? && signals[0].job != job {
      FirstDecides(signals[1..], job, result);
    }
  }

  /** `start` answers Ok only if systemd removed the very job it queued as "done". */
  lemma OutcomeIsJustified(c: Config, s0: State, steps: seq<Step>)
    requires c.order == ListenFirst && Init(s0) && Exec(c, s0, steps).Some?
    requires Exec(c, s0, steps).value.phase.Finished?
    ensures Justified(c, Exec(c, s0, steps).value)
    // Case by case.
    ensures var s := Exec(c, s0, steps).value;
            var o := s.phase.outcome;
            && (o.Ok? || o.error.JobFailed? ==> s.own.Some? && s.own.value in s.removed)
            && (o.Ok? ==> s.removed[s.own.value] == "done")
            && (o.Err? && o.error.JobFailed? ==>
                  s.removed[s.own.value] != "done" && o.error.result == s.removed[s.own.value])
            && (o.Err? && o.error.StreamClosed? ==> s.closed && s.own.Some?)
            && (o.Err? && o.error.BadSignal? ==> s.garbled && s.own.Some?)
            && (o.Err? && o.error.TimedOut? ==> o.error.unit == c.unit && s.own == Some(o.error.job))
            && (o.Err? && o.error.InvalidProperties? ==> !c.hasPids && s.own == None)
            && (o.Err? && o.error.CallFailed? ==> c.hasPids && s.own == None)
  {
    RunKeeps(c, s0, steps);
  }

  lemma InvNeedsPids(c: Config, s: State)
    requires Inv(c, s) && !c.hasPids
    ensures s.own == None && (s.phase.Idle? || s.phase == Finished(Err(InvalidProperties)))
  {
    if s.phase.Finished? {
      assert s.phase.outcome.Err?;
    }
  }

  /** Without the PIDs property nothing is called at all, and the only outcome is the error for it. */
  lemma PidsAreRequired(c: Config, s0: State, steps: seq<Step>)
    requires c.order == ListenFirst && Init(s0) && Exec(c, s0, steps).Some? && !c.hasPids
    ensures var s := Exec(c, s0, steps).value;
            s.own == None && (s.phase.Idle? || s.phase == Finished(Err(InvalidProperties)))
  {
    RunKeeps(c, s0, steps);
    InvNeedsPids(c, Exec(c, s0, steps).value);
  }

  /** The job is never queued before the client listens and has subscribed. */
  lemma ListensBeforeQueueing(c: Config, s0: State, steps: seq<Step>)
    requires c.order == ListenFirst && Init(s0) && Exec(c, s0, steps).Some?
    requires Exec(c, s0, steps).value.own.Some?
    ensures Exec(c, s0, steps).value.listening && Exec(c, s0, steps).value.subscribed
  {
    RunKeeps(c, s0, steps);
  }

  // Progress: with the job finished and the connection up, waiting, delivering and receiving decide.

  predicate Draining(step: Step) {
    step.Await? || step.Arrive? || step.Receive?
  }

  function Fuel(s: State): nat {
    2 * |s.inFlight| + |s.stream| + if s.phase.Queued? then 1 else 0
  }

  /** The client has the result of its job, or stopped at a garbled signal. */
  predicate Decided(s: State, result: string) {
    s.phase == Finished(Judge(result)) || (s.garbled && s.phase == Finished(Err(BadSignal)))
  }

  lemma {:induction false} DrainRun(c: Config, s: State, steps: seq<Step>)
    requires c.order == ListenFirst && Inv(c, s) && !s.closed && Expecting(s) && s.own.value in s.removed
    requires Exec(c, s, steps).Some? && forall step | step in steps :: Draining(step)
    ensures var s' := Exec(c, s, steps).value;
            && s'.own == s.own && s'.removed == s.removed && !s'.closed && s'.garbled == s.garbled
            && |steps| + Fuel(s') == Fuel(s)
            && (Expecting(s') || Decided(s', s.removed[s.own.value]))
  {
    if steps != [] {
      var before, step := steps[..|steps| - 1], steps[|steps| - 1];
      assert step in steps;
      DrainRun(c, s, before);
      RunKeeps(c, s, before);
      var m := Exec(c, s, before).value;
      if step.Receive? {
        assert m.stream[0] in Pending(m);
      }
    }
  }

  /** Within `Fuel` steps the wait ends, and it ends with the result of the job. */
  lemma CompletionIsNoticed(c: Config, s0: State, steps: seq<Step>, drain: seq<Step>)
    requires c.order == ListenFirst && Init(s0) && Exec(c, s0, steps).Some?
    requires var s := Exec(c, s0, steps).value;
             && !s.closed && Expecting(s) && s.own.Some? && s.own.value in s.removed
             && Exec(c, s, drain).Some? && forall step | step in drain :: Draining(step)
    ensures var s := Exec(c, s0, steps).value;
            var s' := Exec(c, s, drain).value;
            && |drain| <= Fuel(s)
            && ((forall step | Draining(step) :: !Enabled(c, s', step)) ==> Decided(s', s.removed[s.own.value]))
  {
    RunKeeps(c, s0, steps);
    var s := Exec(c, s0, steps).value;
    DrainRun(c, s, drain);
    RunKeeps(c, s, drain);
    var s' := Exec(c, s, drain).value;
    if Expecting(s') {
      CanDrain(c, s');
    }
  }

  lemma CanDrain(c: Config, s: State)
    requires c.order == ListenFirst && Inv(c, s) && !s.closed && Expecting(s) && s.own.value in s.removed
    ensures exists step :: Draining(step) && Enabled(c, s, step)
  {
    assert Pending(s) != [];
    var step := if s.phase.Queued? then Await else if s.stream != [] then Receive else Arrive;
    assert Draining(step) && Enabled(c, s, step);
  }

  /** The calls in order: a listener, the subscription, the job, the wait; or only the check of the properties. */
  lemma CallsInOrder(unit: string, job: string)
    ensures var c := Config(ListenFirst, unit, true);
            var s0 := State(Idle, None, false, false, false, false, map[], map[], [], []);
            && Exec(c, s0, [Call(job)]) == Some(s0.(phase := Listening, listening := true))
            && Exec(c, s0, [Call(job), Call(job), Call(job), Await])
                 == Some(s0.(phase := Waiting, listening := true, subscribed := true,
                             own := Some(job), jobs := map[job := unit]))
            && Exec(c.(hasPids := false), s0, [Call(job)]) == Some(s0.(phase := Finished(Err(InvalidProperties))))
  {
    var c := Config(ListenFirst, unit, true);
    var s0 := State(Idle, None, false, false, false, false, map[], map[], [], []);
    var listening := s0.(phase := Listening, listening := true);
    var subscribed := listening.(phase := Subscribed, subscribed := true);
    var queued := subscribed.(phase := Queued, own := Some(job), jobs := map[job := unit]);
    var call := Call(job);
    assert [] + [call] == [call] && [call] + [call] == [call, call];
    assert [call, call] + [call] == [call, call, call] && [call, call, call] + [Await] == [call, call, call, Await];
    assert Exec(c, s0, []) == Some(s0);
    ExecMore(c, s0, [], call, s0, listening);
    ExecMore(c, s0, [call], call, listening, subscribed);
    ExecMore(c, s0, [call, call], call, subscribed, queued);
    ExecMore(c, s0, [call, call, call], Await, queued, queued.(phase := Waiting));
    var without := c.(hasPids := false);
    assert Exec(without, s0, []) == Some(s0);
    ExecMore(without, s0, [], call, s0, s0.(phase := Finished(Err(InvalidProperties))));
  }

  /** Queueing the job before listening loses a fast job: nothing is left that could end the wait. */
  lemma StartFirstLosesJob(unit: string, job: string, result: string)
    ensures var c := Config(StartFirst, unit, true);
            var s0 := State(Idle, None, false, false, false, false, map[], map[], [], []);
            var end := Exec(c, s0, [Call(job), Remove(job, result), Call(job + "1"), Call(job + "1"), Await]);
            && Init(s0) && end.Some? && end.value.phase.Waiting?
            && end.value.own == Some(job) && job in end.value.removed && Pending(end.value) == []
  {
    var c := Config(StartFirst, unit, true);
    var s0 := State(Idle, None, false, false, false, false, map[], map[], [], []);
    var queued := s0.(phase := Queued, own := Some(job), jobs := map[job := unit]);
    var removed := queued.(removed := map[job := result]);
    var listening := removed.(phase := Listening, listening := true);
    var subscribed := listening.(phase := Subscribed, subscribed := true);
    assert |job + "1"| != |job|;
    var steps := [Call(job), Remove(job, result), Call(job + "1"), Call(job + "1"), Await];
    assert [] + [Call(job)] == steps[..1] && steps[..1] + [Remove(job, result)] == steps[..2];
    assert steps[..2] + [Call(job + "1")] == steps[..3] && steps[..3] + [Call(job + "1")] == steps[..4];
    assert steps[..4] + [Await] == steps;
    assert Exec(c, s0, []) == Some(s0);
    ExecMore(c, s0, [], Call(job), s0, queued);
    ExecMore(c, s0, steps[..1], Remove(job, result), queued, removed);
    ExecMore(c, s0, steps[..2], Call(job + "1"), removed, listening);
    ExecMore(c, s0, steps[..3], Call(job + "1"), listening, subscribed);
    ExecMore(c, s0, steps[..4], Await, subscribed, subscribed.(phase := Waiting));
  }

  lemma ExecMore(c: Config, s: State, steps: seq<Step>, step: Step, m: State, next: State)
    requires Exec(c, s, steps) == Some(m) && Enabled(c, m, step) && Apply(c, m, step) == next
    ensures Exec(c, s, steps + [step]) == Some(next)
  {
    assert (steps + [step])[..|steps|] == steps;
  }
}
