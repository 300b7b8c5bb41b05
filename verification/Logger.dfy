/** The logging pipeline of g3log: clients enqueue actions on the worker's active object, whose
    thread fans messages out to the sinks' own active objects. One event is one step of one thread,
    so the worker, the sinks, the clients, the destructor and the fatal path interleave freely. */
module Logger {
  import opened Basics

  type Msg = int
  type SinkId = nat

  /** An active object: every callback sent to it, how many its thread has run, and `done_`. */
  datatype Active<A> = Active(sent: seq<A>, ran: nat, done: bool)

  datatype Action = Save(msg: Msg) | AddSink(sink: SinkId) | Fatal(msg: Msg) | StopWorker

  datatype SinkAction = Deliver(msg: Msg) | Call | StopSink

  /** Where the worker's thread is: between callbacks; sending a message to the i-th sink; on the
      fatal path destroying the i-th sink, before or after the stop action is sent. */
  datatype WorkerPc = Idle | FanOut(msg: Msg, i: nat, fatal: bool) | Clearing(i: nat, told: bool) | Exited

  /** Where ~LogWorkerImpl is. */
  datatype Destructor = NotStarted | JoiningWorker | StoppingSink(i: nat) | JoiningSink(i: nat) | Finished

  datatype State = State(
    worker: Active<Action>,
    pc: WorkerPc,
    sinks: map<SinkId, Active<SinkAction>>,
    registered: seq<SinkId>,
    destructor: Destructor)

  datatype Event =
    | Send(a: Action)        // a client enqueues Save, AddSink or Fatal
    | CallSink(id: SinkId)   // a client enqueues a call through a SinkHandle
    | Take                   // the worker pops its next action
    | SendNext               // the worker passes the message to the next sink
    | SentAll                // the fan-out loop ends
    | TellSink               // the fatal path sends a stop action to the next sink ...
    | JoinTold               // ... and joins its thread
    | Exit                   // all sinks flushed: the process ends
    | RunSink(id: SinkId)    // a sink runs its next action
    | StartDestructor
    | JoinWorker
    | StopNextSink
    | JoinNextSink
    | FinishDestructor

  // ----- Active objects

  function NewActive<A>(): Active<A> {
    Active([], 0, false)
  }

  function Sent<A>(o: Active<A>, a: A): Active<A> {
    o.(sent := o.sent + [a])
  }

  predicate CanRun<A>(o: Active<A>) {
    !o.done && o.ran < |o.sent|
  }

  /** One turn of `Active::run`: the stop action sets done_, after which the loop ends. */
  function Ran<A(==)>(o: Active<A>, stop: A): Active<A>
    requires CanRun(o)
  {
    Active(o.sent, o.ran + 1, o.sent[o.ran] == stop)
  }

  /** Exactly the last callback that ran, if any, was the stop action, when the object is done. */
  ghost predicate ActiveOk<A>(o: Active<A>, stop: A) {
    && o.ran <= |o.sent|
    && (o.done ==> o.ran > 0)
    && forall k :: 0 <= k < o.ran ==> (o.sent[k] == stop <==> o.done && k == o.ran - 1)
  }

  function Executed<A>(o: Active<A>): seq<A>
    requires o.ran <= |o.sent|
  {
    o.sent[..o.ran]
  }

  // ----- The steps

  function Init(): State {
    State(NewActive(), Idle, map[], [], NotStarted)
  }

  /** The sink with index i of the worker's vector. */
  predicate HasSink(s: State, i: nat) {
    i < |s.registered| && s.registered[i] in s.sinks
  }

  predicate Enabled(s: State, e: Event) {
    !s.pc.Exited? &&
    match e
    case Send(a) =>
      (s.destructor.NotStarted? || s.destructor.JoiningWorker?)
      && a != StopWorker && (a.AddSink? ==> a.sink !in s.sinks)
    case CallSink(id) => id in s.sinks
    case Take => s.pc.Idle? && CanRun(s.worker)
    case SendNext => s.pc.FanOut? && HasSink(s, s.pc.i)
    case SentAll => s.pc.FanOut? && s.pc.i == |s.registered|
    case TellSink => s.pc.Clearing? && !s.pc.told && HasSink(s, s.pc.i)
    case JoinTold => s.pc.Clearing? && s.pc.told && HasSink(s, s.pc.i) && s.sinks[s.registered[s.pc.i]].done
    case Exit => s.pc.Clearing? && !s.pc.told && s.pc.i == |s.registered|
    case RunSink(id) => id in s.sinks && CanRun(s.sinks[id])
    case StartDestructor => s.destructor.NotStarted?
    case JoinWorker => s.destructor.JoiningWorker? && s.worker.done && s.pc.Idle?
    case StopNextSink => s.destructor.StoppingSink? && HasSink(s, s.destructor.i)
    case JoinNextSink =>
      s.destructor.JoiningSink? && HasSink(s, s.destructor.i) && s.sinks[s.registered[s.destructor.i]].done
    case FinishDestructor => s.destructor.StoppingSink? && s.destructor.i == |s.registered|
  }

  function SentToSink(s: State, id: SinkId, a: SinkAction): State
    requires id in s.sinks
  {
    s.(sinks := s.sinks[id := Sent(s.sinks[id], a)])
  }

  /** The worker pops an action; adding a sink and stopping complete at once, a message starts the
      loop over the sinks. */
  function Taken(s: State): State
    requires CanRun(s.worker)
  {
    var t := s.(worker := Ran(s.worker, StopWorker));
    match s.worker.sent[s.worker.ran]
    case Save(m) => t.(pc := FanOut(m, 0, false))
    case Fatal(m) => t.(pc := FanOut(m, 0, true))
    case AddSink(id) => t.(registered := s.registered + [id])
    case StopWorker => t
  }

  function Next(s: State, e: Event): State
    requires Enabled(s, e)
  {
    match e
    case Send(a) =>
      var t := s.(worker := Sent(s.worker, a));
      if a.AddSink? then t.(sinks := s.sinks[a.sink := NewActive()]) else t
    case CallSink(id) => SentToSink(s, id, Call)
    case Take => Taken(s)
    case SendNext =>
      SentToSink(s, s.registered[s.pc.i], Deliver(s.pc.msg)).(pc := FanOut(s.pc.msg, s.pc.i + 1, s.pc.fatal))
    case SentAll => s.(pc := if s.pc.fatal then Clearing(0, false) else Idle)
    case TellSink => SentToSink(s, s.registered[s.pc.i], StopSink).(pc := Clearing(s.pc.i, true))
    case JoinTold => s.(pc := Clearing(s.pc.i + 1, false))
    case Exit => s.(pc := Exited)
    case RunSink(id) => s.(sinks := s.sinks[id := Ran(s.sinks[id], StopSink)])
    case StartDestructor => s.(worker := Sent(s.worker, StopWorker), destructor := JoiningWorker)
    case JoinWorker => s.(destructor := StoppingSink(0))
    case StopNextSink =>
      SentToSink(s, s.registered[s.destructor.i], StopSink).(destructor := JoiningSink(s.destructor.i))
    case JoinNextSink => s.(destructor := StoppingSink(s.destructor.i + 1))
    case FinishDestructor => s.(destructor := Finished)
  }

  /** The states of a run: the initial one, then one per event. */
  ghost predicate Run(states: seq<State>, events: seq<Event>) {
    && |states| == |events| + 1
    && states[0] == Init()
    && forall i :: 0 <= i < |events| ==> Enabled(states[i], events[i]) && states[i + 1] == Next(states[i], events[i])
  }

  // ----- What the sinks should see

  /** The messages among a sink's actions. */
  function Messages(acts: seq<SinkAction>): seq<Msg> {
    if acts == [] then [] else
      var last := acts[|acts| - 1];
      Messages(Front(acts)) + if last.Deliver? then [last.msg] else []
  }

  /** What a sink's real object has been given so far. */
  function Seen(o: Active<SinkAction>): seq<Msg>
    requires o.ran <= |o.sent|
  {
    Messages(Executed(o))
  }

  /** The messages enqueued to the worker after the action that registers the sink. */
  function Due(acts: seq<Action>, id: SinkId): seq<Msg> {
    if acts == [] then [] else
      var front, last := Front(acts), acts[|acts| - 1];
      Due(front, id) + if (last.Save? || last.Fatal?) && AddSink(id) in front then [last.msg] else []
  }

  /** The actions up to and including the first stop action. */
  function UpTo<A(==)>(acts: seq<A>, stop: A): seq<A> {
    if acts == [] then [] else if acts[0] == stop then [stop] else [acts[0]] + UpTo(acts[1..], stop)
  }

  /** The sinks added, in order. */
  function Added(acts: seq<Action>): seq<SinkId> {
    if acts == [] then [] else
      var last := acts[|acts| - 1];
      Added(Front(acts)) + if last.AddSink? then [last.sink] else []
  }

  // ----- The invariant

  ghost predicate Objects(s: State) {
    && ActiveOk(s.worker, StopWorker)
    && forall id :: id in s.sinks ==> ActiveOk(s.sinks[id], StopSink)
  }

  /** The worker's vector holds the sinks whose registration has run, each once. */
  ghost predicate Vector(s: State) {
    && s.worker.ran <= |s.worker.sent|
    && s.registered == Added(Executed(s.worker))
    && (forall id :: AddSink(id) in s.worker.sent <==> id in s.sinks)
    && (forall i, j :: 0 <= i < j < |s.worker.sent| && s.worker.sent[i].AddSink? ==>
      s.worker.sent[i] != s.worker.sent[j])
  }

  /** In a fan-out the last action run is the message; a fatal one is the last ever run. */
  ghost predicate Control(s: State) {
    && s.worker.ran <= |s.worker.sent|
    && var run := Executed(s.worker);
    && (s.pc.FanOut? ==> s.pc.i <= |s.registered| && run != [] && !s.worker.done)
    && (s.pc.FanOut? ==> run[|run| - 1] == if s.pc.fatal then Fatal(s.pc.msg) else Save(s.pc.msg))
    && (s.pc.Clearing? ==> s.pc.i <= |s.registered| && (s.pc.told ==> s.pc.i < |s.registered|))
    && (s.pc.Clearing? || s.pc.Exited? ==> run != [] && run[|run| - 1].Fatal? && !s.worker.done)
    && (forall k :: 0 <= k < |run| && run[k].Fatal? ==>
        k == |run| - 1 && ((s.pc.FanOut? && s.pc.fatal) || s.pc.Clearing? || s.pc.Exited?))
  }

  /** The worker's actions that sink `id` has been sent the messages of. */
  ghost function Passed(s: State, id: SinkId): seq<Action>
    requires s.worker.ran <= |s.worker.sent|
  {
    var run := Executed(s.worker);
    var served := s.registered[..if s.pc.FanOut? && s.pc.i <= |s.registered| then s.pc.i else 0];
    if s.pc.FanOut? && run != [] && id in s.registered && id !in served
    then Front(run) else run
  }

  ghost predicate Delivered(s: State) {
    && s.worker.ran <= |s.worker.sent|
    && forall id :: id in s.sinks ==> Messages(s.sinks[id].sent) == Due(Passed(s, id), id)
  }

  /** Nothing is delivered behind a sink's stop action: it is sent only when the worker is past
      its own. */
  ghost predicate Stops(s: State) {
    && (StopWorker in s.worker.sent <==> !s.destructor.NotStarted?)
    && (!s.destructor.NotStarted? && !s.destructor.JoiningWorker? ==> s.worker.done && s.pc.Idle?)
    && forall id :: id in s.sinks && StopSink in s.sinks[id].sent ==>
      && ((s.worker.done && s.pc.Idle?) || s.pc.Clearing? || s.pc.Exited?)
      && Messages(UpTo(s.sinks[id].sent, StopSink)) == Messages(s.sinks[id].sent)
  }

  /** The sinks the destructor has dealt with. */
  ghost predicate DestructorJoined(s: State) {
    && (s.destructor.StoppingSink? || s.destructor.JoiningSink? ==>
      (s.destructor.i <= |s.registered| && DoneBelow(s, s.destructor.i)))
    && (s.destructor.JoiningSink? ==>
      (HasSink(s, s.destructor.i) && StopSink in s.sinks[s.registered[s.destructor.i]].sent))
    && (s.destructor.Finished? ==> DoneBelow(s, |s.registered|))
  }

  /** The sinks the fatal path has dealt with. */
  ghost predicate FatalJoined(s: State) {
    && (s.pc.Clearing? ==> s.pc.i <= |s.registered| && DoneBelow(s, s.pc.i))
    && (s.pc.Clearing? && s.pc.told ==> HasSink(s, s.pc.i) && StopSink in s.sinks[s.registered[s.pc.i]].sent)
    && (s.pc.Exited? ==> DoneBelow(s, |s.registered|))
  }

  ghost predicate Joined(s: State) {
    DestructorJoined(s) && FatalJoined(s)
  }

  ghost predicate DoneBelow(s: State, n: nat) {
    forall i :: 0 <= i < n && i < |s.registered| ==> s.registered[i] in s.sinks && s.sinks[s.registered[i]].done
  }

  ghost predicate Inv(s: State) {
    Objects(s) && Vector(s) && Control(s) && Delivered(s) && Stops(s) && Joined(s)
  }

  // ----- Facts about sequences of actions

  lemma FrontOfSnoc<A>(xs: seq<A>, x: A)
    ensures Front(xs + [x]) == xs
  {}

  lemma MessagesSnoc(acts: seq<SinkAction>, a: SinkAction)
    ensures Messages(acts + [a]) == Messages(acts) + if a.Deliver? then [a.msg] else []
  {
    FrontOfSnoc(acts, a);
  }

  lemma DueSnoc(acts: seq<Action>, a: Action, id: SinkId)
    ensures Due(acts + [a], id) == Due(acts, id) + if (a.Save? || a.Fatal?) && AddSink(id) in acts then [a.msg] else []
  {
    FrontOfSnoc(acts, a);
  }

  lemma AddedSnoc(acts: seq<Action>, a: Action)
    ensures Added(acts + [a]) == Added(acts) + if a.AddSink? then [a.sink] else []
  {
    FrontOfSnoc(acts, a);
  }

  lemma {:induction false} AddedIs(acts: seq<Action>, id: SinkId)
    ensures id in Added(acts) <==> AddSink(id) in acts
  {
    if acts != [] {
      AddedIs(Front(acts), id);
      assert acts == Front(acts) + [acts[|acts| - 1]];
    }
  }

  lemma {:induction false} NotDue(acts: seq<Action>, id: SinkId)
    requires AddSink(id) !in acts
    ensures Due(acts, id) == []
  {
    if acts != [] {
      NotDue(Front(acts), id);
    }
  }

  lemma {:induction false} UpToSnoc<A>(acts: seq<A>, a: A, stop: A)
    ensures UpTo(acts + [a], stop) == if stop in acts then UpTo(acts, stop) else acts + [a]
  {
    if acts != [] {
      assert (acts + [a])[1..] == acts[1..] + [a];
      if acts[0] != stop {
        UpToSnoc(acts[1..], a, stop);
      }
    }
  }

  lemma {:induction false} UpToPrefix<A>(acts: seq<A>, n: nat, stop: A)
    requires n < |acts| && acts[n] == stop
    requires forall k :: 0 <= k < n ==> acts[k] != stop
    ensures UpTo(acts, stop) == acts[..n + 1]
  {
    if n > 0 {
      UpToPrefix(acts[1..], n - 1, stop);
    }
  }

  /** A finished active object has run its callbacks up to the first stop action, and no more. */
  lemma DoneRanUpToStop<A>(o: Active<A>, stop: A)
    requires ActiveOk(o, stop) && o.done
    ensures Executed(o) == UpTo(o.sent, stop) && stop in o.sent
  {
    UpToPrefix(o.sent, o.ran - 1, stop);
  }

  // ----- Every step keeps the invariant

  lemma NewOk<A>(stop: A)
    ensures ActiveOk(NewActive<A>(), stop)
  {}

  lemma SentOk<A>(o: Active<A>, a: A, stop: A)
    requires ActiveOk(o, stop)
    ensures ActiveOk(Sent(o, a), stop)
  {}

  lemma RanOk<A>(o: Active<A>, stop: A)
    requires ActiveOk(o, stop) && CanRun(o)
    ensures ActiveOk(Ran(o, stop), stop)
  {}

  lemma WorkerOk(s: State, e: Event)
    requires ActiveOk(s.worker, StopWorker) && Enabled(s, e)
    ensures ActiveOk(Next(s, e).worker, StopWorker)
  {
    match e
    case Send(a) => SentOk(s.worker, a, StopWorker);
    case StartDestructor => SentOk(s.worker, StopWorker, StopWorker);
    case Take => RanOk(s.worker, StopWorker);
    case _ =>
    hide ActiveOk, Ran;
  }

  lemma SinkOk(s: State, e: Event, id: SinkId)
    requires Objects(s) && Enabled(s, e) && id in Next(s, e).sinks
    ensures ActiveOk(Next(s, e).sinks[id], StopSink)
  {
    NewOk(StopSink);
    if id in s.sinks {
      var o := s.sinks[id];
      assert ActiveOk(o, StopSink);
      SentOk(o, Call, StopSink);
      SentOk(o, StopSink, StopSink);
      if s.pc.FanOut? {
        SentOk(o, Deliver(s.pc.msg), StopSink);
      }
      if CanRun(o) {
        RanOk(o, StopSink);
      }
    }
    hide ActiveOk, Ran, Sent, NewActive;
  }

  lemma ObjectsStep(s: State, e: Event)
    requires Objects(s) && Enabled(s, e)
    ensures Objects(Next(s, e))
  {
    WorkerOk(s, e);
    forall id | id in Next(s, e).sinks
      ensures ActiveOk(Next(s, e).sinks[id], StopSink)
    {
      SinkOk(s, e, id);
    }
    hide Next, Enabled, ActiveOk;
  }

  lemma ExecutedStep(s: State, e: Event)
    requires Objects(s) && Enabled(s, e)
    ensures Executed(Next(s, e).worker) == if e.Take? then Executed(s.worker) + [s.worker.sent[s.worker.ran]]
      else Executed(s.worker)
  {}

  lemma VectorTake(s: State)
    requires Objects(s) && Vector(s) && Enabled(s, Take)
    ensures Vector(Next(s, Take))
  {
    ExecutedStep(s, Take);
    AddedSnoc(Executed(s.worker), s.worker.sent[s.worker.ran]);
    hide Added, Objects, Executed;
  }

  lemma VectorSend(s: State, e: Event)
    requires Objects(s) && Vector(s) && Enabled(s, e) && (e.Send? || e.StartDestructor?)
    ensures Vector(Next(s, e))
  {
    hide Added;
    ExecutedStep(s, e);
  }

  lemma VectorOther(s: State, e: Event)
    requires Vector(s) && Enabled(s, e) && !e.Take? && !e.Send? && !e.StartDestructor?
    ensures Vector(Next(s, e))
  {
    hide Added;
  }

  lemma VectorStep(s: State, e: Event)
    requires Objects(s) && Vector(s) && Enabled(s, e)
    ensures Vector(Next(s, e))
  {
    hide Vector, Objects, Next, Enabled;
    match e
    case Take => VectorTake(s);
    case Send(a) => VectorSend(s, e);
    case StartDestructor => VectorSend(s, e);
    case _ => VectorOther(s, e);
  }

  lemma ControlStep(s: State, e: Event)
    requires Objects(s) && Vector(s) && Control(s) && Enabled(s, e)
    ensures Control(Next(s, e))
  {
    ExecutedStep(s, e);
    ObjectsStep(s, e);
  }

  lemma {:induction false} AddedOnce(acts: seq<Action>)
    requires forall i, j :: 0 <= i < j < |acts| && acts[i].AddSink? ==> acts[i] != acts[j]
    ensures forall i, j :: 0 <= i < j < |Added(acts)| ==> Added(acts)[i] != Added(acts)[j]
  {
    if acts != [] {
      var front, last := Front(acts), acts[|acts| - 1];
      AddedOnce(front);
      if last.AddSink? {
        AddedIs(front, last.sink);
        assert AddSink(last.sink) !in front;
      }
    }
  }

  lemma RegisteredIs(s: State)
    requires Vector(s)
    ensures forall id :: id in s.registered <==> AddSink(id) in Executed(s.worker)
    ensures forall i, j :: 0 <= i < j < |s.registered| ==> s.registered[i] != s.registered[j]
  {
    forall id
      ensures id in s.registered <==> AddSink(id) in Executed(s.worker)
    {
      AddedIs(Executed(s.worker), id);
    }
    AddedOnce(Executed(s.worker));
  }

  /** One sink's part of Delivered. */
  ghost predicate DeliveredTo(s: State, id: SinkId)
    requires id in s.sinks
  {
    s.worker.ran <= |s.worker.sent| && Messages(s.sinks[id].sent) == Due(Passed(s, id), id)
  }

  lemma PassedInFanOut(s: State, id: SinkId)
    requires s.pc.FanOut? && s.worker.ran <= |s.worker.sent| && Executed(s.worker) != [] && s.pc.i <= |s.registered|
    ensures Passed(s, id) == if id in s.registered && id !in s.registered[..s.pc.i]
      then Front(Executed(s.worker)) else Executed(s.worker)
  {}

  lemma PassedOutside(s: State, id: SinkId)
    requires !s.pc.FanOut? && s.worker.ran <= |s.worker.sent|
    ensures Passed(s, id) == Executed(s.worker)
  {}

  /** What taking an action changes for the sinks. */
  lemma TakeChanges(s: State)
    requires Objects(s) && Control(s) && Enabled(s, Take)
    ensures var t, a := Next(s, Take), s.worker.sent[s.worker.ran];
      && t.worker.ran <= |t.worker.sent| && Executed(t.worker) == Executed(s.worker) + [a]
      && t.sinks == s.sinks && !s.pc.FanOut? && (t.pc.FanOut? <==> a.Save? || a.Fatal?)
      && (t.pc.FanOut? ==> t.pc.i == 0 && t.registered == s.registered)
  {
    ExecutedStep(s, Take);
    hide Executed;
  }

  lemma DeliveredTake(s: State, id: SinkId)
    requires Objects(s) && Vector(s) && Control(s) && Enabled(s, Take) && id in s.sinks && DeliveredTo(s, id)
    ensures DeliveredTo(Next(s, Take), id)
  {
    var t, run, a := Next(s, Take), Executed(s.worker), s.worker.sent[s.worker.ran];
    TakeChanges(s);
    assert id in s.registered <==> AddSink(id) in run by {
      RegisteredIs(s);
    }
    hide Objects, Vector, Control, Due, Messages, Passed, Executed, Next, Enabled;
    PassedOutside(s, id);
    DueSnoc(run, a, id);
    FrontOfSnoc(run, a);
    if t.pc.FanOut? {
      assert t.registered[..0] == [];
      PassedInFanOut(t, id);
    } else {
      PassedOutside(t, id);
    }
  }

  lemma DeliveredSend(s: State, a: Action, id: SinkId)
    requires Objects(s) && Vector(s) && Control(s) && Enabled(s, Send(a))
    requires id in Next(s, Send(a)).sinks && (id in s.sinks ==> DeliveredTo(s, id))
    ensures DeliveredTo(Next(s, Send(a)), id)
  {
    ExecutedStep(s, Send(a));
    if id !in s.sinks {
      RegisteredIs(s);
      NotDue(Executed(s.worker), id);
    }
  }

  /** In a fan-out the message is the last action run, and no sink added by it. */
  lemma FanOutFacts(s: State)
    requires Control(s) && s.pc.FanOut?
    ensures s.worker.ran <= |s.worker.sent| && s.pc.i <= |s.registered| && Executed(s.worker) != []
    ensures var last := Last(Executed(s.worker)); last == if s.pc.fatal then Fatal(s.pc.msg) else Save(s.pc.msg)
  {}

  /** The sink whose turn it is counts as served only after it; any other is unaffected. */
  lemma NextInLine(s: State, i: nat, id: SinkId)
    requires Vector(s) && i < |s.registered|
    ensures id == s.registered[i] ==> id !in s.registered[..i] && AddSink(id) in Executed(s.worker)
    ensures id in s.registered[..i + 1] <==> id in s.registered[..i] || id == s.registered[i]
  {
    RegisteredIs(s);
    assert s.registered[..i + 1] == s.registered[..i] + [s.registered[i]];
  }

  /** The message just sent is the one now due. */
  lemma DueNow(run: seq<Action>, id: SinkId, msg: Msg)
    requires run != [] && AddSink(id) in run && (Last(run) == Save(msg) || Last(run) == Fatal(msg))
    ensures Due(run, id) == Due(Front(run), id) + [msg]
  {
    assert run == Front(run) + [Last(run)];
  }

  lemma DeliveredSendNext(s: State, id: SinkId)
    requires Vector(s) && Control(s) && Enabled(s, SendNext) && id in s.sinks && DeliveredTo(s, id)
    ensures DeliveredTo(Next(s, SendNext), id)
  {
    FanOutFacts(s);
    NextInLine(s, s.pc.i, id);
    hide Vector, Control, Messages, Due, Passed;
    var t, run := Next(s, SendNext), Executed(s.worker);
    PassedInFanOut(s, id);
    PassedInFanOut(t, id);
    if id == s.registered[s.pc.i] {
      MessagesSnoc(s.sinks[id].sent, Deliver(s.pc.msg));
      DueNow(run, id, s.pc.msg);
    }
  }

  lemma DeliveredSentAll(s: State, id: SinkId)
    requires Vector(s) && Control(s) && Enabled(s, SentAll) && id in s.sinks && DeliveredTo(s, id)
    ensures DeliveredTo(Next(s, SentAll), id)
  {
    assert s.registered[..s.pc.i] == s.registered;
  }

  /** Delivery depends on nothing but what the worker has run, the sinks it knows, how far a
      fan-out has come, and the messages sent. */
  lemma SameDelivery(s: State, t: State, id: SinkId)
    requires id in s.sinks && DeliveredTo(s, id) && id in t.sinks
    requires t.worker.ran <= |t.worker.sent| && Executed(t.worker) == Executed(s.worker)
    requires t.registered == s.registered && (s.pc.FanOut? || t.pc.FanOut? ==> t.pc == s.pc)
    requires Messages(t.sinks[id].sent) == Messages(s.sinks[id].sent)
    ensures DeliveredTo(t, id)
  {}

  /** Calls and stop actions carry no message. */
  lemma QuietStep(s: State, e: Event, id: SinkId)
    requires Enabled(s, e) && id in s.sinks
    requires !e.Take? && !e.Send? && !e.SendNext? && !e.SentAll?
    ensures var t := Next(s, e);
      && id in t.sinks && t.registered == s.registered && (s.pc.FanOut? || t.pc.FanOut? ==> t.pc == s.pc)
      && (t.sinks[id].sent == s.sinks[id].sent
        || t.sinks[id] == Sent(s.sinks[id], Call) || t.sinks[id] == Sent(s.sinks[id], StopSink))
  {}

  lemma DeliveredOther(s: State, e: Event, id: SinkId)
    requires Objects(s) && Enabled(s, e) && id in s.sinks && DeliveredTo(s, id)
    requires !e.Take? && !e.Send? && !e.SendNext? && !e.SentAll?
    ensures DeliveredTo(Next(s, e), id)
  {
    ExecutedStep(s, e);
    ObjectsStep(s, e);
    QuietStep(s, e, id);
    MessagesSnoc(s.sinks[id].sent, Call);
    MessagesSnoc(s.sinks[id].sent, StopSink);
    assert Next(s, e).worker.ran <= |Next(s, e).worker.sent|;
    hide Next, Enabled, Messages, Passed, Due, DeliveredTo, Executed;
    SameDelivery(s, Next(s, e), id);
  }

  lemma DeliveredStep(s: State, e: Event)
    requires Objects(s) && Vector(s) && Control(s) && Delivered(s) && Enabled(s, e)
    ensures Delivered(Next(s, e))
  {
    hide Vector, Control, Messages, Due, Passed;
    ExecutedStep(s, e);
    ObjectsStep(s, e);
    forall id | id in Next(s, e).sinks
      ensures DeliveredTo(Next(s, e), id)
    {
      match e
      case Send(a) => DeliveredSend(s, a, id);
      case Take => DeliveredTake(s, id);
      case SendNext => DeliveredSendNext(s, id);
      case SentAll => DeliveredSentAll(s, id);
      case _ => DeliveredOther(s, e, id);
    }
  }

  // ----- Stop actions

  /** One sink's part of Stops. */
  ghost predicate StopsAt(s: State, id: SinkId)
    requires id in s.sinks
  {
    StopSink in s.sinks[id].sent ==>
      && ((s.worker.done && s.pc.Idle?) || s.pc.Clearing? || s.pc.Exited?)
      && Messages(UpTo(s.sinks[id].sent, StopSink)) == Messages(s.sinks[id].sent)
  }

  ghost predicate NothingBehindStop(o: Active<SinkAction>) {
    StopSink in o.sent ==> Messages(UpTo(o.sent, StopSink)) == Messages(o.sent)
  }

  lemma QuietAppend(o: Active<SinkAction>, a: SinkAction)
    requires NothingBehindStop(o) && !a.Deliver?
    ensures NothingBehindStop(Sent(o, a))
  {
    UpToSnoc(o.sent, a, StopSink);
    MessagesSnoc(o.sent, a);
  }

  lemma StopsAtStep(s: State, e: Event, id: SinkId)
    requires Objects(s) && Control(s) && Stops(s) && Enabled(s, e) && id in s.sinks
    ensures StopsAt(Next(s, e), id)
  {
    hide Messages, UpTo, Objects;
    assert StopsAt(s, id);
    QuietAppend(s.sinks[id], Call);
    QuietAppend(s.sinks[id], StopSink);
    assert NothingBehindStop(s.sinks[id]);
    if e.SendNext? {
      assert StopSink !in Next(s, e).sinks[id].sent;
    }
  }

  lemma StopsStep(s: State, e: Event)
    requires Objects(s) && Control(s) && Stops(s) && Enabled(s, e)
    ensures Stops(Next(s, e))
  {
    hide Messages, UpTo, Control;
    forall id | id in Next(s, e).sinks
      ensures StopsAt(Next(s, e), id)
    {
      if id in s.sinks {
        StopsAtStep(s, e, id);
      }
    }
  }

  /** A sink that is done stays done, and a stop action once sent stays sent. */
  lemma SinkKeeps(s: State, e: Event, id: SinkId)
    requires Objects(s) && Enabled(s, e) && id in s.sinks
    ensures id in Next(s, e).sinks && s.sinks[id].sent <= Next(s, e).sinks[id].sent
    ensures s.sinks[id].done ==> Next(s, e).sinks[id].done
  {}

  lemma DoneBelowStep(s: State, e: Event, n: nat)
    requires Objects(s) && Enabled(s, e) && DoneBelow(s, n) && n <= |s.registered|
    ensures DoneBelow(Next(s, e), n)
    ensures s.registered <= Next(s, e).registered
  {
    assert s.registered <= Next(s, e).registered;
    forall i | 0 <= i < n
      ensures s.registered[i] in Next(s, e).sinks && Next(s, e).sinks[s.registered[i]].done
    {
      SinkKeeps(s, e, s.registered[i]);
    }
  }

  lemma JoinedStep(s: State, e: Event)
    requires Objects(s) && Vector(s) && Control(s) && Stops(s) && Joined(s) && Enabled(s, e)
    ensures Joined(Next(s, e))
  {
    DestructorJoinedStep(s, e);
    FatalJoinedStep(s, e);
  }

  lemma DestructorJoinedStep(s: State, e: Event)
    requires Objects(s) && Stops(s) && DestructorJoined(s) && Enabled(s, e)
    ensures DestructorJoined(Next(s, e))
  {
    if s.destructor.StoppingSink? || s.destructor.JoiningSink? {
      DoneBelowStep(s, e, s.destructor.i);
      if HasSink(s, s.destructor.i) {
        SinkKeeps(s, e, s.registered[s.destructor.i]);
      }
    } else if s.destructor.Finished? {
      DoneBelowStep(s, e, |s.registered|);
    }
  }

  lemma FatalJoinedStep(s: State, e: Event)
    requires Objects(s) && Control(s) && FatalJoined(s) && Enabled(s, e)
    ensures FatalJoined(Next(s, e))
  {
    if s.pc.Clearing? {
      DoneBelowStep(s, e, s.pc.i);
      if HasSink(s, s.pc.i) {
        SinkKeeps(s, e, s.registered[s.pc.i]);
      }
    }
  }

  lemma InvInit()
    ensures Inv(Init())
  {}

  lemma InvStep(s: State, e: Event)
    requires Inv(s) && Enabled(s, e)
    ensures Inv(Next(s, e))
  {
    hide Objects, Vector, Control, Delivered, Stops, Joined, Next, Enabled;
    ObjectsStep(s, e);
    VectorStep(s, e);
    ControlStep(s, e);
    DeliveredStep(s, e);
    StopsStep(s, e);
    JoinedStep(s, e);
  }

  lemma {:induction false} InvRun(states: seq<State>, events: seq<Event>, i: nat)
    requires Run(states, events) && i < |states|
    ensures Inv(states[i])
  {
    hide Inv, Next, Enabled;
    if i == 0 {
      InvInit();
    } else {
      InvRun(states, events, i - 1);
      InvStep(states[i - 1], events[i - 1]);
    }
  }

  // ----- What every run guarantees

  /** Sink `id` has processed just these messages, in this order. */
  ghost predicate HasSeen(s: State, id: SinkId, msgs: seq<Msg>) {
    id in s.sinks && s.sinks[id].ran <= |s.sinks[id].sent| && Seen(s.sinks[id]) == msgs
  }

  // ----- What the events enqueue

  /** The actions the events so far have enqueued to the worker: what clients send, and the stop
      action of the destructor. */
  function Enqueued(events: seq<Event>): seq<Action> {
    if events == [] then [] else Enqueued(Front(events)) + EnqueuedBy(Last(events))
  }

  function EnqueuedBy(e: Event): seq<Action> {
    match e
    case Send(a) => [a]
    case StartDestructor => [StopWorker]
    case _ => []
  }

  lemma EnqueuedSnoc(events: seq<Event>, e: Event)
    ensures Enqueued(events + [e]) == Enqueued(events) + EnqueuedBy(e)
  {
    assert Front(events + [e]) == events && Last(events + [e]) == e;
  }

  lemma RunStep(states: seq<State>, events: seq<Event>, k: nat)
    requires Run(states, events) && k < |events|
    ensures |states| == |events| + 1 && Enabled(states[k], events[k]) && states[k + 1] == Next(states[k], events[k])
    ensures events[..k + 1] == events[..k] + [events[k]]
  {
    hide Enabled, Next;
  }

  lemma SentStep(s: State, e: Event)
    requires Enabled(s, e)
    ensures Next(s, e).worker.sent == s.worker.sent + EnqueuedBy(e)
  {}

  /** The worker's queue has got just what was enqueued, in that order. */
  lemma {:induction false} SentIsEnqueued(states: seq<State>, events: seq<Event>, i: nat)
    requires Run(states, events) && i < |states|
    ensures i <= |events| && states[i].worker.sent == Enqueued(events[..i])
  {
    assert |states| == |events| + 1 && states[0].worker.sent == [];
    hide Run, Enabled, Next;
    if i > 0 {
      var k := i - 1;
      var s, t, e, done, now := states[k], states[i], events[k], events[..k], events[..i];
      assert Enabled(s, e) && t == Next(s, e) && now == done + [e] by {
        RunStep(states, events, k);
      }
      SentIsEnqueued(states, events, k);
      SentStep(s, e);
      EnqueuedSnoc(done, e);
    }
  }

  /** At any time a sink has seen, in order and each once, a first part of the messages due to it. */
  lemma SeenIsPrefixOfDue(states: seq<State>, events: seq<Event>, i: nat, id: SinkId)
    requires Run(states, events) && i < |states| && id in states[i].sinks
    ensures var s := states[i];
      s.sinks[id].ran <= |s.sinks[id].sent| && Seen(s.sinks[id]) <= Due(Enqueued(events[..i]), id)
  {
    InvRun(states, events, i);
    SentIsEnqueued(states, events, i);
    SinkSeesPrefix(states[i], id);
  }

  lemma SinkSeesPrefix(s: State, id: SinkId)
    requires Objects(s) && Delivered(s) && id in s.sinks
    ensures Seen(s.sinks[id]) <= Due(s.worker.sent, id)
  {
    hide Due, Messages, Passed;
    var o, n := s.sinks[id], |Passed(s, id)|;
    PassedPrefix(s, id);
    assert DeliveredTo(s, id);
    MessagesPrefix(o.sent, o.ran);
    DuePrefix(s.worker.sent, n, id);
    PrefixOfPrefix(Seen(o), Messages(o.sent), Due(s.worker.sent, id));
  }

  lemma PrefixOfPrefix<A>(a: seq<A>, b: seq<A>, c: seq<A>)
    requires a <= b <= c
    ensures a <= c
  {}

  lemma {:induction false} MessagesPrefix(acts: seq<SinkAction>, n: nat)
    requires n <= |acts|
    ensures Messages(acts[..n]) <= Messages(acts)
  {
    if n < |acts| {
      MessagesPrefix(Front(acts), n);
      assert Front(acts)[..n] == acts[..n];
    } else {
      assert acts[..n] == acts;
    }
  }

  lemma {:induction false} DuePrefix(acts: seq<Action>, n: nat, id: SinkId)
    requires n <= |acts|
    ensures Due(acts[..n], id) <= Due(acts, id)
  {
    if n < |acts| {
      DuePrefix(Front(acts), n, id);
      assert Front(acts)[..n] == acts[..n];
    } else {
      assert acts[..n] == acts;
    }
  }

  lemma PassedPrefix(s: State, id: SinkId)
    requires s.worker.ran <= |s.worker.sent|
    ensures |Passed(s, id)| <= |s.worker.sent| && Passed(s, id) == s.worker.sent[..|Passed(s, id)|]
  {
    hide Due;
    var run := Executed(s.worker);
    if run != [] {
      assert Front(run) == s.worker.sent[..|run| - 1];
    }
  }

  /** After the destructor every registered sink has seen, exactly once and in queue order, just
      the messages enqueued after its registration and before the stop action; the sinks registered
      are those added before it, and nothing queued behind the stop action has run. */
  lemma DestructorDelivers(states: seq<State>, events: seq<Event>, i: nat)
    requires Run(states, events) && i < |states| && states[i].destructor.Finished?
    ensures var s := states[i];
      var acts := UpTo(Enqueued(events[..i]), StopWorker);
      && s.worker.ran <= |s.worker.sent| && Executed(s.worker) == acts
      && s.registered == Added(acts)
      && forall id :: id in s.registered ==> HasSeen(s, id, Due(acts, id))
  {
    InvRun(states, events, i);
    SentIsEnqueued(states, events, i);
    var s := states[i];
    DoneRanUpToStop(s.worker, StopWorker);
    forall id | id in s.registered
      ensures HasSeen(s, id, Due(Executed(s.worker), id))
    {
      var k :| 0 <= k < |s.registered| && s.registered[k] == id;
      FlushedSink(s, k);
    }
  }

  /** A joined sink has seen everything due to it. */
  lemma FlushedSink(s: State, k: nat)
    requires Inv(s) && !s.pc.FanOut? && k < |s.registered| && DoneBelow(s, |s.registered|)
    ensures HasSeen(s, s.registered[k], Due(Executed(s.worker), s.registered[k]))
  {
    hide Messages, Due, Vector, Control, Joined;
    var id := s.registered[k];
    DoneRanUpToStop(s.sinks[id], StopSink);
  }

  /** What the worker has run when the process ends. */
  lemma ExitedFacts(s: State)
    requires Inv(s) && s.pc.Exited?
    ensures 0 < s.worker.ran <= |s.worker.sent| && s.worker.sent[s.worker.ran - 1].Fatal?
    ensures forall k :: 0 <= k < s.worker.ran - 1 ==> !s.worker.sent[k].Fatal? && s.worker.sent[k] != StopWorker
    ensures Executed(s.worker) == s.worker.sent[..s.worker.ran - 1] + [s.worker.sent[s.worker.ran - 1]]
  {
    hide Delivered, Stops, Vector, Joined;
    var run := Executed(s.worker);
    assert forall k :: 0 <= k < |run| ==> run[k] == s.worker.sent[k];
  }

  /** The registrations among the actions before the fatal one. */
  lemma RegisteredBefore(s: State, earlier: seq<Action>, fatal: Action)
    requires Vector(s) && Executed(s.worker) == earlier + [fatal] && fatal.Fatal?
    ensures s.registered == Added(earlier)
    ensures forall id :: id in s.registered <==> AddSink(id) in earlier
  {
    AddedSnoc(earlier, fatal);
    forall id
      ensures id in s.registered <==> AddSink(id) in earlier
    {
      AddedIs(earlier, id);
    }
  }

  /** The fatal path: when the process ends, the worker has run exactly the actions up to the first
      fatal one, and every sink registered before it has seen all messages due before it, then the
      fatal message, and nothing after. */
  lemma FatalDelivers(states: seq<State>, events: seq<Event>, i: nat)
    requires Run(states, events) && i < |states| && states[i].pc.Exited?
    ensures var s := states[i];
      var sent := Enqueued(events[..i]);
      && 0 < s.worker.ran <= |sent| && sent[s.worker.ran - 1].Fatal?
      && var earlier, fatal := sent[..s.worker.ran - 1], sent[s.worker.ran - 1];
      && (forall k :: 0 <= k < |earlier| ==> !earlier[k].Fatal? && earlier[k] != StopWorker)
      && s.registered == Added(earlier)
      && forall id :: id in s.registered ==> HasSeen(s, id, Due(earlier, id) + [fatal.msg])
  {
    InvRun(states, events, i);
    SentIsEnqueued(states, events, i);
    var s := states[i];
    ExitedFacts(s);
    var earlier, fatal := s.worker.sent[..s.worker.ran - 1], s.worker.sent[s.worker.ran - 1];
    RegisteredBefore(s, earlier, fatal);
    hide Inv, Run, HasSeen, Due, Added, Executed, Enqueued;
    forall id | id in s.registered
      ensures HasSeen(s, id, Due(earlier, id) + [fatal.msg])
    {
      FatalSeen(s, earlier, fatal, id);
    }
  }

  lemma FatalSeen(s: State, earlier: seq<Action>, fatal: Action, id: SinkId)
    requires Inv(s) && s.pc.Exited? && Executed(s.worker) == earlier + [fatal] && fatal.Fatal? && id in s.registered
    ensures HasSeen(s, id, Due(earlier, id) + [fatal.msg])
  {
    assert DoneBelow(s, |s.registered|);
    RegisteredBefore(s, earlier, fatal);
    hide Inv, HasSeen, Due, Added, Executed, DoneBelow;
    var k :| 0 <= k < |s.registered| && s.registered[k] == id;
    FlushedSink(s, k);
    DueSnoc(earlier, fatal, id);
  }

  // ----- The same, event by event

  /** A message sent by event k, to be delivered to sink id: the sink was added by an earlier event,
      and the destructor had not started. */
  ghost predicate ToDeliver(events: seq<Event>, id: SinkId, k: int) {
    && 0 <= k < |events| && events[k].Send? && (events[k].a.Save? || events[k].a.Fatal?)
    && (exists j :: 0 <= j < k && events[j] == Send(AddSink(id)))
    && forall j :: 0 <= j < k ==> !events[j].StartDestructor?
  }

  ghost function Deliveries(events: seq<Event>, id: SinkId): set<int> {
    set k | 0 <= k < |events| && ToDeliver(events, id, k)
  }

  /** The actions before and including the stop action. */
  ghost function Accepted(events: seq<Event>): seq<Action> {
    UpTo(Enqueued(events), StopWorker)
  }

  ghost predicate Stopping(events: seq<Event>) {
    exists j :: 0 <= j < |events| && events[j].StartDestructor?
  }

  ghost predicate NoStopSent(events: seq<Event>) {
    forall j :: 0 <= j < |events| ==> events[j] != Send(StopWorker)
  }

  lemma ToDeliverSnoc(events: seq<Event>, e: Event, id: SinkId)
    ensures var now := events + [e];
      && (forall k :: 0 <= k < |events| ==> (ToDeliver(now, id, k) <==> ToDeliver(events, id, k)))
      && (ToDeliver(now, id, |events|) <==>
        (e.Send? && (e.a.Save? || e.a.Fatal?) && Send(AddSink(id)) in events && !Stopping(events)))
  {
    var now := events + [e];
    assert forall j :: 0 <= j < |events| ==> now[j] == events[j];
  }

  lemma {:induction false} EnqueuedHas(events: seq<Event>, id: SinkId)
    requires NoStopSent(events)
    ensures StopWorker in Enqueued(events) <==> Stopping(events)
    ensures AddSink(id) in Enqueued(events) <==> Send(AddSink(id)) in events
  {
    if events != [] {
      var front, e := Front(events), Last(events);
      assert events == front + [e];
      EnqueuedHas(front, id);
      EnqueuedSnoc(front, e);
      assert Stopping(events) <==> Stopping(front) || e.StartDestructor?;
      hide Enqueued, Stopping;
    }
  }

  lemma {:induction false} UpToWhole<A>(acts: seq<A>, stop: A)
    requires stop !in acts
    ensures UpTo(acts, stop) == acts
  {
    if acts != [] {
      UpToWhole(acts[1..], stop);
    }
  }

  lemma AcceptedSnoc(events: seq<Event>, e: Event, id: SinkId)
    requires NoStopSent(events) && e != Send(StopWorker)
    ensures Stopping(events) ==> Accepted(events + [e]) == Accepted(events)
    ensures !Stopping(events) ==> Accepted(events + [e]) == Accepted(events) + EnqueuedBy(e)
    ensures !Stopping(events) ==> (AddSink(id) in Accepted(events) <==> Send(AddSink(id)) in events)
  {
    EnqueuedSnoc(events, e);
    EnqueuedHas(events, id);
    var acts := Enqueued(events);
    UpToSnoc(acts, StopWorker, StopWorker);
    if e.Send? {
      UpToSnoc(acts, e.a, StopWorker);
    }
    assert acts + [] == acts;
    if StopWorker !in acts {
      UpToWhole(acts, StopWorker);
    }
    hide Stopping, Enqueued, UpTo;
  }

  lemma DeliveriesSnoc(events: seq<Event>, e: Event, id: SinkId)
    ensures |Deliveries(events + [e], id)|
         == |Deliveries(events, id)| + if ToDeliver(events + [e], id, |events|) then 1 else 0
  {
    var now, was := events + [e], Deliveries(events, id);
    ToDeliverSnoc(events, e, id);
    hide ToDeliver;
    assert Deliveries(now, id) == was + if ToDeliver(now, id, |events|) then {|events|} else {};
  }

  /** Event k's message is the one behind those of the deliveries before it. */
  ghost predicate StandsAt(msgs: seq<Msg>, events: seq<Event>, id: SinkId, k: int)
    requires ToDeliver(events, id, k)
  {
    var at := |Deliveries(events[..k], id)|;
    at < |msgs| && msgs[at] == events[k].a.msg
  }

  lemma StandsStill(msgs: seq<Msg>, more: seq<Msg>, events: seq<Event>, e: Event, id: SinkId, k: int)
    requires ToDeliver(events, id, k) && StandsAt(msgs, events, id, k)
    ensures ToDeliver(events + [e], id, k) && StandsAt(msgs + more, events + [e], id, k)
  {
    ToDeliverSnoc(events, e, id);
    assert (events + [e])[..k] == events[..k];
  }

  lemma DueOfAccepted(events: seq<Event>, e: Event, id: SinkId)
    requires NoStopSent(events) && e != Send(StopWorker)
    ensures Due(Accepted(events + [e]), id)
         == Due(Accepted(events), id) + if ToDeliver(events + [e], id, |events|) then [e.a.msg] else []
  {
    AcceptedSnoc(events, e, id);
    ToDeliverSnoc(events, e, id);
    DueSnoc(Accepted(events), StopWorker, id);
    if e.Send? {
      DueSnoc(Accepted(events), e.a, id);
    }
    assert Accepted(events) + [] == Accepted(events);
    hide Accepted, Due, ToDeliver, Stopping;
  }

  /** What is due to a sink, read off the events: as many messages as deliveries, each in its place. */
  lemma {:induction false} DueIsDeliveries(events: seq<Event>, id: SinkId)
    requires NoStopSent(events)
    ensures |Due(Accepted(events), id)| == |Deliveries(events, id)|
    ensures forall k :: ToDeliver(events, id, k) ==> StandsAt(Due(Accepted(events), id), events, id, k)
  {
    if events == [] {
      assert Deliveries(events, id) == {};
    } else {
      var front, e := Front(events), Last(events);
      assert events == front + [e];
      DueIsDeliveries(front, id);
      DeliveriesSnoc(front, e, id);
      DueOfAccepted(front, e, id);
      var was, now := Due(Accepted(front), id), Due(Accepted(events), id);
      hide Accepted, Due, Deliveries;
      forall k | ToDeliver(events, id, k)
        ensures StandsAt(now, events, id, k)
      {
        if k == |front| {
          assert events[..k] == front;
        } else {
          ToDeliverSnoc(front, e, id);
          StandsStill(was, now[|was|..], front, e, id, k);
          assert was + now[|was|..] == now;
        }
      }
    }
  }

  lemma NoStopInRun(states: seq<State>, events: seq<Event>, i: nat)
    requires Run(states, events) && i <= |events|
    ensures NoStopSent(events[..i])
  {
    forall j | 0 <= j < i
      ensures events[j] != Send(StopWorker)
    {
      assert Enabled(states[j], events[j]);
    }
  }

  /** Some client added the sink before the destructor began. */
  ghost predicate AddedInTime(events: seq<Event>, id: SinkId) {
    exists k :: 0 <= k < |events| && events[k] == Send(AddSink(id)) && !Stopping(events[..k])
  }

  lemma {:induction false} AcceptedSinks(events: seq<Event>, id: SinkId)
    requires NoStopSent(events)
    ensures AddSink(id) in Accepted(events) <==> AddedInTime(events, id)
  {
    if events != [] {
      var front, e := Front(events), Last(events);
      assert events == front + [e];
      AcceptedSinks(front, id);
      AcceptedSnoc(front, e, id);
      hide Accepted, Stopping;
      forall k | 0 <= k < |front|
        ensures events[..k] == front[..k] && events[k] == front[k]
      {}
      assert events[..|front|] == front;
    }
  }

  /** After the destructor every sink added in time has seen just the messages that clients sent after
      that and before the destructor began, each in its place: stated on the events of the run alone. */
  lemma EveryMessageArrives(states: seq<State>, events: seq<Event>, i: nat, id: SinkId)
    requires Run(states, events) && i < |states| && states[i].destructor.Finished? && AddedInTime(events[..i], id)
    ensures var s := states[i];
      && id in s.sinks && s.sinks[id].ran <= |s.sinks[id].sent|
      && |Seen(s.sinks[id])| == |Deliveries(events[..i], id)|
      && forall k :: ToDeliver(events[..i], id, k) ==> StandsAt(Seen(s.sinks[id]), events[..i], id, k)
  {
    DestructorDelivers(states, events, i);
    NoStopInRun(states, events, i);
    AcceptedSinks(events[..i], id);
    DueIsDeliveries(events[..i], id);
    AddedIs(Accepted(events[..i]), id);
    assert HasSeen(states[i], id, Due(Accepted(events[..i]), id));
  }

  lemma MultisetSnoc<A>(xs: seq<A>, x: A, y: A)
    ensures multiset(xs + [x])[y] == multiset(xs)[y] + if x == y then 1 else 0
  {}

  ghost function CallCount(o: Active<SinkAction>): nat {
    multiset(o.sent)[Call]
  }

  lemma SentCounts(o: Active<SinkAction>, a: SinkAction)
    ensures CallCount(Sent(o, a)) == CallCount(o) + if a == Call then 1 else 0
  {
    MultisetSnoc(o.sent, a, Call);
  }

  /** What a step does to a sink that is there: it is sent something, it runs, or nothing happens. */
  lemma SinkAfter(s: State, e: Event, id: SinkId)
    requires Enabled(s, e) && id in s.sinks
    ensures id in Next(s, e).sinks
    ensures var o, o' := s.sinks[id], Next(s, e).sinks[id];
      if e == CallSink(id) then o' == Sent(o, Call)
      else o'.sent == o.sent || o' == Sent(o, StopSink) || (s.pc.FanOut? && o' == Sent(o, Deliver(s.pc.msg)))
  {}

  lemma CallsStep(s: State, e: Event, id: SinkId)
    requires Enabled(s, e) && id in Next(s, e).sinks
    ensures id in s.sinks ==>
      CallCount(Next(s, e).sinks[id]) == CallCount(s.sinks[id]) + if e == CallSink(id) then 1 else 0
    ensures id !in s.sinks ==> Next(s, e).sinks[id].sent == [] && e != CallSink(id)
  {
    if id in s.sinks {
      var o := s.sinks[id];
      SinkAfter(s, e, id);
      SentCounts(o, Call);
      SentCounts(o, StopSink);
      if s.pc.FanOut? {
        SentCounts(o, Deliver(s.pc.msg));
      }
      hide Sent, Next, Enabled;
    }
  }

  /** A call through a handle reaches its sink, once. */
  lemma {:induction false} CallsAreSent(states: seq<State>, events: seq<Event>, i: nat, id: SinkId)
    requires Run(states, events) && i < |states|
    ensures i <= |events|
    ensures id in states[i].sinks ==> CallCount(states[i].sinks[id]) == multiset(events[..i])[CallSink(id)]
    ensures id !in states[i].sinks ==> CallSink(id) !in events[..i]
  {
    assert |states| == |events| + 1 && states[0].sinks == map[];
    if i > 0 {
      var k := i - 1;
      var s, t, e, done, now := states[k], states[i], events[k], events[..k], events[..i];
      assert Enabled(s, e) && t == Next(s, e) && now == done + [e] by {
        RunStep(states, events, k);
      }
      CallsAreSent(states, events, k, id);
      MultisetSnoc(done, e, CallSink(id));
      if id in t.sinks {
        CallsStep(s, e, id);
      } else {
        SinksStay(s, e, id);
      }
      hide Run, Next, Enabled;
    }
  }

  lemma SinksStay(s: State, e: Event, id: SinkId)
    requires Enabled(s, e) && id !in Next(s, e).sinks
    ensures id !in s.sinks && e != CallSink(id)
  {}

  // ----- Runs do deliver

  lemma OneMoreStep(states: seq<State>, events: seq<Event>, e: Event, t: State)
    requires Run(states, events) && Enabled(Last(states), e) && t == Next(Last(states), e)
    ensures Run(states + [t], events + [e]) && Last(states + [t]) == t
  {
    hide Enabled, Next;
  }

  /** A client adds a sink, and the worker registers it. */
  lemma ASinkIsAdded(id: SinkId) returns (states: seq<State>, events: seq<Event>)
    ensures Run(states, events)
    ensures Last(states) == State(Active([AddSink(id)], 1, false), Idle, map[id := NewActive()], [id], NotStarted)
  {
    var s1 := State(Active([AddSink(id)], 0, false), Idle, map[id := NewActive()], [], NotStarted);
    var s2 := State(Active([AddSink(id)], 1, false), Idle, map[id := NewActive()], [id], NotStarted);
    assert Next(Init(), Send(AddSink(id))) == s1 by {
      assert [] + [AddSink(id)] == [AddSink(id)];
    }
    assert Next(s1, Take) == s2 by {
      assert [] + [id] == [id];
    }
    states, events := [Init()], [];
    assert Run(states, events);
    hide Run, Next;
    OneMoreStep(states, events, Send(AddSink(id)), s1);
    states, events := states + [s1], events + [Send(AddSink(id))];
    OneMoreStep(states, events, Take, s2);
    states, events := states + [s2], events + [Take];
  }

  /** A client sends a message, and the worker hands it on. */
  lemma AMessageIsSent(id: SinkId, m: Msg) returns (states: seq<State>, events: seq<Event>)
    ensures Run(states, events)
    ensures Last(states).worker == Active([AddSink(id), Save(m)], 2, false) && Last(states).pc == Idle
    ensures Last(states).sinks == map[id := Active([Deliver(m)], 0, false)]
    ensures Last(states).registered == [id] && Last(states).destructor == NotStarted
  {
    states, events := ASinkIsAdded(id);
    var s := Last(states);
    var acts := [AddSink(id), Save(m)];
    var s1 := s.(worker := Active(acts, 1, false));
    var s2 := s.(worker := Active(acts, 2, false), pc := FanOut(m, 0, false));
    var s3 := s2.(sinks := map[id := Active([Deliver(m)], 0, false)], pc := FanOut(m, 1, false));
    var s4 := s3.(pc := Idle);
    assert Enabled(s, Send(Save(m))) && Next(s, Send(Save(m))) == s1 by {
      assert [AddSink(id)] + [Save(m)] == acts;
    }
    assert Next(s1, Take) == s2;
    assert Next(s2, SendNext) == s3 by {
      assert [] + [Deliver(m)] == [Deliver(m)];
    }
    assert Next(s3, SentAll) == s4;
    hide Run, Next;
    OneMoreStep(states, events, Send(Save(m)), s1);
    states, events := states + [s1], events + [Send(Save(m))];
    OneMoreStep(states, events, Take, s2);
    states, events := states + [s2], events + [Take];
    OneMoreStep(states, events, SendNext, s3);
    states, events := states + [s3], events + [SendNext];
    OneMoreStep(states, events, SentAll, s4);
    states, events := states + [s4], events + [SentAll];
  }

  /** The destructor starts, the worker stops and the sink is told to. */
  lemma TheWorkerStops(id: SinkId, m: Msg) returns (states: seq<State>, events: seq<Event>)
    ensures Run(states, events)
    ensures Last(states).worker.done && Last(states).pc == Idle && Last(states).registered == [id]
    ensures Last(states).sinks == map[id := Active([Deliver(m), StopSink], 0, false)]
    ensures Last(states).destructor == JoiningSink(0)
  {
    states, events := AMessageIsSent(id, m);
    var s := Last(states);
    var acts := [AddSink(id), Save(m), StopWorker];
    var s1 := s.(worker := Active(acts, 2, false), destructor := JoiningWorker);
    var s2 := s1.(worker := Active(acts, 3, true));
    var s3 := s2.(destructor := StoppingSink(0));
    var s4 := s3.(sinks := map[id := Active([Deliver(m), StopSink], 0, false)], destructor := JoiningSink(0));
    assert Enabled(s, StartDestructor) && Next(s, StartDestructor) == s1 by {
      assert [AddSink(id), Save(m)] + [StopWorker] == acts;
    }
    assert Next(s1, Take) == s2 && Next(s2, JoinWorker) == s3;
    assert Next(s3, StopNextSink) == s4 by {
      assert [Deliver(m)] + [StopSink] == [Deliver(m), StopSink];
    }
    hide Run, Next;
    OneMoreStep(states, events, StartDestructor, s1);
    states, events := states + [s1], events + [StartDestructor];
    OneMoreStep(states, events, Take, s2);
    states, events := states + [s2], events + [Take];
    OneMoreStep(states, events, JoinWorker, s3);
    states, events := states + [s3], events + [JoinWorker];
    OneMoreStep(states, events, StopNextSink, s4);
    states, events := states + [s4], events + [StopNextSink];
  }

  /** The sink runs the message and then its stop action. */
  lemma TheSinkRuns(id: SinkId, m: Msg) returns (states: seq<State>, events: seq<Event>)
    ensures Run(states, events) && Last(states).pc == Idle && Last(states).registered == [id]
    ensures Last(states).sinks == map[id := Active([Deliver(m), StopSink], 2, true)]
    ensures Last(states).destructor == JoiningSink(0)
  {
    states, events := TheWorkerStops(id, m);
    var s := Last(states);
    var acts := [Deliver(m), StopSink];
    var s1, s2 := s.(sinks := map[id := Active(acts, 1, false)]), s.(sinks := map[id := Active(acts, 2, true)]);
    assert Enabled(s, RunSink(id)) && Next(s, RunSink(id)) == s1;
    assert Enabled(s1, RunSink(id)) && Next(s1, RunSink(id)) == s2;
    hide Run, Next;
    OneMoreStep(states, events, RunSink(id), s1);
    states, events := states + [s1], events + [RunSink(id)];
    OneMoreStep(states, events, RunSink(id), s2);
    states, events := states + [s2], events + [RunSink(id)];
  }

  lemma SeenOne(s: State, id: SinkId, m: Msg)
    requires s.sinks == map[id := Active([Deliver(m), StopSink], 2, true)]
    ensures HasSeen(s, id, [m])
  {
    var one := [Deliver(m)];
    MessagesSnoc([], Deliver(m));
    MessagesSnoc(one, StopSink);
    assert Messages([]) == [] && [] + one == one && one + [StopSink] == [Deliver(m), StopSink];
    assert [Deliver(m), StopSink][..2] == [Deliver(m), StopSink];
    hide Messages;
  }

  /** Runs do deliver: in this one the destructor returns, and the sink has seen the message. */
  lemma AMessageArrives(id: SinkId, m: Msg) returns (states: seq<State>, events: seq<Event>)
    ensures Run(states, events) && Last(states).destructor.Finished? && HasSeen(Last(states), id, [m])
  {
    states, events := TheSinkRuns(id, m);
    var s := Last(states);
    var s1, s2 := s.(destructor := StoppingSink(1)), s.(destructor := Finished);
    assert Enabled(s, JoinNextSink) && Next(s, JoinNextSink) == s1;
    assert Enabled(s1, FinishDestructor) && Next(s1, FinishDestructor) == s2;
    SeenOne(s2, id, m);
    hide Run, Next, HasSeen;
    OneMoreStep(states, events, JoinNextSink, s1);
    states, events := states + [s1], events + [JoinNextSink];
    OneMoreStep(states, events, FinishDestructor, s2);
    states, events := states + [s2], events + [FinishDestructor];
  }

  /** A step some thread of the pipeline can take by itself. */
  predicate Internal(e: Event) {
    !e.Send? && !e.CallSink? && !e.StartDestructor?
  }

  /** Shutting down never gets stuck: once the destructor has started, until it returns, and once the
      worker has begun a callback, a fatal one among them, until it is through or the process ends,
      some thread can take a step. */
  lemma ShutdownNeverStuck(states: seq<State>, events: seq<Event>, i: nat)
    requires Run(states, events) && i < |states|
    requires var s := states[i];
      !s.pc.Exited? && (!s.pc.Idle? || (!s.destructor.NotStarted? && !s.destructor.Finished?))
    ensures exists e :: Internal(e) && Enabled(states[i], e)
  {
    InvRun(states, events, i);
    hide Inv, Enabled;
    var s := states[i];
    var e;
    if s.pc.FanOut? || s.pc.Clearing? {
      e := BusyWorkerSteps(s);
    } else if s.destructor.JoiningWorker? {
      e := IdleWorkerSteps(s);
    } else {
      e := DestructorSteps(s);
    }
    assert Internal(e) && Enabled(s, e);
  }

  // ----- How long it takes

  /** What the sinks of the list have still to run. */
  function Waiting(sinks: map<SinkId, Active<SinkAction>>, ids: seq<SinkId>): nat {
    if ids == [] then 0 else
      var id := ids[|ids| - 1];
      Waiting(sinks, Front(ids)) + if id in sinks && sinks[id].ran <= |sinks[id].sent|
        then |sinks[id].sent| - sinks[id].ran else 0
  }

  /** A callback the worker has begun, with n sinks in all: two for each sink still to be sent the
      message (one to send, one to run it), three for each still to be stopped and joined. */
  function PcWork(pc: WorkerPc, n: int): int {
    match pc
    case Idle => 0
    case FanOut(_, i, fatal) => 2 * (n - i) + 1 + if fatal then 3 * n + 1 else 0
    case Clearing(i, told) => 3 * (n - i) + if told then -1 else 1
    case Exited => 0
  }

  function DestructorWork(d: Destructor, n: int): int {
    match d
    case NotStarted => 0
    case JoiningWorker => 3 * n + 2
    case StoppingSink(i) => 3 * (n - i) + 1
    case JoiningSink(i) => 3 * (n - i) - 1
    case Finished => 0
  }

  /** Actions not taken yet: each pays for a whole callback. */
  function QueuedWork(pending: int, n: int): int {
    pending * (5 * n + 3)
  }

  /** The steps the pipeline can still take by itself, at most. */
  function Remaining(s: State): int {
    var n := |Added(s.worker.sent)|;
    QueuedWork(|s.worker.sent| - s.worker.ran, n) + PcWork(s.pc, n) + DestructorWork(s.destructor, n)
      + Waiting(s.sinks, Added(s.worker.sent))
  }

  lemma {:induction false} WaitingSame(a: map<SinkId, Active<SinkAction>>, b: map<SinkId, Active<SinkAction>>,
                                       ids: seq<SinkId>, id: SinkId)
    requires id !in ids && forall k :: k != id ==> (k in a <==> k in b) && (k in a ==> a[k] == b[k])
    ensures Waiting(a, ids) == Waiting(b, ids)
  {
    if ids != [] {
      WaitingSame(a, b, Front(ids), id);
      assert ids[|ids| - 1] in ids;
    }
  }

  /** One sink's change is the change of the sum. */
  lemma {:induction false} WaitingChanged(a: map<SinkId, Active<SinkAction>>, id: SinkId, o: Active<SinkAction>,
                                          ids: seq<SinkId>)
    requires id in ids && id in a && forall i, j :: 0 <= i < j < |ids| ==> ids[i] != ids[j]
    requires a[id].ran <= |a[id].sent| && o.ran <= |o.sent|
    ensures Waiting(a[id := o], ids) - (|o.sent| - o.ran) == Waiting(a, ids) - (|a[id].sent| - a[id].ran)
  {
    var last := ids[|ids| - 1];
    if last == id {
      WaitingSame(a, a[id := o], Front(ids), id);
    } else {
      assert id in Front(ids) by {
        var k :| 0 <= k < |ids| && ids[k] == id;
        assert Front(ids)[k] == id;
      }
      WaitingChanged(a, id, o, Front(ids));
    }
  }

  lemma {:induction false} AddedPrefix(acts: seq<Action>, n: nat)
    requires n <= |acts|
    ensures |Added(acts[..n])| <= |Added(acts)|
  {
    if n < |acts| {
      AddedPrefix(Front(acts), n);
      assert Front(acts)[..n] == acts[..n];
    } else {
      assert acts[..n] == acts;
    }
  }

  /** A sink's part of a step: what it has still to run changes by `change`. */
  lemma SinkWork(s: State, id: SinkId, o: Active<SinkAction>, change: int)
    requires Objects(s) && Vector(s) && id in s.sinks && o.ran <= |o.sent|
    requires |o.sent| - o.ran == |s.sinks[id].sent| - s.sinks[id].ran + change
    ensures Waiting(s.sinks[id := o], Added(s.worker.sent)) == Waiting(s.sinks, Added(s.worker.sent)) + change
  {
    AddedOnce(s.worker.sent);
    AddedIs(s.worker.sent, id);
    hide Waiting, Added;
    WaitingChanged(s.sinks, id, o, Added(s.worker.sent));
  }

  lemma OneActionLess(pending: int, n: int)
    ensures QueuedWork(pending - 1, n) == QueuedWork(pending, n) - (5 * n + 3)
  {}

  lemma QueuedNatural(pending: nat, n: nat)
    ensures QueuedWork(pending, n) >= 0
  {}

  /** The pipeline's indices never pass the number of sinks. */
  lemma IndicesBounded(s: State)
    requires Inv(s)
    ensures |s.registered| <= |Added(s.worker.sent)|
    ensures s.pc.FanOut? || s.pc.Clearing? ==> s.pc.i <= |s.registered|
    ensures s.pc.Clearing? && s.pc.told ==> s.pc.i < |s.registered|
    ensures s.destructor.StoppingSink? || s.destructor.JoiningSink? ==> s.destructor.i <= |s.registered|
    ensures s.destructor.JoiningSink? ==> s.destructor.i < |s.registered|
  {
    AddedPrefix(s.worker.sent, s.worker.ran);
  }

  lemma RemainingNatural(s: State)
    requires Inv(s)
    ensures Remaining(s) >= 0
  {
    IndicesBounded(s);
    hide Added, Waiting, Vector, Control, Delivered, Stops, Joined, QueuedWork;
    QueuedNatural(|s.worker.sent| - s.worker.ran, |Added(s.worker.sent)|);
  }

  lemma RemainingOf(s: State)
    ensures var n := |Added(s.worker.sent)|;
      Remaining(s) == QueuedWork(|s.worker.sent| - s.worker.ran, n) + PcWork(s.pc, n) + DestructorWork(s.destructor, n)
        + Waiting(s.sinks, Added(s.worker.sent))
  {}

  /** Taking an action pays for the whole of the callback it begins. */
  lemma TakeCounts(s: State)
    requires Inv(s) && Enabled(s, Take)
    ensures Remaining(Next(s, Take)) < Remaining(s)
  {
    hide Added, Waiting, Vector, Control, Delivered, Stops, Joined, Remaining, Objects, QueuedWork;
    var s' := Next(s, Take);
    assert s'.worker.sent == s.worker.sent && s'.sinks == s.sinks && s'.destructor == s.destructor;
    var n := |Added(s.worker.sent)|;
    assert PcWork(s'.pc, n) < 5 * n + 3;
    RemainingOf(s);
    RemainingOf(s');
    OneActionLess(|s.worker.sent| - s.worker.ran, n);
  }

  /** Where only the positions of the worker and the destructor change, they decide. */
  lemma LessWork(s: State, t: State)
    requires t.worker == s.worker && t.sinks == s.sinks
    requires var n := |Added(s.worker.sent)|;
      PcWork(t.pc, n) + DestructorWork(t.destructor, n) < PcWork(s.pc, n) + DestructorWork(s.destructor, n)
    ensures Remaining(t) < Remaining(s)
  {
    RemainingOf(s);
    RemainingOf(t);
    hide *;
  }

  /** A step of the worker that sends nothing. */
  lemma WorkerStepCounts(s: State, e: Event)
    requires Inv(s) && Enabled(s, e) && (e.SentAll? || e.JoinTold? || e.Exit?)
    ensures Remaining(Next(s, e)) < Remaining(s)
  {
    IndicesBounded(s);
    hide Added, Waiting, Inv, Remaining, QueuedWork;
    var t := Next(s, e);
    var n := |Added(s.worker.sent)|;
    assert PcWork(t.pc, n) < PcWork(s.pc, n) by {
      hide DestructorWork;
    }
    LessWork(s, t);
  }

  lemma DestructorMoves(d: Destructor, to: Destructor, k: int, n: int)
    requires k <= n
    requires (d.JoiningWorker? && to == StoppingSink(0))
      || (d.JoiningSink? && to == StoppingSink(d.i + 1))
      || (d.StoppingSink? && d.i == k && to == Finished)
    ensures DestructorWork(to, n) < DestructorWork(d, n)
  {}

  lemma DestructorChanges(s: State, e: Event)
    requires Enabled(s, e) && (e.JoinWorker? || e.JoinNextSink? || e.FinishDestructor?)
    ensures var t, d := Next(s, e), s.destructor;
      && t.pc == s.pc && t.worker == s.worker && t.sinks == s.sinks
      && ((d.JoiningWorker? && t.destructor == StoppingSink(0))
        || (d.JoiningSink? && t.destructor == StoppingSink(d.i + 1))
        || (d.StoppingSink? && d.i == |s.registered| && t.destructor == Finished))
  {}

  lemma RegisteredBounded(s: State)
    requires Vector(s)
    ensures |s.registered| <= |Added(s.worker.sent)|
  {
    AddedPrefix(s.worker.sent, s.worker.ran);
  }

  /** A step of the destructor that sends nothing. */
  lemma DestructorStepCounts(s: State, e: Event)
    requires Inv(s) && Enabled(s, e) && (e.JoinWorker? || e.JoinNextSink? || e.FinishDestructor?)
    ensures Remaining(Next(s, e)) < Remaining(s)
  {
    RegisteredBounded(s);
    DestructorChanges(s, e);
    hide *;
    var t := Next(s, e);
    DestructorMoves(s.destructor, t.destructor, |s.registered|, |Added(s.worker.sent)|);
    LessWork(s, t);
  }

  /** A step that sends a sink something, or in which a sink runs something. */
  lemma SinkStepCounts(s: State, e: Event)
    requires Inv(s) && Enabled(s, e) && (e.SendNext? || e.TellSink? || e.StopNextSink? || e.RunSink?)
    ensures Remaining(Next(s, e)) < Remaining(s)
  {
    hide Added, Waiting, Vector, Control, Delivered, Stops, Joined, Remaining, QueuedWork;
    var s' := Next(s, e);
    var id := match e
      case SendNext => s.registered[s.pc.i]
      case TellSink => s.registered[s.pc.i]
      case StopNextSink => s.registered[s.destructor.i]
      case RunSink(id) => id;
    assert s'.sinks == s.sinks[id := s'.sinks[id]] && s'.worker == s.worker;
    SinkWork(s, id, s'.sinks[id], if e.RunSink? then -1 else 1);
    RemainingOf(s);
    RemainingOf(s');
  }

  /** Every step the pipeline takes by itself leaves it with fewer to take. */
  lemma InternalStepCounts(s: State, e: Event)
    requires Inv(s) && Enabled(s, e) && Internal(e)
    ensures Remaining(Next(s, e)) < Remaining(s)
  {
    hide Inv, Enabled, Next, Remaining;
    if e.SendNext? || e.TellSink? || e.StopNextSink? || e.RunSink? {
      SinkStepCounts(s, e);
    } else if e.Take? {
      TakeCounts(s);
    } else if e.SentAll? || e.JoinTold? || e.Exit? {
      WorkerStepCounts(s, e);
    } else {
      DestructorStepCounts(s, e);
    }
  }

  /** Left alone the pipeline comes to rest, however its threads are scheduled: it takes no more
      steps than are remaining. Once the destructor has started it can only rest finished. */
  lemma {:induction false} ShutdownEnds(states: seq<State>, events: seq<Event>, i: nat, j: nat)
    requires Run(states, events) && i <= j < |states| && forall k :: i <= k < j ==> Internal(events[k])
    ensures 0 <= Remaining(states[j]) <= Remaining(states[i]) - (j - i)
  {
    hide Inv, Enabled, Next, Remaining;
    InvRun(states, events, j);
    RemainingNatural(states[j]);
    if i < j {
      ShutdownEnds(states, events, i, j - 1);
      InvRun(states, events, j - 1);
      InternalStepCounts(states[j - 1], events[j - 1]);
    }
  }

  lemma BusyWorkerSteps(s: State) returns (e: Event)
    requires Inv(s) && (s.pc.FanOut? || s.pc.Clearing?)
    ensures Internal(e) && Enabled(s, e)
  {
    SinkRegistered(s, s.pc.i);
    if s.pc.FanOut? {
      e := if s.pc.i < |s.registered| then SendNext else SentAll;
    } else {
      e := ClearingSteps(s);
    }
  }

  lemma ClearingSteps(s: State) returns (e: Event)
    requires Inv(s) && s.pc.Clearing? && (s.pc.i < |s.registered| ==> HasSink(s, s.pc.i))
    ensures Internal(e) && Enabled(s, e)
  {
    hide Vector, Delivered, Stops, Objects;
    if s.pc.told {
      StoppableSink(s, s.pc.i);
      e := if s.sinks[s.registered[s.pc.i]].done then JoinTold else RunSink(s.registered[s.pc.i]);
    } else {
      e := if s.pc.i < |s.registered| then TellSink else Exit;
    }
  }

  lemma IdleWorkerSteps(s: State) returns (e: Event)
    requires Inv(s) && s.pc.Idle? && s.destructor.JoiningWorker?
    ensures Internal(e) && Enabled(s, e)
  {
    StoppableWorker(s);
    e := if s.worker.done then JoinWorker else Take;
  }

  lemma DestructorSteps(s: State) returns (e: Event)
    requires Inv(s) && s.pc.Idle? && (s.destructor.StoppingSink? || s.destructor.JoiningSink?)
    ensures Internal(e) && Enabled(s, e)
  {
    hide Vector, Delivered, Stops, Control;
    if s.destructor.StoppingSink? {
      SinkRegistered(s, s.destructor.i);
      e := if s.destructor.i < |s.registered| then StopNextSink else FinishDestructor;
    } else {
      StoppableSink(s, s.destructor.i);
      e := if s.sinks[s.registered[s.destructor.i]].done then JoinNextSink else RunSink(s.registered[s.destructor.i]);
    }
  }

  lemma SinkRegistered(s: State, i: nat)
    requires Inv(s) && i <= |s.registered|
    ensures i < |s.registered| ==> HasSink(s, i)
  {
    RegisteredIs(s);
    if i < |s.registered| {
      assert AddSink(s.registered[i]) in Executed(s.worker);
      assert AddSink(s.registered[i]) in s.worker.sent;
    }
  }

  lemma StoppableWorker(s: State)
    requires Inv(s) && StopWorker in s.worker.sent
    ensures s.worker.done || CanRun(s.worker)
  {
    if !s.worker.done {
      StopNotRunYet(s.worker, StopWorker);
    }
  }

  lemma StoppableSink(s: State, i: nat)
    requires Inv(s) && HasSink(s, i) && StopSink in s.sinks[s.registered[i]].sent
    ensures s.sinks[s.registered[i]].done || CanRun(s.sinks[s.registered[i]])
  {
    if !s.sinks[s.registered[i]].done {
      StopNotRunYet(s.sinks[s.registered[i]], StopSink);
    }
  }

  lemma StopNotRunYet<A>(o: Active<A>, stop: A)
    requires ActiveOk(o, stop) && stop in o.sent && !o.done
    ensures CanRun(o)
  {
    var k :| 0 <= k < |o.sent| && o.sent[k] == stop;
    assert k >= o.ran;
  }
}
