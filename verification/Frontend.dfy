/** The global side of `g3log.cpp`: which worker is active, and the one message kept from before
    there was any. */
module Frontend {
  import opened Basics

  type WorkerId = nat
  type Msg = string

  /** A message handed to a worker's `save`. */
  datatype Saved = Saved(worker: WorkerId, msg: Msg)

  datatype Op =
    | Initialize(worker: Option<WorkerId>)   // None is a null pointer
    | Push(msg: Msg)
    | ShutDown
    | ShutDownActive(active: Option<WorkerId>)   // from ~LogWorker

  const NOT_INITIALIZED := "LOGGER NOT INITIALIZED:\n\t\t"

  /** The file's globals; the once-flags never reset. */
  class Globals {
    var instance: Option<WorkerId>
    var first: Option<Msg>
    var setFirst: bool    // g_set_first_uninitialized_flag has been used
    var savedFirst: bool  // g_save_first_unintialized_flag has been used
    var saved: seq<Saved>
    ghost var ops: seq<Op>

    constructor ()
      ensures Valid() && ops == []
    {
      instance, first, setFirst, savedFirst, saved, ops := None, None, false, false, [], [];
    }

    /** The globals are what the operations so far determine. */
    ghost predicate Valid()
      reads this
    {
      && Legal(ops)
      && instance == Current(ops)
      && saved == Early(ops) + Online(ops)
      && (savedFirst <==> FirstWorker(ops).Some?)
      && (setFirst <==> first.Some?)
      && (!savedFirst ==> KeptFirst(ops, first))
    }

    /** `initializeLogging`; false stands for the exit of the process that an illegal call causes. */
    method InitializeLogging(worker: Option<WorkerId>) returns (ok: bool)
      requires Valid()
      modifies this
      ensures ok <==> old(instance) == None && worker.Some?
      ensures ok ==> Valid() && ops == old(ops) + [Initialize(worker)] && instance == worker && savedFirst
      ensures ok ==> setFirst == old(setFirst) && first == old(first)
      ensures ok && !old(savedFirst) && old(first).Some? ==>
        saved == old(saved) + [Saved(worker.value, old(first).value)]
      ensures !(ok && !old(savedFirst) && old(first).Some?) ==> saved == old(saved)
      ensures !ok ==> unchanged(this)
    {
      if instance.Some? || worker.None? {
        return false;
      }
      hide Legal, Current, Early, Online, FirstWorker, FirstPush, KeptFirst;
      SavedByInitialize(ops, worker, first);
      if !savedFirst {
        if first.Some? {
          saved := saved + [Saved(worker.value, first.value)];
        }
        savedFirst := true;
      }
      instance := worker;
      ops := ops + [Initialize(worker)];
      ok := true;
    }

    /** `pushMessageToLogger`. */
    method PushMessage(msg: Msg)
      requires Valid()
      modifies this
      ensures Valid() && ops == old(ops) + [Push(msg)] && instance == old(instance) && savedFirst == old(savedFirst)
      ensures saved == old(saved) + if instance.Some? then [Saved(instance.value, msg)] else []
      ensures first == if instance == None && !old(setFirst) then Some(NOT_INITIALIZED + msg) else old(first)
    {
      AfterPush(ops, msg);
      hide Legal, Current, Early, Online, FirstWorker, FirstPush;
      if instance.None? {
        if !setFirst {
          first, setFirst := Some(NOT_INITIALIZED + msg), true;
        }
      } else {
        saved := saved + [Saved(instance.value, msg)];
      }
      ops := ops + [Push(msg)];
    }

    method ShutDownLogging()
      requires Valid()
      modifies this
      ensures Valid() && ops == old(ops) + [ShutDown] && instance == None && saved == old(saved)
    {
      Extended(ops, ShutDown);
      instance := None;
      ops := ops + [ShutDown];
    }

    /** A worker that is not the active one is ignored. */
    method ShutDownLoggingForActiveOnly(active: Option<WorkerId>) returns (done: bool)
      requires Valid()
      modifies this
      ensures Valid() && ops == old(ops) + [ShutDownActive(active)] && saved == old(saved)
      ensures done <==> old(instance) == None || active == None || old(instance) == active
      ensures instance == if done then None else old(instance)
    {
      Extended(ops, ShutDownActive(active));
      done := !(instance.Some? && active.Some? && active != instance);
      if done {
        instance := None;
      }
      ops := ops + [ShutDownActive(active)];
    }
  }

  // ----- What the operations determine

  /** The active worker. */
  function Current(ops: seq<Op>): Option<WorkerId> {
    if ops == [] then None else
      var before := Current(Front(ops));
      match ops[|ops| - 1]
      case Initialize(w) => w
      case Push(_) => before
      case ShutDown => None
      case ShutDownActive(w) => if before.Some? && w.Some? && w != before then before else None
  }

  /** Logging is initialised with a worker, and not twice without a shutdown between. */
  ghost predicate Legal(ops: seq<Op>) {
    ops == [] ||
    (Legal(Front(ops)) && (ops[|ops| - 1].Initialize? ==> ops[|ops| - 1].worker.Some? && Current(Front(ops)) == None))
  }

  /** The worker of the first initialisation. */
  function FirstWorker(ops: seq<Op>): Option<WorkerId> {
    if ops == [] then None else
      var before := FirstWorker(Front(ops));
      if before.None? && ops[|ops| - 1].Initialize? then ops[|ops| - 1].worker else before
  }

  /** The first message pushed before the first initialisation. */
  function FirstPush(ops: seq<Op>): Option<Msg> {
    if ops == [] then None else
      var before := FirstPush(Front(ops));
      if before.None? && FirstWorker(Front(ops)).None? && ops[|ops| - 1].Push? then Some(ops[|ops| - 1].msg) else before
  }

  /** That message goes to the first worker. */
  function Early(ops: seq<Op>): seq<Saved> {
    match (FirstWorker(ops), FirstPush(ops))
    case (Some(w), Some(m)) => [Saved(w, NOT_INITIALIZED + m)]
    case _ => []
  }

  /** The messages pushed while a worker was active. */
  function Online(ops: seq<Op>): seq<Saved> {
    if ops == [] then [] else
      var front, last := Front(ops), ops[|ops| - 1];
      Online(front) + if last.Push? && Current(front).Some? then [Saved(Current(front).value, last.msg)] else []
  }

  /** The message kept is the first one, marked. */
  ghost predicate KeptFirst(ops: seq<Op>, first: Option<Msg>) {
    first == match FirstPush(ops) case None => None case Some(m) => Some(NOT_INITIALIZED + m)
  }

  // ----- Steps

  lemma Extended(ops: seq<Op>, op: Op)
    ensures Front(ops + [op]) == ops && (ops + [op])[|ops|] == op
  {}

  lemma {:induction false} SomeWorker(ops: seq<Op>)
    requires Legal(ops)
    ensures Current(ops).Some? ==> FirstWorker(ops).Some?
  {
    if ops != [] {
      SomeWorker(Front(ops));
    }
  }

  lemma {:induction false} NothingOnlineBefore(ops: seq<Op>)
    requires Legal(ops) && FirstWorker(ops).None?
    ensures Online(ops) == [] && Current(ops) == None
  {
    if ops != [] {
      NothingOnlineBefore(Front(ops));
    }
  }

  /** What an initialisation changes: the first worker is handed the first message. */
  lemma AfterInitialize(ops: seq<Op>, worker: Option<WorkerId>)
    requires Legal(ops) && Current(ops) == None && worker.Some?
    ensures var now := ops + [Initialize(worker)];
      && Legal(now) && Current(now) == worker && FirstPush(now) == FirstPush(ops) && Online(now) == Online(ops)
      && FirstWorker(now) == (if FirstWorker(ops).None? then worker else FirstWorker(ops))
      && (FirstWorker(ops).Some? ==> Early(now) == Early(ops))
      && (FirstWorker(ops).None? ==> Early(ops) == [] && Online(ops) == [])
      && (FirstWorker(ops).None? ==>
        Early(now) == match FirstPush(ops) case Some(m) => [Saved(worker.value, NOT_INITIALIZED + m)] case None => [])
  {
    Extended(ops, Initialize(worker));
    if FirstWorker(ops).None? {
      NothingOnlineBefore(ops);
    }
  }

  /** What is saved then, from the message kept in `first`. */
  lemma SavedByInitialize(ops: seq<Op>, worker: Option<WorkerId>, first: Option<Msg>)
    requires Legal(ops) && Current(ops) == None && worker.Some?
    requires FirstWorker(ops).None? ==> KeptFirst(ops, first)
    ensures Legal(ops + [Initialize(worker)]) && Current(ops + [Initialize(worker)]) == worker
    ensures FirstWorker(ops + [Initialize(worker)]).Some?
    ensures var now := ops + [Initialize(worker)];
      Early(now) + Online(now)
        == Early(ops) + Online(ops)
          + if FirstWorker(ops).None? && first.Some? then [Saved(worker.value, first.value)] else []
  {
    AfterInitialize(ops, worker);
    hide Legal, Current, Early, Online, FirstWorker, FirstPush;
  }

  /** What a push changes. */
  lemma AfterPush(ops: seq<Op>, msg: Msg)
    requires Legal(ops)
    ensures var now := ops + [Push(msg)];
      && Legal(now) && Current(now) == Current(ops) && FirstWorker(now) == FirstWorker(ops)
      && FirstPush(now) == (if FirstWorker(ops).None? && FirstPush(ops).None? then Some(msg) else FirstPush(ops))
      && Early(now) == Early(ops) && (Current(ops).Some? ==> FirstWorker(ops).Some?)
      && Online(now) == if Current(ops).Some? then Online(ops) + [Saved(Current(ops).value, msg)] else Online(ops)
  {
    Extended(ops, Push(msg));
    SomeWorker(ops);
  }

  // ----- The rule, for every run

  /** A message pushed while no worker is active is lost, now and later, when a worker was active
      before or another message came first: the run saves just what it would save without it. */
  lemma UninitializedPushIsLost(ops: seq<Op>, msg: Msg, later: seq<Op>)
    requires Current(ops) == None && (FirstWorker(ops).Some? || FirstPush(ops).Some?)
    ensures Early(ops + [Push(msg)] + later) + Online(ops + [Push(msg)] + later)
         == Early(ops + later) + Online(ops + later)
  {
    SameWithout(ops, msg, later);
  }

  /** The very first message, pushed before any worker, reaches the first worker ahead of all others. */
  lemma FirstPushIsSaved(ops: seq<Op>, msg: Msg, later: seq<Op>)
    requires FirstWorker(ops) == None && FirstPush(ops) == None && FirstWorker(ops + [Push(msg)] + later).Some?
    ensures Early(ops + [Push(msg)] + later)
         == [Saved(FirstWorker(ops + [Push(msg)] + later).value, NOT_INITIALIZED + msg)]
  {
    StaysFirst(ops, msg, later);
  }

  /** A message pushed between two sessions, and never saved. */
  lemma BetweenSessionsLost(a: WorkerId, b: WorkerId, msg: Msg)
    ensures var ops := [Initialize(Some(a)), ShutDown, Push(msg), Initialize(Some(b))];
      Legal(ops) && Early(ops) + Online(ops) == []
  {
    AfterInitialize([], Some(a));
    var one := [] + [Initialize(Some(a))];
    var two := one + [ShutDown];
    Extended(one, ShutDown);
    AfterPush(two, msg);
    AfterInitialize(two + [Push(msg)], Some(b));
    assert two + [Push(msg)] + [Initialize(Some(b))] == [Initialize(Some(a)), ShutDown, Push(msg), Initialize(Some(b))];
  }

  lemma {:induction false} StaysFirst(ops: seq<Op>, msg: Msg, later: seq<Op>)
    requires FirstWorker(ops) == None && FirstPush(ops) == None
    ensures FirstPush(ops + [Push(msg)] + later) == Some(msg)
    decreases |later|
  {
    if later == [] {
      assert ops + [Push(msg)] + later == ops + [Push(msg)];
      Extended(ops, Push(msg));
    } else {
      assert Front(ops + [Push(msg)] + later) == ops + [Push(msg)] + Front(later);
      StaysFirst(ops, msg, Front(later));
    }
  }

  lemma {:induction false} SameWithout(ops: seq<Op>, msg: Msg, later: seq<Op>)
    requires Current(ops) == None && (FirstWorker(ops).Some? || FirstPush(ops).Some?)
    ensures Current(ops + [Push(msg)] + later) == Current(ops + later)
    ensures FirstWorker(ops + [Push(msg)] + later) == FirstWorker(ops + later)
    ensures FirstPush(ops + [Push(msg)] + later) == FirstPush(ops + later)
    ensures Online(ops + [Push(msg)] + later) == Online(ops + later)
    decreases |later|
  {
    if later == [] {
      assert ops + [Push(msg)] + later == ops + [Push(msg)] && ops + later == ops;
      Extended(ops, Push(msg));
    } else {
      var l := Front(later);
      assert Front(ops + [Push(msg)] + later) == ops + [Push(msg)] + l;
      assert Front(ops + later) == ops + l;
      SameWithout(ops, msg, l);
    }
  }
}
