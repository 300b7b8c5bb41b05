/** `shared_queue.hpp`: a queue under a mutex with a condition variable, any number of producers
    and consumers, one step for each thing another thread could observe. */
module SharedQueue {
  import opened Basics

  type Tid = nat

  /** Who holds the mutex, and how far it has come. */
  datatype Lock<T> = Free
    | Pushing(t: Tid, item: T)   // a producer, before queue_.push
    | Pushed(t: Tid)             // a producer, after it
    | Checking(t: Tid)           // a consumer at the test of the wait loop

  datatype State<T> = State(
    items: seq<T>,
    lock: Lock<T>,
    notifying: set<Tid>,  // producers that released the mutex but have not called notify_one
    asleep: set<Tid>,     // consumers inside data_cond_.wait
    woken: set<Tid>,      // consumers that left the wait but do not have the mutex back yet
    popped: seq<T>)       // every item ever popped

  datatype Event<T> =
    | LockToPush(t: Tid, item: T)
    | Push
    | UnlockPushed
    | Notify(t: Tid, woken: Tid)  // notify_one; `woken` is the sleeper it picks, if there is one
    | LockToPop(t: Tid)
    | LockAgain(t: Tid)
    | Wait
    | Pop
    | TryPop
    | Spurious(t: Tid)

  function Init<T>(): State<T> {
    State([], Free, {}, {}, {}, [])
  }

  /** The thread is doing nothing with the queue. */
  ghost predicate Outside<T>(s: State<T>, t: Tid) {
    t !in s.notifying && t !in s.asleep && t !in s.woken && (s.lock.Free? || s.lock.t != t)
  }

  ghost predicate Enabled<T(!new)>(s: State<T>, e: Event<T>) {
    match e
    case LockToPush(t, _) => s.lock.Free? && Outside(s, t)
    case Push => s.lock.Pushing?
    case UnlockPushed => s.lock.Pushed?
    case Notify(t, w) => t in s.notifying && (s.asleep == {} || w in s.asleep)
    case LockToPop(t) => s.lock.Free? && Outside(s, t)
    case LockAgain(t) => s.lock.Free? && t in s.woken
    case Wait => s.lock.Checking? && s.items == []
    case Pop => s.lock.Checking? && s.items != []
    case TryPop => s.lock.Free?
    case Spurious(t) => t in s.asleep
  }

  function TakeFront<T>(s: State<T>): State<T>
    requires s.items != []
  {
    s.(items := s.items[1..], popped := s.popped + [s.items[0]])
  }

  ghost function Next<T(!new)>(s: State<T>, e: Event<T>): State<T>
    requires Enabled(s, e)
  {
    match e
    case LockToPush(t, x) => s.(lock := Pushing(t, x))
    case Push => s.(items := s.items + [s.lock.item], lock := Pushed(s.lock.t))
    case UnlockPushed => s.(lock := Free, notifying := s.notifying + {s.lock.t})
    case Notify(t, w) =>
      var told := s.(notifying := s.notifying - {t});
      if s.asleep == {} then told else told.(asleep := s.asleep - {w}, woken := s.woken + {w})
    case LockToPop(t) => s.(lock := Checking(t))
    case LockAgain(t) => s.(lock := Checking(t), woken := s.woken - {t})
    case Wait => s.(lock := Free, asleep := s.asleep + {s.lock.t})
    case Pop => TakeFront(s).(lock := Free)
    case TryPop => if s.items == [] then s else TakeFront(s)
    case Spurious(t) => s.(asleep := s.asleep - {t}, woken := s.woken + {t})
  }

  /** The states of a run: the initial one, then one per event. */
  ghost predicate Run<T(!new)>(states: seq<State<T>>, events: seq<Event<T>>) {
    && |states| == |events| + 1
    && states[0] == Init()
    && forall i :: 0 <= i < |events| ==> Enabled(states[i], events[i]) && states[i + 1] == Next(states[i], events[i])
  }

  lemma RunStep<T(!new)>(states: seq<State<T>>, events: seq<Event<T>>, i: nat)
    requires Run(states, events) && i < |events|
    ensures |states| == |events| + 1 && Enabled(states[i], events[i]) && states[i + 1] == Next(states[i], events[i])
    ensures events[..i + 1] == events[..i] + [events[i]]
  {
    hide Enabled, Next;
  }

  // ----- Invariants

  /** A thread is in one place only. */
  ghost predicate Apart<T>(s: State<T>) {
    && s.notifying !! s.asleep !! s.woken
    && (!s.lock.Free? ==> s.lock.t !in s.notifying && s.lock.t !in s.asleep && s.lock.t !in s.woken)
  }

  /** Threads on their way to look at the queue, or to have someone look at it. */
  function OnTheWay<T>(s: State<T>): nat {
    |s.notifying| + |s.woken| + if s.lock.Pushed? || s.lock.Checking? then 1 else 0
  }

  /** While someone sleeps, each waiting item has a thread on its way. */
  ghost predicate Served<T>(s: State<T>) {
    s.asleep != {} ==> |s.items| <= OnTheWay(s)
  }

  ghost predicate Inv<T>(s: State<T>) {
    Apart(s) && Served(s)
  }

  lemma ApartStep<T(!new)>(s: State<T>, e: Event<T>)
    requires Apart(s) && Enabled(s, e)
    ensures Apart(Next(s, e))
  {}

  lemma SizeWith<A>(xs: set<A>, x: A)
    ensures x !in xs ==> |xs + {x}| == |xs| + 1
    ensures x in xs ==> |xs - {x}| == |xs| - 1
  {}

  lemma ServedStep<T(!new)>(s: State<T>, e: Event<T>)
    requires Apart(s) && Served(s) && Enabled(s, e)
    ensures Served(Next(s, e))
  {
    match e
    case UnlockPushed => SizeWith(s.notifying, s.lock.t);
    case Notify(t, w) => ServedNotify(s, t, w);
    case LockAgain(t) => SizeWith(s.woken, t);
    case Spurious(t) => SizeWith(s.woken, t);
    case _ =>
  }

  /** A notify hands its part on to the thread it wakes. */
  lemma ServedNotify<T(!new)>(s: State<T>, t: Tid, w: Tid)
    requires Apart(s) && Served(s) && Enabled(s, Notify(t, w))
    ensures Served(Next(s, Notify(t, w)))
  {
    SizeWith(s.notifying, t);
    SizeWith(s.woken, w);
  }

  lemma InvStep<T(!new)>(s: State<T>, e: Event<T>)
    requires Inv(s) && Enabled(s, e)
    ensures Inv(Next(s, e))
  {
    hide Next, Apart, Served, Enabled;
    ApartStep(s, e);
    ServedStep(s, e);
  }

  lemma {:induction false} InvRun<T(!new)>(states: seq<State<T>>, events: seq<Event<T>>, i: nat)
    requires Run(states, events) && i < |states|
    ensures Inv(states[i])
  {
    if i > 0 {
      InvRun(states, events, i - 1);
      InvStep(states[i - 1], events[i - 1]);
    }
  }

  // ----- What every run guarantees

  /** The item of the last producer that took the mutex. */
  function LockedBy<T>(events: seq<Event<T>>): seq<T> {
    if events == [] then [] else
      if Last(events).LockToPush? then [Last(events).item] else LockedBy(Front(events))
  }

  /** The items pushed, in order: a Push is by the last producer that took the mutex. */
  function PushedBy<T>(events: seq<Event<T>>): seq<T> {
    if events == [] then [] else
      PushedBy(Front(events)) + if Last(events).Push? then LockedBy(Front(events)) else []
  }

  /** The pops among the first i events: a waiting consumer's, and a try on a queue that is not empty. */
  ghost function Pops<T(!new)>(states: seq<State<T>>, events: seq<Event<T>>, i: nat): set<nat>
    requires i <= |events| && i <= |states|
  {
    set k: nat | k < i && (events[k].Pop? || (events[k].TryPop? && states[k].items != []))
  }

  lemma PopsStep<T(!new)>(states: seq<State<T>>, events: seq<Event<T>>, i: nat)
    requires i < |events| && i < |states|
    ensures |Pops(states, events, i + 1)|
         == |Pops(states, events, i)|
          + if events[i].Pop? || (events[i].TryPop? && states[i].items != []) then 1 else 0
  {
    var pops := Pops(states, events, i);
    assert Pops(states, events, i + 1)
        == pops + if events[i].Pop? || (events[i].TryPop? && states[i].items != []) then {i} else {};
  }

  /** The items pushed by the events so far, of which n were popped, are accounted for. */
  ghost predicate Account<T>(s: State<T>, done: seq<Event<T>>, n: nat) {
    && PushedBy(done) == s.popped + s.items
    && (s.lock.Pushing? ==> LockedBy(done) == [s.lock.item])
    && |s.popped| == n
  }

  lemma AccountStep<T(!new)>(s: State<T>, e: Event<T>, done: seq<Event<T>>, n: nat)
    requires Enabled(s, e) && Account(s, done, n)
    ensures Account(Next(s, e), done + [e], n + if e.Pop? || (e.TryPop? && s.items != []) then 1 else 0)
  {
    var now := done + [e];
    assert Front(now) == done && Last(now) == e;
  }

  lemma AccountStart<T(!new)>(states: seq<State<T>>, events: seq<Event<T>>)
    requires Run(states, events)
    ensures Account(states[0], events[..0], |Pops(states, events, 0)|)
  {
    assert Pops(states, events, 0) == {};
  }

  lemma {:induction false} AccountRun<T(!new)>(states: seq<State<T>>, events: seq<Event<T>>, i: nat)
    requires Run(states, events) && i < |states|
    ensures i <= |events| && Account(states[i], events[..i], |Pops(states, events, i)|)
  {
    assert |states| == |events| + 1;
    hide *;
    if i == 0 {
      AccountStart(states, events);
    } else {
      var k := i - 1;
      var s, t, e, done, now := states[k], states[i], events[k], events[..k], events[..i];
      assert Enabled(s, e) && t == Next(s, e) && now == done + [e] by {
        RunStep(states, events, k);
      }
      AccountRun(states, events, k);
      PopsStep(states, events, k);
      AccountStep(s, e, done, |Pops(states, events, k)|);
    }
  }

  /** Items come out in the order they were pushed, none lost and none twice: those popped, one for
      each pop, and then those waiting are the ones pushed. */
  lemma FirstInFirstOut<T(!new)>(states: seq<State<T>>, events: seq<Event<T>>, i: nat)
    requires Run(states, events) && i < |states|
    ensures PushedBy(events[..i]) == states[i].popped + states[i].items
    ensures |states[i].popped| == |Pops(states, events, i)|
  {
    AccountRun(states, events, i);
  }

  /** The item of the producer in charge at event k: it took the mutex at j, and nobody has since. */
  lemma {:induction false} LockedItem<T>(events: seq<Event<T>>, j: nat)
    requires j < |events| && events[j].LockToPush? && forall l :: j < l < |events| ==> !events[l].LockToPush?
    ensures LockedBy(events) == [events[j].item]
  {
    if j < |events| - 1 {
      LockedItem(Front(events), j);
    }
  }

  /** The items pushed later stand behind. */
  lemma {:induction false} PushedPrefix<T>(events: seq<Event<T>>, k: nat)
    requires k <= |events|
    ensures PushedBy(events[..k]) <= PushedBy(events)
  {
    if k < |events| {
      PushedPrefix(Front(events), k);
      assert Front(events)[..k] == events[..k];
    } else {
      assert events[..k] == events;
    }
  }

  /** Event by event: each push puts the item of its producer behind the items pushed before, and
      there are as many items as pushes. */
  lemma EveryPushCounts<T(!new)>(states: seq<State<T>>, events: seq<Event<T>>, i: nat, j: nat, k: nat)
    requires Run(states, events) && j < k < i <= |events| && events[j].LockToPush? && events[k].Push?
    requires forall l :: j < l < k ==> !events[l].LockToPush?
    ensures PushedBy(events[..k]) + [events[j].item] <= PushedBy(events[..i])
  {
    LockedItem(events[..k], j);
    assert Front(events[..k + 1]) == events[..k] && Last(events[..k + 1]) == events[k];
    PushedPrefix(events[..i], k + 1);
    assert events[..i][..k + 1] == events[..k + 1];
  }

  ghost function Pushes<T>(events: seq<Event<T>>): set<nat> {
    set k: nat | k < |events| && events[k].Push?
  }

  lemma PushesStep<T>(events: seq<Event<T>>, e: Event<T>)
    ensures |Pushes(events + [e])| == |Pushes(events)| + if e.Push? then 1 else 0
    ensures PushedBy(events + [e]) == PushedBy(events) + if e.Push? then LockedBy(events) else []
  {
    var now := events + [e];
    assert Front(now) == events && Last(now) == e;
    hide PushedBy, LockedBy;
    var pushes := Pushes(events);
    assert Pushes(now) == pushes + if e.Push? then {|events|} else {};
  }

  lemma {:induction false} PushCount<T(!new)>(states: seq<State<T>>, events: seq<Event<T>>, i: nat)
    requires Run(states, events) && i <= |events|
    ensures |PushedBy(events[..i])| == |Pushes(events[..i])|
  {
    if i > 0 {
      RunStep(states, events, i - 1);
      PushCount(states, events, i - 1);
      PushesStep(events[..i - 1], events[i - 1]);
      AccountRun(states, events, i - 1);
      hide Run, Next, PushedBy, LockedBy, Pushes;
    } else {
      assert Pushes(events[..0]) == {};
    }
  }

  lemma OneMoreStep<T(!new)>(states: seq<State<T>>, events: seq<Event<T>>, e: Event<T>, t: State<T>)
    requires Run(states, events) && Enabled(Last(states), e) && t == Next(Last(states), e)
    ensures Run(states + [t], events + [e]) && Last(states + [t]) == t
  {
    hide Enabled, Next;
  }

  /** A consumer goes to sleep on the empty queue. */
  lemma SleeperWaits<T(!new)>(c: Tid) returns (states: seq<State<T>>, events: seq<Event<T>>)
    ensures Run(states, events) && Last(states) == State([], Free, {}, {c}, {}, [])
  {
    var s1: State<T>, s2: State<T> := State([], Checking(c), {}, {}, {}, []), State([], Free, {}, {c}, {}, []);
    assert Next(Init(), LockToPop(c)) == s1 && Next(s1, Wait) == s2;
    OneMoreStep([Init<T>()], [], LockToPop(c), s1);
    OneMoreStep([Init<T>()] + [s1], [] + [LockToPop(c)], Wait, s2);
    states, events := [Init<T>()] + [s1] + [s2], [] + [LockToPop(c)] + [Wait];
  }

  /** A producer pushes and unlocks. */
  lemma ItemPushed<T(!new)>(x: T) returns (states: seq<State<T>>, events: seq<Event<T>>)
    ensures Run(states, events) && Last(states) == State([x], Free, {0}, {1}, {}, [])
  {
    states, events := SleeperWaits<T>(1);
    var s1, s2 := State([], Pushing(0, x), {}, {1}, {}, []), State([x], Pushed(0), {}, {1}, {}, []);
    var s3 := State([x], Free, {0}, {1}, {}, []);
    assert Enabled(Last(states), LockToPush(0, x)) && Next(Last(states), LockToPush(0, x)) == s1;
    assert Next(s1, Push) == s2 && Next(s2, UnlockPushed) == s3;
    hide Run, Next;
    OneMoreStep(states, events, LockToPush(0, x), s1);
    states, events := states + [s1], events + [LockToPush(0, x)];
    OneMoreStep(states, events, Push, s2);
    states, events := states + [s2], events + [Push];
    OneMoreStep(states, events, UnlockPushed, s3);
    states, events := states + [s3], events + [UnlockPushed];
  }

  /** Runs do push and pop: one producer's item reaches a consumer that slept waiting for it. */
  lemma AnItemArrives<T(!new)>(x: T) returns (states: seq<State<T>>, events: seq<Event<T>>)
    ensures Run(states, events) && Last(states).popped == [x] && Last(states).items == []
  {
    states, events := ItemPushed(x);
    var s4, s5 := State([x], Free, {}, {}, {1}, []), State([x], Checking(1), {}, {}, {}, []);
    var s6 := State([], Free, {}, {}, {}, [x]);
    assert Enabled(Last(states), Notify(0, 1)) && Next(Last(states), Notify(0, 1)) == s4;
    assert Next(s4, LockAgain(1)) == s5 && Next(s5, Pop) == s6;
    hide Run, Next;
    OneMoreStep(states, events, Notify(0, 1), s4);
    states, events := states + [s4], events + [Notify(0, 1)];
    OneMoreStep(states, events, LockAgain(1), s5);
    states, events := states + [s5], events + [LockAgain(1)];
    OneMoreStep(states, events, Pop, s6);
    states, events := states + [s6], events + [Pop];
  }

  /** No wake-up is lost: while a consumer sleeps and an item waits, some thread is on its way:
      a producer about to release the mutex or to notify, or a consumer about to test the queue. */
  lemma NoLostWakeUp<T(!new)>(states: seq<State<T>>, events: seq<Event<T>>, i: nat)
    requires Run(states, events) && i < |states|
    ensures var s := states[i]; s.asleep != {} && s.items != [] ==>
      s.notifying != {} || s.woken != {} || s.lock.Pushed? || s.lock.Checking?
  {
    InvRun(states, events, i);
    var s := states[i];
    if s.notifying == {} && s.woken == {} {
      assert |s.notifying| == 0 && |s.woken| == 0;
    }
  }

  ghost predicate OnlyConsumer<T(!new)>(e: Event<T>, c: Tid) {
    match e
    case LockToPop(t) => t == c
    case LockToPush(t, _) => t != c
    case _ => true
  }

  /** With a single consumer, as in an active object: when it sleeps on a non-empty queue a
      producer stands between its push and its notify. */
  lemma SingleConsumerWakeUp<T(!new)>(states: seq<State<T>>, events: seq<Event<T>>, i: nat, c: Tid)
    requires Run(states, events) && i < |states|
    requires forall k :: 0 <= k < |events| ==> OnlyConsumer(events[k], c)
    ensures var s := states[i]; c in s.asleep && s.items != [] ==> s.notifying != {} || s.lock.Pushed?
  {
    NoLostWakeUp(states, events, i);
    SoleConsumer(states, events, i, c);
    InvRun(states, events, i);
  }

  lemma {:induction false} SoleConsumer<T(!new)>(states: seq<State<T>>, events: seq<Event<T>>, i: nat, c: Tid)
    requires Run(states, events) && i < |states|
    requires forall k :: 0 <= k < |events| ==> OnlyConsumer(events[k], c)
    ensures var s := states[i];
      s.asleep <= {c} && s.woken <= {c} && (s.lock.Checking? ==> s.lock.t == c)
  {
    if i > 0 {
      SoleConsumer(states, events, i - 1, c);
      assert OnlyConsumer(events[i - 1], c);
    }
  }

  // ----- Progress without new arrivals

  /** A step that only carries on what some thread has begun. */
  ghost predicate Settles<T(!new)>(e: Event<T>) {
    e.Push? || e.UnlockPushed? || e.Notify? || e.LockAgain? || e.Wait? || e.Pop?
  }

  function Work<T>(s: State<T>): nat {
    4 * |s.notifying| + 3 * |s.woken|
      + match s.lock case Free => 0 case Pushing(_, _) => 6 case Pushed(_) => 5 case Checking(_) => 1
  }

  lemma SettlingEnds<T(!new)>(s: State<T>, e: Event<T>)
    requires Inv(s) && Enabled(s, e) && Settles(e)
    ensures Work(Next(s, e)) < Work(s)
  {
    match e
    case UnlockPushed => SizeWith(s.notifying, s.lock.t);
    case Notify(t, w) =>
      SizeWith(s.notifying, t);
      SizeWith(s.woken, w);
    case LockAgain(t) => SizeWith(s.woken, t);
    case _ =>
  }

  /** Without new arrivals a queue comes to rest, within a number of steps known beforehand. */
  lemma {:induction false} SettlesWithin<T(!new)>(states: seq<State<T>>, events: seq<Event<T>>, i: nat, j: nat)
    requires Run(states, events) && i <= j < |states| && forall k :: i <= k < j ==> Settles(events[k])
    ensures Work(states[j]) <= Work(states[i]) - (j - i)
  {
    hide Inv, Enabled, Next, Work, Settles;
    if i < j {
      SettlesWithin(states, events, i, j - 1);
      InvRun(states, events, j - 1);
      SettlingEnds(states[j - 1], events[j - 1]);
    }
  }

  /** Settling steps end (above); where none is left to take, no item waits beside a sleeper. */
  lemma SettledMeansServed<T(!new)>(s: State<T>)
    requires Inv(s) && forall e :: Settles(e) ==> !Enabled(s, e)
    ensures s.asleep == {} || s.items == []
  {
    assert !Enabled(s, Push) && !Enabled(s, UnlockPushed) && !Enabled(s, Wait) && !Enabled(s, Pop);
    assert s.lock.Free?;
    if s.notifying != {} {
      var t :| t in s.notifying;
      var w :| s.asleep == {} || w in s.asleep;
      assert Enabled(s, Notify(t, w)) && Settles<T>(Notify(t, w));
    }
    if s.woken != {} {
      var t :| t in s.woken;
      assert Enabled(s, LockAgain(t)) && Settles<T>(LockAgain(t));
    }
  }
}
