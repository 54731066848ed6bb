/** What holds of whole runs of the executor: safe halting, spent tasks, order and bounded delivery. */
module ExecutorRuns {
  import opened Executor

  /** The processor never halts while a scancode waits; the keyboard task is then registered. */
  lemma HaltIsSafe(actions: seq<Action>)
    ensures var s := Exec(INITIAL, actions);
      s.pc.Halted? ==>
        && s.scancodes == [] && s.delivered == s.accepted && s.ready == []
        && (s.keyboard.Some? ==> s.waker == s.keyboard)
  {
    ReachableInv(actions);
  }

  /** A parked keyboard task is due, or is registered with nothing to see. */
  lemma NoWakeupLost(actions: seq<Action>)
    ensures var s := Exec(INITIAL, actions);
      s.keyboard.Some? && !s.pc.Panicked? && !PollingKeyboard(s) ==>
        || s.keyboard.value in s.ready
        || s.pc == Dequeued(s.keyboard.value)
        || (s.waker == s.keyboard && s.scancodes == [])
  {
    ReachableInv(actions);
  }

  /** Scancodes arrive complete and in order. */
  lemma DeliveredInOrder(actions: seq<Action>)
    ensures var s := Exec(INITIAL, actions);
      !s.pc.Panicked? ==>
        && s.accepted == s.delivered + (if s.pc.TakeWaker? then [s.pc.code] else []) + s.scancodes
        && s.delivered <= s.accepted
  {
    ReachableInv(actions);
  }

  /** Cached wakers belong to existing tasks, and a task woken since its last poll began is due. */
  lemma WakersAndWoken(actions: seq<Action>)
    ensures var s := Exec(INITIAL, actions);
      !s.pc.Panicked? ==>
        && s.cache <= s.tasks
        && forall id :: id in s.woken && id in s.tasks ==> id in s.ready || s.pc == Dequeued(id)
  {
    ReachableInv(actions);
  }

  lemma {:induction false} ExecAppend(s: State, a: seq<Action>, b: seq<Action>)
    ensures Exec(s, a + b) == Exec(Exec(s, a), b)
  {
    if |b| == 0 {
      assert a + b == a;
    } else {
      var front := b[..|b| - 1];
      ExecAppend(s, a, front);
      assert (a + b)[..|a + b| - 1] == a + front;
    }
  }

  lemma {:induction false} ExecInv(s: State, actions: seq<Action>)
    requires Inv(s)
    ensures Inv(Exec(s, actions))
  {
    if |actions| > 0 {
      ExecInv(s, actions[..|actions| - 1]);
      NextKeeps(Exec(s, actions[..|actions| - 1]), actions[|actions| - 1]);
    }
  }

  // ----- finished tasks

  /** `t` is `s` later on: no task comes back and `id` was not polled in between. */
  ghost predicate StaysFinished(s: State, t: State, id: TaskId) {
    && id in t.finished
    && s.polls <= t.polls
    && id !in t.polls[|s.polls|..]
  }

  lemma PushAllHistory(s: State, ids: seq<TaskId>)
    ensures var t := PushAll(s, ids);
      && t.finished == s.finished && t.polls == s.polls && t.tasks == s.tasks && t.cache == s.cache
      && t.accepted == s.accepted && t.delivered == s.delivered && t.scancodes == s.scancodes
  {
  }

  function Ids(ids: seq<TaskId>): set<TaskId> {
    set id | id in ids
  }

  /** Waking `ids` appends them all, or panics if they do not fit. */
  lemma {:induction false} PushAllExact(s: State, ids: seq<TaskId>)
    requires !s.pc.Panicked?
    ensures var t := PushAll(s, ids);
      if ids == [] || |s.ready| + |ids| <= QUEUE_CAPACITY then
        t == s.(ready := s.ready + ids, woken := s.woken + Ids(ids))
      else t.pc.Panicked?
  {
    if ids == [] {
      assert s.ready + ids == s.ready;
    } else {
      var front, last := ids[..|ids| - 1], ids[|ids| - 1];
      PushAllExact(s, front);
      assert ids == front + [last];
      assert Ids(ids) == Ids(front) + {last};
      assert s.ready + ids == s.ready + front + [last];
    }
  }

  lemma FinishedStep(s: State, a: Action, id: TaskId)
    requires Inv(s) && !s.pc.Panicked? && id in s.finished
    ensures var t := Next(s, a);
      && id in t.finished
      && (t.polls == s.polls
          || (|t.polls| == |s.polls| + 1 && t.polls[..|s.polls|] == s.polls && t.polls[|s.polls|] != id))
  {
    match a
    case Main(wakes, done) => if s.pc.PollTask? { PushAllHistory(s.(pc := Pop), wakes); }
    case _ =>
  }

  lemma PanicStays(s: State, a: Action)
    requires s.pc.Panicked?
    ensures Next(s, a) == s
  {
  }

  /** A finished task is never polled again, whatever ids are still queued. */
  lemma {:induction false} FinishedNeverPolled(s: State, actions: seq<Action>, id: TaskId)
    requires Inv(s) && id in s.finished
    ensures StaysFinished(s, Exec(s, actions), id)
  {
    if |actions| > 0 {
      var front, last := actions[..|actions| - 1], actions[|actions| - 1];
      FinishedNeverPolled(s, front, id);
      ExecInv(s, front);
      var t := Exec(s, front);
      if t.pc.Panicked? { PanicStays(t, last); } else { FinishedStep(t, last, id); }
    }
  }

  // ----- bounded delivery

  /** Something accepted has not been received yet. */
  predicate Waiting(s: State) {
    |s.delivered| < |s.accepted|
  }

  /** The first position of `id` in a queue. */
  function First(q: seq<TaskId>, id: TaskId): (i: nat)
    ensures i <= |q| && (id in q <==> i < |q|)
    ensures i < |q| ==> q[i] == id
  {
    if |q| == 0 then 0 else if q[0] == id then 0 else 1 + First(q[1..], id)
  }

  lemma {:induction false} FirstAppend(q: seq<TaskId>, id: TaskId, x: TaskId)
    requires id in q
    ensures First(q + [x], id) == First(q, id)
  {
    if q[0] != id {
      FirstAppend(q[1..], id, x);
      assert (q + [x])[1..] == q[1..] + [x];
    }
  }

  /** A bound on the steps of the main thread until the keyboard task receives something. */
  function Delay(s: State): nat {
    if s.keyboard.None? then 0
    else
      var kb := s.keyboard.value;
      var i := First(s.ready, kb);
      match s.pc
      case FastPop => 0
      case TakeWaker(_) => 0
      case SlowPop => 1
      case Register => 2
      case Dequeued(id) => if id == kb then 1 else 3 * i + 5
      case Pop => 3 * i + 3
      case PollTask(_) => 3 * i + 4
      case DisableInterrupts => 3 * i + 5
      case CheckIdle => 3 * i + 4
      case _ => 0
  }

  const MAX_DELAY: nat := 3 * QUEUE_CAPACITY + 2

  ghost predicate Live(s: State) {
    Inv(s) && !s.pc.Panicked? && Waiting(s)
  }

  lemma DelayBounded(s: State)
    requires Live(s)
    ensures Delay(s) <= MAX_DELAY
    ensures !s.pc.Halted?
  {
  }

  lemma {:induction false} PushAllFirst(s: State, ids: seq<TaskId>, kb: TaskId)
    requires !s.pc.Panicked? && kb in s.ready
    ensures var t := PushAll(s, ids);
      && kb in t.ready && First(t.ready, kb) == First(s.ready, kb)
      && (t.pc.Panicked? || t.pc == s.pc) && t.keyboard == s.keyboard
  {
    if |ids| > 0 {
      PushAllFirst(s, ids[..|ids| - 1], kb);
      var t := PushAll(s, ids[..|ids| - 1]);
      FirstAppend(t.ready, kb, ids[|ids| - 1]);
    }
  }

  /** Every step of the main thread delivers or comes closer. */
  lemma MainProgress(s: State, wakes: seq<TaskId>, done: bool)
    requires Live(s)
    ensures var t := MainStep(s, wakes, done);
      t.pc.Panicked? || |t.delivered| == |s.delivered| + 1 || (t.delivered == s.delivered && Delay(t) < Delay(s))
    ensures Next(s, Main(wakes, done)) == MainStep(s, wakes, done)
  {
    hide WokenInv;
    if s.pc.PollTask? { PollProgress(s, wakes, done); }
  }

  lemma PollProgress(s: State, wakes: seq<TaskId>, done: bool)
    requires Live(s) && s.pc.PollTask?
    ensures var t := MainStep(s, wakes, done); t.pc.Panicked? || (t.delivered == s.delivered && Delay(t) < Delay(s))
  {
    hide WokenInv, First, PushAll;
    PushAllFirst(s.(pc := Pop), wakes, s.keyboard.value);
    PushAllHistory(s.(pc := Pop), wakes);
  }

  /** An interrupt never sets delivery back. */
  lemma OtherProgress(s: State, a: Action)
    requires Live(s) && !a.Main?
    ensures var t := Next(s, a); t.pc.Panicked? || (t.delivered == s.delivered && Delay(t) <= Delay(s))
  {
    if a.Key? && s.initialised && |s.scancodes| < QUEUE_CAPACITY && s.waker.Some? && !PollingKeyboard(s) {
      var kb := s.keyboard.value;
      if kb in s.ready { FirstAppend(s.ready, kb, kb); }
    }
  }

  function CountMain(actions: seq<Action>): nat {
    if |actions| == 0 then 0
    else CountMain(actions[..|actions| - 1]) + if actions[|actions| - 1].Main? then 1 else 0
  }

  /** Steps of the main thread that suffice until `n` scancodes have been received. */
  function Budget(s: State, n: nat): nat {
    if |s.delivered| >= n then 0 else (MAX_DELAY + 1) * (n - |s.delivered| - 1) + Delay(s) + 1
  }

  lemma AcceptedGrows(s: State, a: Action)
    ensures s.accepted <= Next(s, a).accepted
  {
    match a
    case Main(wakes, done) => if s.pc.PollTask? { PushAllHistory(s.(pc := Pop), wakes); }
    case _ =>
  }

  lemma BudgetStep(s: State, a: Action, n: nat)
    requires Inv(s) && !s.pc.Panicked? && n <= |s.accepted|
    ensures var t := Next(s, a);
      || t.pc.Panicked?
      || Budget(t, n) == 0
      || Budget(t, n) + (if a.Main? then 1 else 0) <= Budget(s, n)
  {
    hide Delay, Next;
    var t := Next(s, a);
    NextKeeps(s, a);
    AcceptedGrows(s, a);
    DeliveredGrows(s, a);
    if !t.pc.Panicked? && |s.delivered| < n {
      if a.Main? { MainProgress(s, a.wakes, a.done); } else { OtherProgress(s, a); }
      if |t.delivered| == |s.delivered| + 1 < n { DelayBounded(t); }
    }
  }

  lemma DeliveredGrows(s: State, a: Action)
    ensures s.delivered <= Next(s, a).delivered
  {
    match a
    case Main(wakes, done) => if s.pc.PollTask? { PushAllHistory(s.(pc := Pop), wakes); }
    case _ =>
  }

  lemma {:induction false} BudgetRun(s: State, actions: seq<Action>, n: nat)
    requires Inv(s) && !s.pc.Panicked? && n <= |s.accepted|
    ensures var t := Exec(s, actions);
      && s.accepted <= t.accepted && s.delivered <= t.delivered
      && (t.pc.Panicked? || Budget(t, n) == 0 || Budget(t, n) + CountMain(actions) <= Budget(s, n))
  {
    if |actions| > 0 {
      var front, last := actions[..|actions| - 1], actions[|actions| - 1];
      BudgetRun(s, front, n);
      ExecInv(s, front);
      var t := Exec(s, front);
      AcceptedGrows(t, last);
      DeliveredGrows(t, last);
      if t.pc.Panicked? { PanicStays(t, last); } else { BudgetStep(t, last, n); }
    }
  }

  /**
   Bounded delivery: once the main thread has taken enough steps after any reachable state, every
   scancode accepted by then has been received, in order, however the interrupts fall.
   */
  lemma EverythingDelivered(before: seq<Action>, after: seq<Action>)
    ensures var s := Exec(INITIAL, before); var t := Exec(INITIAL, before + after);
      !t.pc.Panicked? && CountMain(after) >= (MAX_DELAY + 1) * (|s.accepted| - |s.delivered|) ==>
        s.accepted <= t.delivered
  {
    hide Exec, Inv, CountMain;
    var s := Exec(INITIAL, before);
    ExecAppend(INITIAL, before, after);
    ReachableInv(before);
    DeliveredInOrder(before + after);
    if s.pc.Panicked? { PanicRun(s, after); } else { DeliveredFrom(s, after); }
  }

  lemma DeliveredFrom(s: State, actions: seq<Action>)
    requires Inv(s) && !s.pc.Panicked?
    ensures var t := Exec(s, actions);
      var enough := (MAX_DELAY + 1) * (|s.accepted| - |s.delivered|);
      !t.pc.Panicked? && CountMain(actions) >= enough && t.delivered <= t.accepted ==> s.accepted <= t.delivered
  {
    hide Delay, Inv, Exec, CountMain, Budget;
    var n, t := |s.accepted|, Exec(s, actions);
    BudgetRun(s, actions, n);
    BudgetBound(s);
    var enough := (MAX_DELAY + 1) * (n - |s.delivered|);
    if !t.pc.Panicked? && CountMain(actions) >= enough && t.delivered <= t.accepted {
      BudgetSpent(s, t, n, CountMain(actions), enough);
      PrefixWithin(s.accepted, t.delivered, t.accepted);
    }
  }

  /** A spent budget means that everything asked for was delivered. */
  lemma BudgetSpent(s: State, t: State, n: nat, steps: nat, enough: nat)
    requires Budget(t, n) == 0 || Budget(t, n) + steps <= Budget(s, n)
    requires Budget(s, n) <= enough <= steps
    ensures |t.delivered| >= n
  {
    hide Delay;
  }

  lemma PrefixWithin<T>(a: seq<T>, b: seq<T>, c: seq<T>)
    requires a <= c && b <= c && |a| <= |b|
    ensures a <= b
  {
  }

  lemma BudgetBound(s: State)
    requires Inv(s) && !s.pc.Panicked?
    ensures |s.delivered| <= |s.accepted| && Budget(s, |s.accepted|) <= (MAX_DELAY + 1) * (|s.accepted| - |s.delivered|)
  {
    if Waiting(s) { DelayBounded(s); }
  }

  lemma {:induction false} PanicRun(s: State, actions: seq<Action>)
    requires s.pc.Panicked?
    ensures Exec(s, actions) == s
  {
    if |actions| > 0 {
      PanicRun(s, actions[..|actions| - 1]);
      PanicStays(s, actions[|actions| - 1]);
    }
  }
}
