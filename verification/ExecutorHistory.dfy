/**
 What runs of the executor make of their input: which key presses are accepted, in what order tasks
 are taken from the ready queue, and what a poll leaves behind.
 */
module ExecutorHistory {
  import opened Wrappers
  import opened Bytes
  import opened Executor
  import opened ExecutorRuns

  // ----- key presses

  /** The handler runs, the stream exists and its queue has room. */
  predicate Room(s: State) {
    InterruptsEnabled(s) && s.initialised && |s.scancodes| < 100
  }

  /**
   A press is accepted exactly when the stream exists and fewer than 100 scancodes wait; it is then
   the newest scancode, and a registered task is queued and its registration used up.
   */
  lemma KeyExact(s: State, code: Byte)
    ensures var t := Next(s, Key(code));
      && (t.accepted == s.accepted + [code] <==> Room(s))
      && (t.scancodes == s.scancodes + [code] <==> Room(s))
      && (!Room(s) ==> t == s.(pc := t.pc))
      && (Room(s) && s.waker.None? ==> t.ready == s.ready && t.waker.None?)
      && (Room(s) && s.waker.Some? ==> t.waker.None?)
      && (Room(s) && s.waker.Some? && |s.ready| < 100 ==> t.ready == s.ready + [s.waker.value])
      && t == s.(pc := t.pc, ready := t.ready, scancodes := t.scancodes, waker := t.waker, accepted := t.accepted,
                 woken := t.woken)
      && t.pc == if Room(s) && s.waker.Some? && |s.ready| >= 100 then Panicked
                 else if s.pc.Halted? then Pop else s.pc
  {
  }

  /** The codes of the presses of a run that found room, in order. */
  ghost function Fitting(s: State, actions: seq<Action>): seq<Byte> {
    if |actions| == 0 then []
    else
      var front, a := actions[..|actions| - 1], actions[|actions| - 1];
      Fitting(s, front) + if a.Key? && Room(Exec(s, front)) then [a.code] else []
  }

  /** The number of presses that the handler saw and that found no stream or a full queue. */
  ghost function Missed(s: State, actions: seq<Action>): nat {
    if |actions| == 0 then 0
    else
      var front, a := actions[..|actions| - 1], actions[|actions| - 1];
      var t := Exec(s, front);
      Missed(s, front) + if a.Key? && InterruptsEnabled(t) && (!t.initialised || |t.scancodes| >= 100) then 1 else 0
  }

  /** The number of presses that the handler saw. */
  ghost function Handled(s: State, actions: seq<Action>): nat {
    if |actions| == 0 then 0
    else
      var front, a := actions[..|actions| - 1], actions[|actions| - 1];
      Handled(s, front) + if a.Key? && InterruptsEnabled(Exec(s, front)) then 1 else 0
  }

  lemma AcceptedStep(s: State, a: Action)
    ensures Next(s, a).accepted == s.accepted + if a.Key? && Room(s) then [a.code] else []
  {
    if a.Main? && s.pc.PollTask? { PushAllHistory(s.(pc := Pop), a.wakes); }
  }

  /** Accepted are exactly the presses that found room; nothing else is lost. */
  lemma {:induction false} PressesAccepted(s: State, actions: seq<Action>)
    ensures Exec(s, actions).accepted == s.accepted + Fitting(s, actions)
    ensures Handled(s, actions) == |Fitting(s, actions)| + Missed(s, actions)
  {
    hide Next;
    if |actions| > 0 {
      var front := actions[..|actions| - 1];
      PressesAccepted(s, front);
      AcceptedStep(Exec(s, front), actions[|actions| - 1]);
    }
  }

  /** Every press that found room is delivered, in order, within a bounded number of steps. */
  lemma PressesDelivered(before: seq<Action>, after: seq<Action>)
    ensures var s := Exec(INITIAL, before); var t := Exec(INITIAL, before + after);
      !t.pc.Panicked? && CountMain(after) >= (MAX_DELAY + 1) * (|Fitting(INITIAL, before)| - |s.delivered|) ==>
        Fitting(INITIAL, before) <= t.delivered <= Fitting(INITIAL, before + after)
  {
    hide *;
    PressesAccepted(INITIAL, before);
    PressesAccepted(INITIAL, before + after);
    NothingAccepted();
    EverythingDelivered(before, after);
    DeliveredInOrder(before + after);
  }

  lemma NothingAccepted()
    ensures INITIAL.accepted == []
  {
  }

  // ----- the ready queue

  /** What one action puts on the ready queue. */
  function Queued(s: State, a: Action): seq<TaskId> {
    match a
    case Spawn(keyboard) => if s.pc.Boot? && !(keyboard && s.keyboard.Some?) then [s.nextId] else []
    case Main(wakes, _) => if s.pc.PollTask? then wakes else []
    case Key(_) => if Room(s) && s.waker.Some? then [s.waker.value] else []
    case _ => []
  }

  /** What one action takes off the ready queue. */
  function Dequeues(s: State, a: Action): seq<TaskId> {
    if a.Main? && s.pc.Pop? && s.ready != [] then [s.ready[0]] else []
  }

  ghost function QueuedBy(s: State, actions: seq<Action>): seq<TaskId> {
    if |actions| == 0 then []
    else
      var front := actions[..|actions| - 1];
      QueuedBy(s, front) + Queued(Exec(s, front), actions[|actions| - 1])
  }

  ghost function DequeuedBy(s: State, actions: seq<Action>): seq<TaskId> {
    if |actions| == 0 then []
    else
      var front := actions[..|actions| - 1];
      DequeuedBy(s, front) + Dequeues(Exec(s, front), actions[|actions| - 1])
  }

  lemma QueueStep(s: State, a: Action)
    requires !Next(s, a).pc.Panicked?
    ensures s.ready + Queued(s, a) == Dequeues(s, a) + Next(s, a).ready
  {
    hide MainStep, KeyInterrupt;
    match a
    case Main(wakes, done) => MainQueue(s, wakes, done);
    case Key(code) => KeyExact(s, code);
    case _ =>
  }

  lemma MainQueue(s: State, wakes: seq<TaskId>, done: bool)
    requires !MainStep(s, wakes, done).pc.Panicked?
    ensures var a := Main(wakes, done); s.ready + Queued(s, a) == Dequeues(s, a) + MainStep(s, wakes, done).ready
  {
    hide PushAll;
    if s.pc.PollTask? { PushAllExact(s.(pc := Pop), wakes); }
  }

  /** The ready queue loses nothing and keeps its order: first woken, first looked at. */
  lemma {:induction false} QueueInOrder(s: State, actions: seq<Action>)
    requires !Exec(s, actions).pc.Panicked?
    ensures s.ready + QueuedBy(s, actions) == DequeuedBy(s, actions) + Exec(s, actions).ready
  {
    hide Next, Queued, Dequeues;
    if |actions| > 0 {
      var front, a := actions[..|actions| - 1], actions[|actions| - 1];
      var t := Exec(s, front);
      if t.pc.Panicked? { PanicStays(t, a); }
      QueueInOrder(s, front);
      QueueStep(t, a);
      Regroup(s.ready, QueuedBy(s, front), Queued(t, a), DequeuedBy(s, front), t.ready, Dequeues(t, a),
        Exec(s, actions).ready);
    }
  }

  lemma Regroup<T>(a: seq<T>, b: seq<T>, c: seq<T>, d: seq<T>, e: seq<T>, f: seq<T>, g: seq<T>)
    requires a + b == d + e && e + c == f + g
    ensures a + (b + c) == (d + f) + g
  {
    assert a + (b + c) == (a + b) + c == d + (e + c);
  }

  // ----- tasks

  /** A dequeued id is polled exactly when its task still exists. */
  lemma DequeuedPolled(s: State, wakes: seq<TaskId>, done: bool)
    requires s.pc.Dequeued?
    ensures var t := Next(s, Main(wakes, done)); var id := s.pc.id;
      && (t.polls == s.polls + [id] <==> id in s.tasks)
      && (id in s.tasks ==>
            && id in t.cache && id !in t.woken && t.pc == (if s.keyboard == Some(id) then FastPop else PollTask(id)))
      && (id !in s.tasks ==> t == s.(pc := Pop))
  {
  }

  /**
   A poll queues what it woke, or panics if the queue cannot hold it. A finished task leaves the
   task table and the waker cache for good; a pending one stays.
   */
  lemma PollExact(s: State, wakes: seq<TaskId>, done: bool)
    requires s.pc.PollTask?
    ensures var t := Next(s, Main(wakes, done)); var id := s.pc.id;
      && (t.pc.Panicked? <==> wakes != [] && |s.ready| + |wakes| > 100)
      && (!t.pc.Panicked? ==>
            && t.pc == Pop && t.ready == s.ready + wakes
            && (done ==> id in t.finished && t.tasks == s.tasks - {id} && t.cache == s.cache - {id})
            && (!done ==> t.finished == s.finished && t.tasks == s.tasks && t.cache == s.cache))
  {
    PushAllExact(s.(pc := Pop), wakes);
  }

  /** A spawned task is new, and waits in the ready queue, which has room for 100. */
  lemma SpawnExact(s: State, keyboard: bool)
    requires Inv(s) && s.pc.Boot? && (keyboard ==> s.keyboard.None?)
    ensures var t := Next(s, Spawn(keyboard)); var id := s.nextId;
      && id !in s.tasks && id !in s.finished && t.tasks == s.tasks + {id} && t.nextId > id
      && (t.pc.Panicked? <==> |s.ready| >= 100)
      && (!t.pc.Panicked? ==> t.ready == s.ready + [id])
      && t.keyboard == if keyboard then Some(id) else s.keyboard
  {
  }

  /** An idle executor halts within three steps if no interrupt comes, and any interrupt ends the halt. */
  lemma IdleHalts(s: State, code: Byte)
    requires s.pc == Pop && s.ready == []
    ensures var step := Main([], false);
      Exec(s, [step, step, step]) == s.(pc := Halted)
    ensures Next(s.(pc := Halted), Timer) == s
    ensures var t := Next(s.(pc := Halted), Key(code)); t.pc == Pop
  {
    hide KeyInterrupt;
    KeyExact(s.(pc := Halted), code);
    var step := Main([], false);
    var s1, s2 := s.(pc := DisableInterrupts), s.(pc := CheckIdle);
    assert Exec(s, []) == s;
    assert [step][..0] == [] && Exec(s, [step]) == s1;
    assert [step, step][..1] == [step] && Exec(s, [step, step]) == s2;
    assert [step, step, step][..2] == [step, step];
  }

  // ----- one poll of the keyboard task without interrupts

  /** `n` steps of the main thread with nothing in between. */
  function Steps(n: nat): (r: seq<Action>)
    ensures |r| == n
  {
    if n == 0 then [] else [Main([], false)] + Steps(n - 1)
  }

  lemma FirstStep(s: State, n: nat)
    ensures Exec(s, Steps(n + 1)) == Exec(Next(s, Main([], false)), Steps(n))
  {
    hide Next;
    var step := [Main([], false)];
    ExecAppend(s, step, Steps(n));
    assert step[..0] == [] && Exec(s, []) == s;
    assert Exec(s, step) == Next(s, step[0]);
  }

  /** The task takes everything that waits, in order, and stays behind registered. */
  lemma {:induction false} PollDrains(s: State)
    requires s.pc == FastPop
    ensures Exec(s, Steps(|s.scancodes| + 3))
      == s.(pc := Pop, scancodes := [], delivered := s.delivered + s.scancodes, waker := s.keyboard)
    decreases |s.scancodes|
  {
    hide Exec, Steps;
    FirstStep(s, |s.scancodes| + 2);
    var t := Next(s, Main([], false));
    if |s.scancodes| > 0 {
      PollDrains(t);
      assert s.delivered + s.scancodes == t.delivered + t.scancodes;
    } else {
      FirstStep(t, 1);
      FirstStep(Next(t, Main([], false)), 0);
      NoSteps(Next(Next(t, Main([], false)), Main([], false)));
      assert s.delivered + s.scancodes == s.delivered;
    }
  }

  lemma NoSteps(s: State)
    ensures Exec(s, Steps(0)) == s
  {
  }

  /** A scancode that comes between the two looks is taken by the second one, which undoes the registration. */
  lemma SecondLookTakes(s: State)
    requires s.pc == SlowPop && s.scancodes != []
    ensures Exec(s, Steps(2))
      == s.(pc := FastPop, scancodes := s.scancodes[1..], delivered := s.delivered + [s.scancodes[0]], waker := None)
  {
    hide Exec, Steps;
    FirstStep(s, 1);
    FirstStep(Next(s, Main([], false)), 0);
    NoSteps(Next(Next(s, Main([], false)), Main([], false)));
  }
}
