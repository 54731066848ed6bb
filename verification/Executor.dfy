/**
 The async executor and the keyboard stream as interleaved atomic steps. An interrupt may run
 between any two steps of the main thread while interrupts are enabled; the handler itself runs to
 its end, because it is entered with interrupts disabled.
 */
module Executor {
  import opened Wrappers
  import opened Bytes

  type TaskId = nat

  const QUEUE_CAPACITY: nat := 100

  /** What the main thread does next. */
  datatype Pc =
    | Boot                    // tasks are being spawned
    | Pop                     // take an id from the ready queue
    | Dequeued(id: TaskId)    // look the task up and its waker
    | PollTask(id: TaskId)    // poll a task other than the keyboard task
    | FastPop                 // the keyboard task: first look at the scancode queue
    | Register                // register the waker
    | SlowPop                 // second look at the scancode queue
    | TakeWaker(code: Byte)   // drop the registration again
    | DisableInterrupts       // the ready queue was empty
    | CheckIdle               // interrupts are disabled: look at the ready queue once more
    | Halted                  // interrupts enabled and the processor stopped
    | Panicked                // a queue was full

  /**
   The shared state. The fields after `waker` are history: what was accepted from the keyboard,
   what the task received, which tasks finished, which were woken since their last poll began,
   and which ids were polled, in order.
   */
  datatype State = State(
    pc: Pc, tasks: set<TaskId>, ready: seq<TaskId>, cache: set<TaskId>, nextId: TaskId,
    keyboard: Option<TaskId>, initialised: bool, scancodes: seq<Byte>, waker: Option<TaskId>,
    accepted: seq<Byte>, delivered: seq<Byte>, finished: set<TaskId>, woken: set<TaskId>, polls: seq<TaskId>)

  const INITIAL := State(Boot, {}, [], {}, 0, None, false, [], None, [], [], {}, {}, [])

  /** Steps of the main thread carry the choices of the code that is not modelled. */
  datatype Action =
    | Spawn(keyboard: bool)
    | Run
    | Main(wakes: seq<TaskId>, done: bool)
    | Key(code: Byte)
    | Timer

  predicate InterruptsEnabled(s: State) {
    !s.pc.CheckIdle? && !s.pc.Panicked?
  }

  /** Push onto the ready queue; a full queue panics. */
  function Push(s: State, id: TaskId): State {
    if |s.ready| < QUEUE_CAPACITY then s.(ready := s.ready + [id], woken := s.woken + {id})
    else s.(pc := Panicked)
  }

  function PushAll(s: State, ids: seq<TaskId>): State {
    if |ids| == 0 then s
    else
      var t := PushAll(s, ids[..|ids| - 1]);
      if t.pc.Panicked? then t else Push(t, ids[|ids| - 1])
  }

  /** A task gets the next id and is queued at once. There is at most one keyboard task. */
  function SpawnTask(s: State, keyboard: bool): State {
    if !s.pc.Boot? || (keyboard && s.keyboard.Some?) then s
    else
      var id := s.nextId;
      Push(s.(tasks := s.tasks + {id}, nextId := id + 1, keyboard := if keyboard then Some(id) else s.keyboard), id)
  }

  /** Wake whatever is registered, if anything. */
  function Wake(s: State): State {
    if s.waker.None? then s else Push(s.(waker := None), s.waker.value)
  }

  /** The keyboard interrupt: queue the scancode and wake, or drop it. */
  function KeyInterrupt(s: State, code: Byte): State {
    if !InterruptsEnabled(s) then s
    else
      var t := if s.pc.Halted? then s.(pc := Pop) else s;
      if !t.initialised || |t.scancodes| >= QUEUE_CAPACITY then t
      else Wake(t.(scancodes := t.scancodes + [code], accepted := t.accepted + [code]))
  }

  /** One step of the main thread. */
  function MainStep(s: State, wakes: seq<TaskId>, done: bool): State {
    match s.pc
    case Boot => s
    case Pop =>
      if |s.ready| == 0 then s.(pc := DisableInterrupts)
      else s.(pc := Dequeued(s.ready[0]), ready := s.ready[1..])
    case Dequeued(id) =>
      if id !in s.tasks then s.(pc := Pop)
      else
        var t := s.(cache := s.cache + {id}, woken := s.woken - {id}, polls := s.polls + [id]);
        if s.keyboard == Some(id) then t.(pc := FastPop, initialised := true)
        else t.(pc := PollTask(id))
    case PollTask(id) =>
      var t := PushAll(s.(pc := Pop), wakes);
      if t.pc.Panicked? || !done then t
      else t.(tasks := t.tasks - {id}, cache := t.cache - {id}, finished := t.finished + {id})
    case FastPop =>
      if |s.scancodes| > 0 then s.(scancodes := s.scancodes[1..], delivered := s.delivered + [s.scancodes[0]])
      else s.(pc := Register)
    case Register => s.(pc := SlowPop, waker := s.keyboard)
    case SlowPop =>
      if |s.scancodes| > 0 then s.(pc := TakeWaker(s.scancodes[0]), scancodes := s.scancodes[1..])
      else s.(pc := Pop)
    case TakeWaker(code) => s.(pc := FastPop, waker := None, delivered := s.delivered + [code])
    case DisableInterrupts => s.(pc := CheckIdle)
    case CheckIdle => s.(pc := if |s.ready| == 0 then Halted else Pop)
    case Halted => s
    case Panicked => s
  }

  function Next(s: State, a: Action): State {
    match a
    case Spawn(keyboard) => SpawnTask(s, keyboard)
    case Run => if s.pc.Boot? then s.(pc := Pop) else s
    case Main(wakes, done) => MainStep(s, wakes, done)
    case Key(code) => KeyInterrupt(s, code)
    case Timer => if s.pc.Halted? then s.(pc := Pop) else s
  }

  function Exec(s: State, actions: seq<Action>): State {
    if |actions| == 0 then s else Next(Exec(s, actions[..|actions| - 1]), actions[|actions| - 1])
  }

  // ----- the invariant

  /** The main thread is inside a poll of the keyboard task. */
  predicate PollingKeyboard(s: State) {
    s.pc.FastPop? || s.pc.Register? || s.pc.SlowPop? || s.pc.TakeWaker?
  }

  /** `id` will be looked at: it is queued, or it is the one just taken from the queue. */
  predicate Due(s: State, id: TaskId) {
    id in s.ready || s.pc == Dequeued(id)
  }

  /** Task bookkeeping: ids are unique and spent ones stay spent. */
  ghost predicate TasksInv(s: State) {
    && (forall id :: id in s.tasks || id in s.finished ==> id < s.nextId)
    && s.tasks !! s.finished
    && s.cache <= s.tasks
    && (s.keyboard.Some? ==> s.keyboard.value in s.tasks)
    && (s.pc.PollTask? ==> s.pc.id in s.tasks && s.keyboard != Some(s.pc.id))
    && (PollingKeyboard(s) ==> s.keyboard.Some? && s.initialised)
    && (s.initialised ==> s.keyboard.Some? && !s.pc.Boot?)
  }

  /** A task woken since its last poll began is due. */
  ghost predicate WokenInv(s: State) {
    && |s.ready| <= QUEUE_CAPACITY
    && forall id :: id in s.woken && id in s.tasks ==> Due(s, id)
  }

  /** The keyboard task is due, or it is registered and there is nothing for it to see. */
  ghost predicate NoLostWakeup(s: State) {
    && (s.waker.Some? ==> s.waker == s.keyboard)
    && (!s.initialised ==> s.scancodes == [] && s.waker.None?)
    && (s.keyboard.Some? ==>
          var kb := s.keyboard.value;
          && (s.pc.SlowPop? ==> Due(s, kb) || s.waker.Some?)
          && (!PollingKeyboard(s) ==> Due(s, kb) || (s.waker.Some? && s.scancodes == [])))
  }

  /** Received, in flight and still queued together are what was accepted, in order. */
  ghost predicate InOrder(s: State) {
    s.accepted == s.delivered + (if s.pc.TakeWaker? then [s.pc.code] else []) + s.scancodes
  }

  /** The processor stops only with both queues empty. */
  ghost predicate HaltInv(s: State) {
    s.pc.Halted? ==> s.ready == [] && s.scancodes == []
  }

  ghost predicate Inv(s: State) {
    || s.pc.Panicked?
    || (TasksInv(s) && WokenInv(s) && NoLostWakeup(s) && InOrder(s) && HaltInv(s)
        && |s.scancodes| <= QUEUE_CAPACITY)
  }

  lemma PushKeeps(s: State, id: TaskId)
    requires TasksInv(s) && WokenInv(s) && NoLostWakeup(s) && InOrder(s)
    requires !s.pc.Halted? && !s.pc.Panicked?
    ensures var t := Push(s, id);
      || t.pc.Panicked?
      || (TasksInv(t) && WokenInv(t) && NoLostWakeup(t) && InOrder(t)
          && t == s.(ready := t.ready, woken := t.woken))
  {
  }

  lemma {:induction false} PushAllKeeps(s: State, ids: seq<TaskId>)
    requires TasksInv(s) && WokenInv(s) && NoLostWakeup(s) && InOrder(s)
    requires !s.pc.Halted? && !s.pc.Panicked?
    ensures var t := PushAll(s, ids);
      || t.pc.Panicked?
      || (TasksInv(t) && WokenInv(t) && NoLostWakeup(t) && InOrder(t)
          && t == s.(ready := t.ready, woken := t.woken))
  {
    if |ids| > 0 {
      PushAllKeeps(s, ids[..|ids| - 1]);
      var t := PushAll(s, ids[..|ids| - 1]);
      if !t.pc.Panicked? { PushKeeps(t, ids[|ids| - 1]); }
    }
  }

  lemma SpawnKeeps(s: State, keyboard: bool)
    requires Inv(s)
    ensures Inv(SpawnTask(s, keyboard))
  {
  }

  /** The handler keeps the invariant at every point where it can run. */
  lemma KeyKeeps(s: State, code: Byte)
    requires Inv(s)
    ensures Inv(KeyInterrupt(s, code))
  {
    if InterruptsEnabled(s) {
      var t := if s.pc.Halted? then s.(pc := Pop) else s;
      assert Inv(t);
      if t.initialised && |t.scancodes| < QUEUE_CAPACITY {
        var u := t.(scancodes := t.scancodes + [code], accepted := t.accepted + [code]);
        assert InOrder(u);
        if u.waker.Some? {
          assert u.waker == u.keyboard;
        }
      }
    }
  }

  lemma PollKeeps(s: State, wakes: seq<TaskId>, done: bool)
    requires Inv(s) && s.pc.PollTask?
    ensures Inv(MainStep(s, wakes, done))
  {
    var u := s.(pc := Pop);
    assert TasksInv(u) && WokenInv(u) && NoLostWakeup(u) && InOrder(u);
    PushAllKeeps(u, wakes);
  }

  lemma MainKeeps(s: State, wakes: seq<TaskId>, done: bool)
    requires Inv(s)
    ensures Inv(MainStep(s, wakes, done))
  {
    var t := MainStep(s, wakes, done);
    match s.pc
    case PollTask(_) => PollKeeps(s, wakes, done);
    case Pop =>
      if |s.ready| > 0 {
        assert forall id :: id in s.ready ==> id == s.ready[0] || id in s.ready[1..];
      }
    case _ =>
  }

  lemma NextKeeps(s: State, a: Action)
    requires Inv(s)
    ensures Inv(Next(s, a))
  {
    match a
    case Spawn(keyboard) => SpawnKeeps(s, keyboard);
    case Run =>
    case Main(wakes, done) => MainKeeps(s, wakes, done);
    case Key(code) => KeyKeeps(s, code);
    case Timer =>
  }

  /** Every reachable state satisfies the invariant, under every interleaving. */
  lemma {:induction false} ReachableInv(actions: seq<Action>)
    ensures Inv(Exec(INITIAL, actions))
  {
    if |actions| > 0 {
      ReachableInv(actions[..|actions| - 1]);
      NextKeeps(Exec(INITIAL, actions[..|actions| - 1]), actions[|actions| - 1]);
    }
  }
}
