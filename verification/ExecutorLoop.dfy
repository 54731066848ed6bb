/**
 The executor and the keyboard driver as they run, with key presses falling between any two steps.
 Each method is proved to follow the interleaved steps of `Executor`: the object always stands where
 its trace of actions leads, so everything proved of all traces holds of the running code.
 */
module ExecutorLoop {
  import opened Wrappers
  import opened Bytes
  import opened Executor
  import ExecutorHistory
  import ExecutorRuns

  /** The answer of `poll_next`. `Dead` stands for a panic, after which nothing runs. */
  datatype Poll = Ready(code: Byte) | Pending | Dead

  lemma ExecSnoc(s: State, actions: seq<Action>, a: Action)
    ensures Exec(s, actions + [a]) == Next(Exec(s, actions), a)
  {
    assert (actions + [a])[..|actions|] == actions;
  }

  class Kernel {
    var tasks: set<TaskId>
    var taskQueue: seq<TaskId>
    var wakerCache: set<TaskId>
    var nextId: TaskId
    var keyboard: Option<TaskId>
    var initialised: bool
    var scancodes: seq<Byte>
    var waker: Option<TaskId>
    /** The key presses that are still to come. */
    var keys: seq<Byte>
    ghost var trace: seq<Action>

    ghost function View(): State
      reads this
    {
      Exec(INITIAL, trace)
    }

    /** The main thread stands at `pc` and the fields are those of the trace, unless it panicked. */
    ghost predicate At(pc: Pc)
      reads this
    {
      var s := View();
      && s.pc == pc
      && (pc.Panicked? || (
           && s.tasks == tasks && s.ready == taskQueue && s.cache == wakerCache && s.nextId == nextId
           && s.keyboard == keyboard && s.initialised == initialised
           && s.scancodes == scancodes && s.waker == waker))
    }

    /** Input still to be handled: it never grows. */
    function Pressure(): nat
      reads this
    {
      |keys| + |scancodes|
    }

    constructor (keys: seq<Byte>)
      ensures At(Boot) && this.keys == keys && trace == []
    {
      tasks, taskQueue, wakerCache, nextId := {}, [], {}, 0;
      keyboard, initialised, scancodes, waker := None, false, [], None;
      this.keys := keys;
      trace := [];
    }

    /** The trace takes one more step. */
    ghost method Record(a: Action)
      modifies this`trace
      ensures trace == old(trace) + [a] && View() == Next(old(View()), a)
    {
      ExecSnoc(INITIAL, trace, a);
      trace := trace + [a];
    }

    /** A waker's push onto the ready queue. */
    method WakeTask(id: TaskId) returns (ok: bool)
      modifies this`taskQueue
      ensures ok == (|old(taskQueue)| < QUEUE_CAPACITY)
      ensures taskQueue == if ok then old(taskQueue) + [id] else old(taskQueue)
    {
      ok := |taskQueue| < QUEUE_CAPACITY;
      if ok { taskQueue := taskQueue + [id]; }
    }

    /** A new task, queued at once. */
    method Spawn(isKeyboard: bool) returns (ok: bool)
      requires At(Boot) && (isKeyboard ==> keyboard.None?)
      modifies this
      ensures At(if ok then Boot else Panicked) && keys == old(keys)
      ensures trace == old(trace) + [Executor.Spawn(isKeyboard)]
    {
      hide Exec;
      Record(Executor.Spawn(isKeyboard));
      var id := nextId;
      nextId := nextId + 1;
      tasks := tasks + {id};
      if isKeyboard { keyboard := Some(id); }
      ok := WakeTask(id);
    }

    /** The interrupt handler: queue the scancode and wake the registered task. */
    method AddScancode(code: Byte, ghost pc: Pc) returns (ok: bool)
      requires At(pc) && !pc.CheckIdle? && !pc.Panicked?
      modifies this`scancodes, this`waker, this`taskQueue, this`trace
      ensures At(if !ok then Panicked else if pc.Halted? then Pop else pc)
      ensures trace == old(trace) + [Key(code)]
      ensures var took := initialised && |old(scancodes)| < 100;
        && scancodes == old(scancodes) + (if took then [code] else [])
        && View().accepted == old(View()).accepted + (if took then [code] else [])
        && waker == (if took then None else old(waker))
        && (ok <==> took && old(waker).Some? ==> |old(taskQueue)| < 100)
        && taskQueue == old(taskQueue) + (if took && old(waker).Some? && ok then [old(waker).value] else [])
      ensures View().delivered == old(View()).delivered
    {
      hide Exec, KeyInterrupt;
      ExecutorHistory.KeyExact(View(), code);
      Record(Key(code));
      ok := true;
      if initialised && |scancodes| < QUEUE_CAPACITY {
        scancodes := scancodes + [code];
        if waker.Some? {
          var id := waker.value;
          waker := None;
          ok := WakeTask(id);
        }
      }
    }

    /** Any number of key presses arrive while interrupts are enabled. */
    method Interrupts(ghost pc: Pc) returns (ok: bool)
      requires At(pc) && !pc.CheckIdle? && !pc.Panicked? && !pc.Halted?
      modifies this`scancodes, this`waker, this`taskQueue, this`trace, this`keys
      ensures At(if ok then pc else Panicked)
      ensures old(trace) <= trace && Pressure() <= old(Pressure()) && View().delivered == old(View()).delivered
    {
      hide Exec, Next;
      var n: nat := *;
      ok := true;
      while n > 0 && keys != []
        invariant ok && At(pc) && old(trace) <= trace && Pressure() <= old(Pressure())
        invariant View().delivered == old(View()).delivered
        decreases n
      {
        var code := keys[0];
        keys := keys[1..];
        ok := AddScancode(code, pc);
        if !ok { return; }
        n := n - 1;
      }
    }

    /** The stream's poll: look, register, look again. */
    method PollNext() returns (r: Poll)
      requires At(FastPop) && keyboard.Some?
      modifies this`scancodes, this`waker, this`taskQueue, this`trace, this`keys
      ensures At(match r case Ready(_) => FastPop case Pending => Pop case Dead => Panicked)
      ensures old(trace) <= trace && Pressure() <= old(Pressure())
      ensures r.Ready? ==> Pressure() < old(Pressure()) && View().delivered == old(View()).delivered + [r.code]
    {
      hide Exec;
      Record(Main([], false));
      if scancodes != [] {
        var code := scancodes[0];
        scancodes := scancodes[1..];
        return Ready(code);
      }
      r := RegisterWaker();
    }

    /** Nothing there: register the waker before looking once more. */
    method RegisterWaker() returns (r: Poll)
      requires At(Register) && keyboard.Some?
      modifies this`scancodes, this`waker, this`taskQueue, this`trace, this`keys
      ensures At(match r case Ready(_) => FastPop case Pending => Pop case Dead => Panicked)
      ensures old(trace) <= trace && Pressure() <= old(Pressure())
      ensures r.Ready? ==> Pressure() < old(Pressure()) && View().delivered == old(View()).delivered + [r.code]
    {
      hide Exec;
      var ok := Interrupts(Register);
      if !ok { return Dead; }
      Record(Main([], false));
      waker := keyboard;
      r := SecondLook();
    }

    /** The waker is registered: look at the queue again, and drop the registration if it is not needed. */
    method SecondLook() returns (r: Poll)
      requires At(SlowPop)
      modifies this`scancodes, this`waker, this`taskQueue, this`trace, this`keys
      ensures At(match r case Ready(_) => FastPop case Pending => Pop case Dead => Panicked)
      ensures old(trace) <= trace && Pressure() <= old(Pressure())
      ensures r.Ready? ==> Pressure() < old(Pressure()) && View().delivered == old(View()).delivered + [r.code]
    {
      hide Exec;
      var ok := Interrupts(SlowPop);
      if !ok { return Dead; }
      Record(Main([], false));
      if scancodes == [] { return Pending; }
      var code := scancodes[0];
      scancodes := scancodes[1..];
      ok := DropWaker(code);
      return if ok then Ready(code) else Dead;
    }

    /** The second look found a scancode, so the registration is dropped again. */
    method DropWaker(code: Byte) returns (ok: bool)
      requires At(TakeWaker(code))
      modifies this`scancodes, this`waker, this`taskQueue, this`trace, this`keys
      ensures At(if ok then FastPop else Panicked)
      ensures old(trace) <= trace && Pressure() <= old(Pressure())
      ensures ok ==> View().delivered == old(View()).delivered + [code]
    {
      hide Exec;
      ok := Interrupts(TakeWaker(code));
      if !ok { return; }
      Record(Main([], false));
      waker := None;
    }

    /** The keyboard task: take scancodes until the stream is pending. */
    method PollKeyboard() returns (ok: bool)
      requires At(FastPop) && keyboard.Some?
      modifies this`scancodes, this`waker, this`taskQueue, this`trace, this`keys
      ensures At(if ok then Pop else Panicked)
      ensures old(trace) <= trace
    {
      hide Exec;
      while true
        invariant At(FastPop) && old(trace) <= trace
        decreases Pressure()
      {
        ok := Interrupts(FastPop);
        if !ok { return; }
        var r := PollNext();
        if r.Dead? { return false; }
        if r.Pending? { return true; }
      }
    }

    /** All the wakes of one poll. */
    method WakeAll(ids: seq<TaskId>) returns (ok: bool)
      modifies this`taskQueue
      ensures ok <==> ids == [] || |old(taskQueue)| + |ids| <= QUEUE_CAPACITY
      ensures ok ==> taskQueue == old(taskQueue) + ids
    {
      ok := true;
      for i := 0 to |ids|
        invariant ok && taskQueue == old(taskQueue) + ids[..i]
        invariant i > 0 ==> |taskQueue| <= QUEUE_CAPACITY
      {
        ok := WakeTask(ids[i]);
        if !ok { return; }
      }
    }

    /** Another task: it wakes what it likes and may finish. */
    method PollOther(id: TaskId, wakes: seq<TaskId>, done: bool) returns (ok: bool)
      requires At(PollTask(id))
      modifies this`tasks, this`taskQueue, this`wakerCache, this`trace
      ensures At(if ok then Pop else Panicked)
      ensures trace == old(trace) + [Main(wakes, done)]
    {
      hide Exec, PushAll;
      ExecutorRuns.PushAllExact(View().(pc := Pop), wakes);
      Record(Main(wakes, done));
      ok := WakeAll(wakes);
      if ok && done {
        tasks := tasks - {id};
        wakerCache := wakerCache - {id};
      }
    }

    /** One turn of the loop over the ready queue. */
    method RunReadyTask() returns (ok: bool)
      requires At(Pop) && taskQueue != []
      modifies this
      ensures At(if ok then Pop else Panicked) && old(trace) <= trace
      ensures ok ==> ExecutorRuns.CountMain(trace) >= ExecutorRuns.CountMain(old(trace)) + 2
    {
      hide Exec, ExecutorRuns.CountMain;
      Record(Main([], false));
      var id := taskQueue[0];
      taskQueue := taskQueue[1..];
      ok := Interrupts(Dequeued(id));
      if !ok { return; }
      ghost var between := trace;
      if id in tasks {
        ok := PollById(id);
      } else {
        Record(Main([], false));
      }
      TwoSteps(old(trace), between, trace);
    }

    /** Look up the waker of an existing task and poll it. */
    method PollById(id: TaskId) returns (ok: bool)
      requires At(Dequeued(id)) && id in tasks
      modifies this
      ensures At(if ok then Pop else Panicked) && old(trace) + [Main([], false)] <= trace
    {
      hide Exec;
      Record(Main([], false));
      wakerCache := wakerCache + {id};
      if keyboard == Some(id) {
        initialised := true;
        ok := PollKeyboard();
      } else {
        ok := Interrupts(PollTask(id));
        if !ok { return; }
        var wakes: seq<TaskId>, done: bool := *, *;
        ok := PollOther(id, wakes, done);
      }
    }

    /** Up to `turns` turns of the loop; `idle` when the queue was found empty. */
    method RunReadyTasks(turns: nat) returns (ok: bool, idle: bool)
      requires At(Pop)
      modifies this
      ensures At(if !ok then Panicked else if idle then DisableInterrupts else Pop) && old(trace) <= trace
      ensures ok ==> ExecutorRuns.CountMain(trace) >= ExecutorRuns.CountMain(old(trace)) + if idle then 1 else 2 * turns
    {
      hide Exec, ExecutorRuns.CountMain;
      ok, idle := true, false;
      for i := 0 to turns
        invariant ok && !idle && At(Pop) && old(trace) <= trace
        invariant ExecutorRuns.CountMain(trace) >= ExecutorRuns.CountMain(old(trace)) + 2 * i
      {
        ghost var before := trace;
        ok := Interrupts(Pop);
        if !ok { return; }
        CountGrows(before, trace);
        if taskQueue == [] {
          Record(Main([], false));
          OneStep(before, trace);
          return true, true;
        }
        ok := RunReadyTask();
        if !ok { return; }
      }
    }

    /** With interrupts off, look once more; halt only if there is nothing to run. */
    method SleepIfIdle() returns (ok: bool)
      requires At(DisableInterrupts)
      modifies this
      ensures At(if ok then Pop else Panicked) && old(trace) <= trace
    {
      hide Exec;
      ok := Interrupts(DisableInterrupts);
      if !ok { return; }
      Record(Main([], false));
      Record(Main([], false));
      if taskQueue == [] { ok := WaitForInterrupt(); }
    }

    /** The processor is stopped: nothing was waiting, and the next interrupt starts it again. */
    method WaitForInterrupt() returns (ok: bool)
      requires At(Halted)
      modifies this
      ensures old(scancodes) == [] && old(taskQueue) == []
      ensures old(keyboard).Some? ==> old(waker) == old(keyboard)
      ensures At(if ok then Pop else Panicked) && old(trace) <= trace
    {
      hide Exec;
      ExecutorRuns.HaltIsSafe(trace);
      var timer: bool := *;
      if timer || keys == [] {
        Record(Timer);
        return true;
      }
      var code := keys[0];
      keys := keys[1..];
      ok := AddScancode(code, Halted);
    }

    /** The first `rounds` rounds of the executor's endless loop. */
    method RunExecutor(rounds: nat, turns: nat) returns (ok: bool)
      requires At(Boot)
      modifies this
      ensures At(if ok then Pop else Panicked) && old(trace) <= trace
      ensures ok ==> NoLostWakeup(View()) && View().delivered + scancodes == View().accepted
      ensures ok && turns > 0 ==> ExecutorRuns.CountMain(trace) >= rounds
    {
      hide Exec, ExecutorRuns.CountMain;
      Record(Executor.Run);
      ok := true;
      for i := 0 to rounds
        invariant ok && At(Pop) && old(trace) <= trace
        invariant turns > 0 ==> ExecutorRuns.CountMain(trace) >= i
      {
        var idle: bool;
        ok, idle := RunReadyTasks(turns);
        if !ok { return; }
        if idle {
          ghost var before := trace;
          ok := SleepIfIdle();
          if !ok { return; }
          CountGrows(before, trace);
        }
      }
      ReachableInv(trace);
    }
  }

  lemma {:induction false} CountGrows(a: seq<Action>, b: seq<Action>)
    requires a <= b
    ensures ExecutorRuns.CountMain(a) <= ExecutorRuns.CountMain(b)
    decreases |b|
  {
    if |a| < |b| { CountGrows(a, b[..|b| - 1]); } else { assert a == b; }
  }

  lemma OneStep(a: seq<Action>, b: seq<Action>)
    requires a < b && b[|b| - 1].Main?
    ensures ExecutorRuns.CountMain(b) >= ExecutorRuns.CountMain(a) + 1
  {
    CountGrows(a, b[..|b| - 1]);
  }

  lemma TwoSteps(a: seq<Action>, b: seq<Action>, c: seq<Action>)
    requires a + [Main([], false)] <= b && b + [Main([], false)] <= c
    ensures ExecutorRuns.CountMain(c) >= ExecutorRuns.CountMain(a) + 2
  {
    var step := Main([], false);
    CountGrows(a + [step], b);
    CountGrows(b + [step], c);
    assert (a + [step])[..|a|] == a && (b + [step])[..|b|] == b;
  }
}
