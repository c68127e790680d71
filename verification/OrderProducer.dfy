/** The order producer's start/stop protocol: a mutex-held flag, a shutdown channel and a spawned task.
    `start` and `stop` take `&mut self`, so one call runs at a time; the spawned tasks run beside them on other
    worker threads. `abort` marks a task: one that is not being polled takes no further step, one that is being
    polled goes on until it would wait. A step that is not enabled changes nothing (the party waits). */
module OrderProducer {
  import opened Options

  datatype Owner = Service | OfTask(id: nat)

  datatype TaskPc =
    | Spawned      // before `*running_clone.lock().await = true`
    | SettingOn    // holds the mutex to write true
    | Looping      // in the select loop
    | Draining     // left the loop, about to lock the mutex to write false
    | SettingOff   // holds the mutex to write false
    | Finished     // ran to its end or panicked
    | Aborted

  /** `polling`: a worker thread is executing the task. `cancelled`: aborted while it was polled. */
  datatype Task = Task(pc: TaskPc, channel: nat, polling: bool, cancelled: bool)

  /** A capacity-one channel: whether its message is buffered, and whether its sender still exists. */
  datatype Channel = Channel(message: bool, open: bool)

  datatype CallPc =
    | Idle
    | StartLocked | StartChannel | StartSpawned | StartStored
    | StopLocked | StopSent | StopAborted

  /** `on` remembers which of `start` and `stop` wrote the flag last; `ticks` counts loop steps of all tasks. */
  datatype Producer = Producer(
    running: bool, lock: Option<Owner>, call: CallPc, sender: Option<nat>, handle: Option<nat>,
    tasks: seq<Task>, channels: seq<Channel>, on: bool, ticks: nat)

  datatype Event =
    | CallStart | StartCheck | StartSpawn | StartStore | StartReturn
    | CallStop | StopCheck | StopAbort | StopReturn
    | TaskPoll(id: nat) | TaskWait(id: nat)
    | TaskLock(id: nat) | TaskSetOn(id: nat) | TaskTick(id: nat) | TaskReceive(id: nat)
    | TaskLockOff(id: nat) | TaskSetOff(id: nat) | TaskPanic(id: nat)

  const NEW := Producer(false, None, Idle, None, None, [], [], false, 0)

  predicate Live(p: Producer, id: nat) {
    id < |p.tasks| && p.tasks[id].pc != Finished && p.tasks[id].pc != Aborted
  }

  /** Task `id` is being executed and stands at `pc`. */
  predicate AtPc(p: Producer, id: nat, pc: TaskPc) {
    id < |p.tasks| && p.tasks[id].polling && p.tasks[id].pc == pc
  }

  function Move(p: Producer, id: nat, pc: TaskPc): Producer
    requires id < |p.tasks|
  {
    p.(tasks := p.tasks[id := p.tasks[id].(pc := pc)])
  }

  /** Dropping a sender closes its channel. */
  function Close(channels: seq<Channel>, sender: Option<nat>): seq<Channel> {
    if sender.Some? && sender.value < |channels|
    then channels[sender.value := channels[sender.value].(open := false)] else channels
  }

  /** `tx.send(()).await` followed by dropping `tx`. */
  function Send(channels: seq<Channel>, sender: Option<nat>): seq<Channel> {
    if sender.Some? && sender.value < |channels|
    then channels[sender.value := Channel(true, false)] else channels
  }

  predicate CanReceive(p: Producer, id: nat) {
    id < |p.tasks| && p.tasks[id].channel < |p.channels| &&
    (p.channels[p.tasks[id].channel].message || !p.channels[p.tasks[id].channel].open)
  }

  /** `abort`: cancelled at once at rest, marked while polled. */
  function Abort(t: Task): Task {
    if t.polling then t.(cancelled := true) else t.(pc := Aborted)
  }

  /** The task suspends at an await; if it is marked, that is its end. */
  function Wait(t: Task): Task {
    if t.cancelled then t.(pc := Aborted, polling := false) else t.(polling := false)
  }

  predicate AtAwait(pc: TaskPc) { pc == Spawned || pc == Looping || pc == Draining }

  function Next(p: Producer, e: Event): Producer {
    match e
    case CallStart => if p.call == Idle && p.lock == None then p.(call := StartLocked, lock := Some(Service)) else p
    case StartCheck =>
      if p.call != StartLocked then p
      else if p.running then p.(call := Idle, lock := None)
      else p.(call := StartChannel, channels := Close(p.channels, p.sender) + [Channel(false, true)],
              sender := Some(|p.channels|))
    case StartSpawn =>
      if p.call == StartChannel && p.sender.Some?
      then p.(call := StartSpawned, tasks := p.tasks + [Task(Spawned, p.sender.value, false, false)]) else p
    case StartStore =>
      if p.call == StartSpawned && p.tasks != []
      then p.(call := StartStored, handle := Some(|p.tasks| - 1)) else p
    case StartReturn =>
      if p.call == StartStored then p.(call := Idle, lock := None, running := true, on := true) else p
    case CallStop => if p.call == Idle && p.lock == None then p.(call := StopLocked, lock := Some(Service)) else p
    case StopCheck =>
      if p.call != StopLocked then p
      else if !p.running then p.(call := Idle, lock := None)
      else p.(call := StopSent, channels := Send(p.channels, p.sender), sender := None)
    case StopAbort =>
      if p.call != StopSent then p
      else if p.handle.Some? && Live(p, p.handle.value)
      then p.(tasks := p.tasks[p.handle.value := Abort(p.tasks[p.handle.value])], call := StopAborted, handle := None)
      else p.(call := StopAborted, handle := None)
    case StopReturn =>
      if p.call == StopAborted then p.(call := Idle, lock := None, running := false, on := false) else p
    case TaskPoll(id) =>
      if Live(p, id) then p.(tasks := p.tasks[id := p.tasks[id].(polling := true)]) else p
    case TaskWait(id) =>
      if Live(p, id) && p.tasks[id].polling && AtAwait(p.tasks[id].pc)
      then p.(tasks := p.tasks[id := Wait(p.tasks[id])]) else p
    case TaskLock(id) =>
      if AtPc(p, id, Spawned) && p.lock == None then Move(p, id, SettingOn).(lock := Some(OfTask(id))) else p
    case TaskSetOn(id) =>
      if AtPc(p, id, SettingOn) then Move(p, id, Looping).(running := true, lock := None) else p
    case TaskTick(id) => if AtPc(p, id, Looping) then p.(ticks := p.ticks + 1) else p
    case TaskReceive(id) => if AtPc(p, id, Looping) && CanReceive(p, id) then Move(p, id, Draining) else p
    case TaskLockOff(id) =>
      if AtPc(p, id, Draining) && p.lock == None then Move(p, id, SettingOff).(lock := Some(OfTask(id))) else p
    case TaskSetOff(id) =>
      if AtPc(p, id, SettingOff) then Move(p, id, Finished).(running := false, lock := None) else p
    case TaskPanic(id) => if AtPc(p, id, Looping) then Move(p, id, Finished) else p
  }

  function Run(p: Producer, es: seq<Event>): Producer {
    if es == [] then p else Next(Run(p, es[..|es| - 1]), es[|es| - 1])
  }

  // ---- The condition: no call of `stop` returns while the task it aborted is still being polled ----

  /** Task `id` was aborted while it was polled and has not yet had to wait. */
  predicate Lingers(p: Producer, id: nat) { Live(p, id) && p.tasks[id].cancelled }

  ghost predicate NoneLingers(p: Producer) { forall i :: !Lingers(p, i) }

  /** Every `stop` of the run returned with no aborted task lingering. */
  ghost predicate Settled(es: seq<Event>) {
    es == [] ||
    (Settled(es[..|es| - 1]) &&
     (es[|es| - 1] == StopReturn && Run(NEW, es[..|es| - 1]).call == StopAborted ==>
        NoneLingers(Run(NEW, es[..|es| - 1]))))
  }

  // ---- Invariant of settled runs ----

  /** All tasks but perhaps the last have ended. */
  ghost predicate OnlyLastLive(p: Producer) {
    forall i :: Live(p, i) ==> i == |p.tasks| - 1
  }

  ghost predicate NoneLive(p: Producer) { forall i :: !Live(p, i) }

  /** The flag is on: the last task is the stored one, it is not draining, and its channel is silent. */
  ghost predicate Running(p: Producer) {
    && p.tasks != [] && OnlyLastLive(p)
    && var last := p.tasks[|p.tasks| - 1];
       && p.handle == Some(|p.tasks| - 1) && p.sender == Some(last.channel) && !last.cancelled
       && last.channel < |p.channels| && p.channels[last.channel] == Channel(false, true)
       && last.pc in {Spawned, SettingOn, Looping, Finished}
  }

  ghost predicate Stopped(p: Producer) { NoneLive(p) && p.sender == None && p.handle == None }

  /** `stop` has sent: the last task can leave its loop. */
  ghost predicate Stopping(p: Producer) {
    && p.tasks != [] && OnlyLastLive(p) && p.sender == None && CanReceive(p, |p.tasks| - 1)
    && p.tasks[|p.tasks| - 1].pc in {Spawned, Looping, Draining, Finished, Aborted}
  }

  ghost predicate JustSpawned(p: Producer) {
    && p.tasks != [] && p.channels != [] && OnlyLastLive(p)
    && p.sender == Some(|p.channels| - 1) && p.channels[|p.channels| - 1] == Channel(false, true)
    && var last := p.tasks[|p.tasks| - 1];
       last.pc == Spawned && last.channel == |p.channels| - 1 && !last.cancelled
  }

  /** Whatever is still alive was aborted while it was polled. */
  ghost predicate LiveLinger(p: Producer) {
    forall i: nat :: Live(p, i) ==> Lingers(p, i) && p.tasks[i].polling
  }

  ghost predicate CallOk(p: Producer) {
    match p.call
    case Idle => if p.on then Running(p) else Stopped(p)
    case StartLocked => if p.on then Running(p) else Stopped(p)
    case StopLocked => if p.on then Running(p) else Stopped(p)
    case StartChannel =>
      !p.on && NoneLive(p) && p.handle == None && p.channels != [] && p.sender == Some(|p.channels| - 1) &&
      p.channels[|p.channels| - 1] == Channel(false, true)
    case StartSpawned => !p.on && JustSpawned(p) && p.handle == None
    case StartStored => !p.on && JustSpawned(p) && p.handle == Some(|p.tasks| - 1)
    case StopSent =>
      p.on && Stopping(p) && !p.tasks[|p.tasks| - 1].cancelled && p.handle == Some(|p.tasks| - 1)
    case StopAborted =>
      p.on && Stopping(p) && p.handle == None && LiveLinger(p)
  }

  /** Task `id` stands at `pc`, executed or not. */
  predicate StandsAt(p: Producer, id: nat, pc: TaskPc) { id < |p.tasks| && p.tasks[id].pc == pc }

  ghost predicate LockOk(p: Producer) {
    && (p.call != Idle <==> p.lock == Some(Service))
    && (forall i :: StandsAt(p, i, SettingOn) ==> p.lock == Some(OfTask(i)))
    && (forall i :: !StandsAt(p, i, SettingOff))
  }

  ghost predicate Inv(p: Producer) {
    p.running == p.on && CallOk(p) && LockOk(p)
  }

  predicate IsTaskStep(e: Event) {
    e.TaskPoll? || e.TaskWait? || e.TaskLock? || e.TaskSetOn? || e.TaskTick? || e.TaskReceive? ||
    e.TaskLockOff? || e.TaskSetOff? || e.TaskPanic?
  }

  /** Steps of a call that leave every task where it is. */
  lemma SameTasksKeep(p: Producer, p': Producer)
    requires p'.tasks == p.tasks && LockOk(p)
    requires p'.call != Idle <==> p'.lock == Some(Service)
    requires p'.lock == p.lock || p.lock == None || p.lock == Some(Service)
    ensures LockOk(p')
    ensures NoneLive(p) ==> NoneLive(p')
    ensures OnlyLastLive(p) ==> OnlyLastLive(p')
  {
    forall i ensures StandsAt(p', i, SettingOn) ==> p'.lock == Some(OfTask(i)) {
      assert StandsAt(p', i, SettingOn) ==> StandsAt(p, i, SettingOn);
    }
    forall i ensures !StandsAt(p', i, SettingOff) { assert !StandsAt(p, i, SettingOff); }
    forall i ensures Live(p', i) <==> Live(p, i) {}
  }

  lemma StartKeeps(p: Producer, e: Event)
    requires Inv(p) && (e.CallStart? || e.StartCheck? || e.StartStore? || e.StartReturn?)
    ensures Inv(Next(p, e))
  {
    SameTasksKeep(p, Next(p, e));
  }

  lemma SpawnKeeps(p: Producer)
    requires Inv(p)
    ensures Inv(Next(p, StartSpawn))
  {
    var p' := Next(p, StartSpawn);
    if p' != p {
      assert p'.tasks == p.tasks + [Task(Spawned, p.sender.value, false, false)];
      forall i ensures Live(p', i) ==> i == |p'.tasks| - 1 { assert !Live(p, i); }
      forall i ensures !StandsAt(p', i, SettingOn) && !StandsAt(p', i, SettingOff) {
        assert !StandsAt(p, i, SettingOff) && !StandsAt(p, i, SettingOn);
      }
    }
  }

  lemma StopKeeps(p: Producer, e: Event)
    requires Inv(p) && (e.CallStop? || e.StopCheck?)
    ensures Inv(Next(p, e))
  {
    var p' := Next(p, e);
    SameTasksKeep(p, p');
    if e.StopCheck? && p' != p && p.running {
      assert !StandsAt(p, |p.tasks| - 1, SettingOn);
    }
  }

  /** Here the condition is needed: `stop` returns with no task left alive. */
  lemma StopReturnKeeps(p: Producer)
    requires Inv(p) && (p.call == StopAborted ==> NoneLingers(p))
    ensures Inv(Next(p, StopReturn))
  {
    SameTasksKeep(p, Next(p, StopReturn));
    if p.call == StopAborted {
      forall i ensures !Live(p, i) { assert !Lingers(p, i); }
    }
  }

  lemma AbortKeeps(p: Producer)
    requires Inv(p)
    ensures Inv(Next(p, StopAbort))
  {
    var p' := Next(p, StopAbort);
    if p' != p {
      var last := |p.tasks| - 1;
      forall i: nat ensures Live(p', i) ==> i == last && Lingers(p', i) && p'.tasks[i].polling {
        if i != last { assert !Live(p, i); }
      }
      forall i ensures !StandsAt(p', i, SettingOn) && !StandsAt(p', i, SettingOff) {
        assert !StandsAt(p, i, SettingOff) && !StandsAt(p, i, SettingOn);
      }
    }
  }

  /** The task a step moves is the last one, while the flag is on or it was just spawned. */
  lemma MovedTaskIsLast(p: Producer, id: nat)
    requires Inv(p) && Live(p, id)
    ensures p.tasks != [] && id == |p.tasks| - 1 && OnlyLastLive(p) && p.call != StartChannel
    ensures p.call in {Idle, StartLocked, StopLocked} ==> p.on && Running(p)
  {}

  /** What one step of task `id` can do to the flag and the lock. */
  ghost predicate PcMove(p: Producer, p': Producer, id: nat)
    requires id < |p.tasks| && id < |p'.tasks|
  {
    var pc, pc' := p.tasks[id].pc, p'.tasks[id].pc;
    || (p'.lock == p.lock && p'.running == p.running &&
        (pc' == pc || (p.tasks[id].cancelled && AtAwait(pc) && pc' == Aborted) ||
         (pc == Looping && pc' == Finished) || (pc == Looping && pc' == Draining && CanReceive(p, id))))
    || (pc == Spawned && pc' == SettingOn && p.lock == None && p'.lock == Some(OfTask(id)) && p'.running == p.running)
    || (pc == SettingOn && pc' == Looping && p'.lock == None && p'.running)
    || (pc == Draining && pc' == SettingOff && p.lock == None && p'.lock == Some(OfTask(id)) &&
        p'.running == p.running)
    || (pc == SettingOff && pc' == Finished)
  }

  ghost predicate TaskMoved(p: Producer, p': Producer, id: nat) {
    && Live(p, id) && |p'.tasks| == |p.tasks| && p'.tasks == p.tasks[id := p'.tasks[id]]
    && p'.call == p.call && p'.sender == p.sender && p'.handle == p.handle && p'.on == p.on
    && p'.channels == p.channels && p'.tasks[id].channel == p.tasks[id].channel
    && p'.tasks[id].cancelled == p.tasks[id].cancelled && PcMove(p, p', id)
    && (p.tasks[id].polling && Lingers(p', id) ==> p'.tasks[id].polling)
  }

  lemma TaskMoves(p: Producer, e: Event)
    requires IsTaskStep(e) && !e.TaskTick? && Next(p, e) != p
    ensures TaskMoved(p, Next(p, e), e.id)
  {}

  lemma TaskKeepsLock(p: Producer, p': Producer, id: nat)
    requires Inv(p) && TaskMoved(p, p', id)
    ensures LockOk(p') && p'.running == p.running
  {
    MovedTaskIsLast(p, id);
    assert !StandsAt(p, id, SettingOff);
    assert StandsAt(p, id, SettingOn) ==> p.lock == Some(OfTask(id));
    assert !StandsAt(p', id, SettingOff);
    forall i: nat ensures StandsAt(p', i, SettingOn) ==> p'.lock == Some(OfTask(i)) {
      assert i != id && StandsAt(p', i, SettingOn) ==> StandsAt(p, i, SettingOn);
    }
    forall i: nat ensures !StandsAt(p', i, SettingOff) { assert !StandsAt(p, i, SettingOff); }
  }

  lemma TaskKeepsLast(p: Producer, p': Producer, id: nat)
    requires Inv(p) && TaskMoved(p, p', id)
    ensures OnlyLastLive(p')
    ensures p.call == StopAborted ==> LiveLinger(p')
  {
    MovedTaskIsLast(p, id);
    forall i: nat ensures Live(p', i) ==> i == id { assert i != id && Live(p', i) ==> Live(p, i); }
    if p.call == StopAborted { assert Lingers(p, id) && p.tasks[id].polling; }
  }

  lemma NextKeepsTask(p: Producer, e: Event)
    requires Inv(p) && IsTaskStep(e)
    ensures Inv(Next(p, e))
  {
    var p' := Next(p, e);
    if e.TaskTick? {
      SameTasksKeep(p, p');
      assert Running(p) ==> Running(p');
    } else if p' != p {
      TaskMoves(p, e);
      TaskMovedKeeps(p, p', e.id);
    }
  }

  lemma TaskMovedKeeps(p: Producer, p': Producer, id: nat)
    requires Inv(p) && TaskMoved(p, p', id)
    ensures Inv(p')
  {
    TaskKeepsLock(p, p', id);
    TaskKeepsLast(p, p', id);
    MovedTaskIsLast(p, id);
    assert !StandsAt(p, id, SettingOff);
    assert StandsAt(p, id, SettingOn) ==> p.lock == Some(OfTask(id));
  }

  lemma {:induction false} RunKeeps(es: seq<Event>)
    requires Settled(es)
    ensures Inv(Run(NEW, es))
  {
    if es != [] {
      RunKeeps(es[..|es| - 1]);
      var p, e := Run(NEW, es[..|es| - 1]), es[|es| - 1];
      if IsTaskStep(e) {
        NextKeepsTask(p, e);
      } else if e.StartSpawn? {
        SpawnKeeps(p);
      } else if e.StopAbort? {
        AbortKeeps(p);
      } else if e.StopReturn? {
        StopReturnKeeps(p);
      } else if e.CallStop? || e.StopCheck? {
        StopKeeps(p, e);
      } else {
        StartKeeps(p, e);
      }
    }
  }

  // ---- Results for settled runs ----

  /** At most one task is alive, in its loop or on its way there. */
  lemma AtMostOneTask(es: seq<Event>, i: nat, j: nat)
    requires Settled(es) && Live(Run(NEW, es), i) && Live(Run(NEW, es), j)
    ensures i == j
  {
    RunKeeps(es);
    var p := Run(NEW, es);
    MovedTaskIsLast(p, i);
    MovedTaskIsLast(p, j);
  }

  /** The flag always says which of `start` and `stop` wrote it last; no task changes its value. */
  lemma {:induction false} FlagIsLastCall(es: seq<Event>)
    requires Settled(es)
    ensures Run(NEW, es).running == Run(NEW, es).on
  {
    RunKeeps(es);
  }

  /** The task's own final write of false is not reached. */
  lemma {:induction false} TaskNeverWritesFalse(es: seq<Event>, id: nat)
    requires Settled(es)
    ensures !StandsAt(Run(NEW, es), id, SettingOff)
  {
    RunKeeps(es);
  }

  lemma {:induction false} SettledMore(es: seq<Event>, fs: seq<Event>)
    requires Settled(es) && StopReturn !in fs
    ensures Settled(es + fs)
  {
    if fs == [] {
      assert es + fs == es;
    } else {
      SettledMore(es, fs[..|fs| - 1]);
      assert (es + fs)[..|es + fs| - 1] == es + fs[..|fs| - 1];
      assert (es + fs)[|es + fs| - 1] == fs[|fs| - 1];
    }
  }

  /** From a completed `start` until the next call of `stop`, `is_running` answers true. */
  lemma {:induction false} RunsUntilStop(es: seq<Event>, fs: seq<Event>)
    requires Settled(es) && Run(NEW, es).call == Idle && Run(NEW, es).on && CallStop !in fs
    ensures var p := Run(NEW, es + fs); p.running && p.on && p.call in {Idle, StartLocked}
    ensures Settled(es + fs)
  {
    if fs == [] {
      assert es + fs == es;
      FlagIsLastCall(es);
    } else {
      var front, e := fs[..|fs| - 1], fs[|fs| - 1];
      RunsUntilStop(es, front);
      assert (es + fs)[..|es + fs| - 1] == es + front && (es + fs)[|es + fs| - 1] == e;
      OnStays(Run(NEW, es + front), e);
      FlagIsLastCall(es + fs);
    }
  }

  lemma OnStays(p: Producer, e: Event)
    requires p.running && p.on && p.call in {Idle, StartLocked} && e != CallStop
    ensures Next(p, e).on && Next(p, e).call in {Idle, StartLocked}
  {
    if IsTaskStep(e) && !e.TaskTick? && Next(p, e) != p { TaskMoves(p, e); }
  }

  // ---- `stop` never waits for room in the channel: on every run ----

  ghost predicate SenderOk(p: Producer) {
    p.sender.Some? ==> p.sender.value < |p.channels| && p.channels[p.sender.value] == Channel(false, true)
  }

  lemma NextKeepsSender(p: Producer, e: Event)
    requires SenderOk(p)
    ensures SenderOk(Next(p, e))
  {
    if IsTaskStep(e) && !e.TaskTick? && Next(p, e) != p { TaskMoves(p, e); }
  }

  /** The channel `stop` sends on is open and empty, so its send does not wait. */
  lemma {:induction false} StopSendHasRoom(es: seq<Event>)
    ensures SenderOk(Run(NEW, es))
  {
    if es != [] {
      StopSendHasRoom(es[..|es| - 1]);
      NextKeepsSender(Run(NEW, es[..|es| - 1]), es[|es| - 1]);
    }
  }

  // ---- What a lingering task can do ----

  ghost predicate FlagRight(p: Producer) { p.running == p.on }

  ghost predicate OneUncancelled(p: Producer) {
    forall i: nat, j: nat :: Live(p, i) && !Lingers(p, i) && Live(p, j) && !Lingers(p, j) ==> i == j
  }

  lemma {:induction false} RunConcat(p: Producer, es: seq<Event>, fs: seq<Event>)
    ensures Run(p, es + fs) == Run(Run(p, es), fs)
  {
    if fs == [] {
      assert es + fs == es;
    } else {
      RunConcat(p, es, fs[..|fs| - 1]);
      assert (es + fs)[..|es + fs| - 1] == es + fs[..|fs| - 1];
    }
  }

  lemma {:induction false} RunCons(p: Producer, e: Event, fs: seq<Event>)
    ensures Run(p, [e] + fs) == Run(Next(p, e), fs)
  {
    assert [e][..0] == [];
    assert Run(p, [e]) == Next(p, e);
    RunConcat(p, [e], fs);
  }

  /** A whole call of `start`. */
  const RESTART: seq<Event> := [CallStart] + ([StartCheck] + ([StartSpawn] + ([StartStore] + ([StartReturn] + []))))

  /** A call of `start` while the flag is off spawns a task and leaves the others alone. */
  lemma {:induction false} RestartSpawns(p: Producer)
    requires p.call == Idle && p.lock == None && !p.running
    ensures var q := Run(p, RESTART);
            && q.call == Idle && q.lock == None && q.running && q.on
            && |q.tasks| == |p.tasks| + 1 && q.tasks[..|p.tasks|] == p.tasks
            && Live(q, |p.tasks|) && !q.tasks[|p.tasks|].cancelled
            && q.channels == Close(p.channels, p.sender) + [Channel(false, true)]
            && q.sender == Some(|p.channels|) && q.handle == Some(|p.tasks|)
            && q.tasks[|p.tasks|] == Task(Spawned, |p.channels|, false, false)
  {
    RunCons(p, CallStart, [StartCheck] + ([StartSpawn] + ([StartStore] + ([StartReturn] + []))));
    var p1 := Next(p, CallStart);
    RunCons(p1, StartCheck, [StartSpawn] + ([StartStore] + ([StartReturn] + [])));
    var p2 := Next(p1, StartCheck);
    RunCons(p2, StartSpawn, [StartStore] + ([StartReturn] + []));
    var p3 := Next(p2, StartSpawn);
    RunCons(p3, StartStore, [StartReturn] + []);
    var p4 := Next(p3, StartStore);
    RunCons(p4, StartReturn, []);
  }

  /** How a polled task at `pc` gets to write false, once it can receive and the mutex is free. */
  function WayOut(pc: TaskPc, id: nat): seq<Event>
    decreases if pc == Spawned then 2 else if pc == Looping then 1 else 0
  {
    match pc
    case Spawned => [TaskLock(id)] + ([TaskSetOn(id)] + WayOut(Looping, id))
    case Looping => [TaskReceive(id)] + WayOut(Draining, id)
    case _ => [TaskLockOff(id)] + ([TaskSetOff(id)] + [])
  }

  ghost predicate WrittenFalse(p: Producer, q: Producer, id: nat) {
    && q.call == p.call && q.lock == None && !q.running && q.on == p.on
    && q.sender == p.sender && q.channels == p.channels
    && |q.tasks| == |p.tasks| && forall i :: 0 <= i < |p.tasks| && i != id ==> q.tasks[i] == p.tasks[i]
  }

  lemma {:induction false} DrainingWrites(p: Producer, id: nat)
    requires AtPc(p, id, Draining) && p.lock == None
    ensures WrittenFalse(p, Run(p, WayOut(Draining, id)), id)
  {
    RunCons(p, TaskLockOff(id), [TaskSetOff(id)] + []);
    RunCons(Next(p, TaskLockOff(id)), TaskSetOff(id), []);
  }

  lemma {:induction false} LoopingWrites(p: Producer, id: nat)
    requires AtPc(p, id, Looping) && p.lock == None && CanReceive(p, id)
    ensures WrittenFalse(p, Run(p, WayOut(Looping, id)), id)
  {
    RunCons(p, TaskReceive(id), WayOut(Draining, id));
    DrainingWrites(Next(p, TaskReceive(id)), id);
  }

  lemma {:induction false} SpawnedWrites(p: Producer, id: nat)
    requires AtPc(p, id, Spawned) && p.lock == None && CanReceive(p, id)
    ensures WrittenFalse(p, Run(p, WayOut(Spawned, id)), id)
  {
    RunCons(p, TaskLock(id), [TaskSetOn(id)] + WayOut(Looping, id));
    var p' := Next(p, TaskLock(id));
    RunCons(p', TaskSetOn(id), WayOut(Looping, id));
    LoopingWrites(Next(p', TaskSetOn(id)), id);
  }

  lemma {:induction false} WayOutWrites(p: Producer, id: nat)
    requires id < |p.tasks| && AtAwait(p.tasks[id].pc) && p.tasks[id].polling && p.lock == None && CanReceive(p, id)
    ensures WrittenFalse(p, Run(p, WayOut(p.tasks[id].pc, id)), id)
  {
    if p.tasks[id].pc == Spawned {
      SpawnedWrites(p, id);
    } else if p.tasks[id].pc == Looping {
      LoopingWrites(p, id);
    } else {
      DrainingWrites(p, id);
    }
  }

  /** A later `start`, and then the late write. */
  function LateWrite(pc: TaskPc, id: nat): seq<Event> { RESTART + WayOut(pc, id) }

  lemma {:induction false} NoStopInLateWrite(pc: TaskPc, id: nat)
    ensures StopReturn !in LateWrite(pc, id) && CallStop !in LateWrite(pc, id)
    ensures StopReturn !in RESTART && CallStop !in RESTART
  {
    assert WayOut(Draining, id) == [TaskLockOff(id), TaskSetOff(id)];
    assert WayOut(Looping, id) == [TaskReceive(id), TaskLockOff(id), TaskSetOff(id)];
    assert forall e :: e in WayOut(pc, id) ==> IsTaskStep(e);
    assert RESTART == [CallStart, StartCheck, StartSpawn, StartStore, StartReturn];
  }

  /** After a `stop` that left task `id` lingering: a later `start` completes, no `stop` is called, and yet
      the flag is false, while the task of that `start` is alive. */
  lemma {:induction false} LateWriteBreaks(p: Producer, id: nat)
    requires Inv(p) && p.call == StopAborted && Lingers(p, id)
    ensures var q := Run(Next(p, StopReturn), LateWrite(p.tasks[id].pc, id));
            && q.call == Idle && q.lock == None && q.on && !q.running
            && Live(q, |p.tasks|) && !q.tasks[|p.tasks|].cancelled && |q.tasks| == |p.tasks| + 1
            && q.sender.Some? && q.sender.value < |q.channels| && q.tasks[|p.tasks|].channel == q.sender.value
  {
    var pc, p' := p.tasks[id].pc, Next(p, StopReturn);
    assert pc in {Spawned, Looping, Draining} && p.tasks[id].polling && CanReceive(p, id);
    RestartSpawns(p');
    var r := Run(p', RESTART);
    assert r.tasks[id] == r.tasks[..|p.tasks|][id];
    assert CanReceive(r, id);
    WayOutWrites(r, id);
    RunConcat(p', RESTART, WayOut(pc, id));
  }

  /** A further `start` then spawns a second task beside it. */
  lemma {:induction false} LateWriteDoubles(p: Producer, id: nat)
    requires Inv(p) && p.call == StopAborted && Lingers(p, id)
    ensures !OneUncancelled(Run(Next(p, StopReturn), LateWrite(p.tasks[id].pc, id) + RESTART))
  {
    var n, p' := |p.tasks|, Next(p, StopReturn);
    LateWriteBreaks(p, id);
    var r := Run(p', LateWrite(p.tasks[id].pc, id));
    RestartSpawns(r);
    RunConcat(p', LateWrite(p.tasks[id].pc, id), RESTART);
    var q := Run(r, RESTART);
    assert q.tasks[n] == q.tasks[..|r.tasks|][n];
    assert Live(q, n) && !Lingers(q, n) && Live(q, n + 1) && !Lingers(q, n + 1);
  }

  /** The older of the two is told to leave: the second `start` drops the sender of its channel. */
  lemma {:induction false} OlderTaskCanLeave(p: Producer, id: nat)
    requires Inv(p) && p.call == StopAborted && Lingers(p, id)
    ensures CanReceive(Run(Next(p, StopReturn), LateWrite(p.tasks[id].pc, id) + RESTART), |p.tasks|)
  {
    var n, p' := |p.tasks|, Next(p, StopReturn);
    LateWriteBreaks(p, id);
    var r := Run(p', LateWrite(p.tasks[id].pc, id));
    RestartSpawns(r);
    RunConcat(p', LateWrite(p.tasks[id].pc, id), RESTART);
    var q := Run(r, RESTART);
    assert q.tasks[n] == q.tasks[..|r.tasks|][n];
    assert q.channels[r.sender.value] == r.channels[r.sender.value].(open := false);
  }

  /** A lingering task that had not yet written its flag writes `true` after `stop` has returned. */
  lemma {:induction false} LateStartWrites(p: Producer, id: nat)
    requires Inv(p) && p.call == StopAborted && Lingers(p, id) && p.tasks[id].pc == Spawned
    ensures var q := Run(Next(p, StopReturn), [TaskLock(id)] + ([TaskSetOn(id)] + []));
            q.call == Idle && q.running && !q.on
  {
    var p1 := Next(p, StopReturn);
    RunCons(p1, TaskLock(id), [TaskSetOn(id)] + []);
    RunCons(Next(p1, TaskLock(id)), TaskSetOn(id), []);
  }

  /** `stop` leaves a message in its channel and closes it, and touches no other channel. */
  lemma StopSends(p: Producer)
    requires SenderOk(p) && p.call == StopLocked && p.running && p.sender.Some?
    ensures var q := Next(p, StopCheck);
            q.channels == p.channels[p.sender.value := Channel(true, false)] && q.sender == None && q.tasks == p.tasks
  {}

  /** A task that waits is at rest; a marked one ends there, so that nothing lingers. */
  lemma WaitSettles(p: Producer, id: nat)
    requires Inv(p) && Live(p, id) && p.tasks[id].polling && AtAwait(p.tasks[id].pc)
    ensures var q := Next(p, TaskWait(id));
            if p.tasks[id].cancelled then !Live(q, id) && NoneLingers(q)
            else Live(q, id) && !q.tasks[id].polling && q.tasks[id].pc == p.tasks[id].pc
  {
    var q := Next(p, TaskWait(id));
    MovedTaskIsLast(p, id);
    TaskMoves(p, TaskWait(id));
    TaskKeepsLast(p, q, id);
  }

  /** A task that panics in its loop ends there, and the flag stays as it was. */
  lemma PanicEndsTask(p: Producer, id: nat)
    requires AtPc(p, id, Looping)
    ensures var q := Next(p, TaskPanic(id)); !Live(q, id) && q.tasks[id].pc == Finished && q.running == p.running
  {}

  lemma {:induction false} RunReturnThen(es: seq<Event>, fs: seq<Event>)
    ensures Run(NEW, es + [StopReturn] + fs) == Run(Next(Run(NEW, es), StopReturn), fs)
  {
    RunConcat(NEW, es + [StopReturn], fs);
    assert (es + [StopReturn])[..|es|] == es;
  }

  lemma {:induction false} SettledReturn(es: seq<Event>, fs: seq<Event>)
    requires Settled(es) && NoneLingers(Run(NEW, es)) && StopReturn !in fs
    ensures Settled(es + [StopReturn] + fs)
  {
    assert (es + [StopReturn])[..|es|] == es;
    SettledMore(es + [StopReturn], fs);
  }

  // ---- The condition is exact ----

  /** When `stop` is about to return: the flag stays right on every run up to the return of the next `stop`
      if and only if the aborted task is no longer being polled. */
  lemma {:induction false} FlagRightExactly(es: seq<Event>)
    requires Settled(es) && Run(NEW, es).call == StopAborted
    ensures (forall fs :: StopReturn !in fs ==> FlagRight(Run(NEW, es + [StopReturn] + fs)))
       <==> NoneLingers(Run(NEW, es))
  {
    var p := Run(NEW, es);
    RunKeeps(es);
    if id: nat :| Lingers(p, id) {
      var fs := LateWrite(p.tasks[id].pc, id);
      LateWriteBreaks(p, id);
      NoStopInLateWrite(p.tasks[id].pc, id);
      RunReturnThen(es, fs);
      assert !FlagRight(Run(NEW, es + [StopReturn] + fs));
    } else {
      forall fs | StopReturn !in fs ensures FlagRight(Run(NEW, es + [StopReturn] + fs)) {
        SettledReturn(es, fs);
        FlagIsLastCall(es + [StopReturn] + fs);
      }
    }
  }

  lemma {:induction false} SettledHasOne(es: seq<Event>)
    requires Settled(es)
    ensures OneUncancelled(Run(NEW, es))
  {
    forall i: nat, j: nat | Live(Run(NEW, es), i) && Live(Run(NEW, es), j) ensures i == j { AtMostOneTask(es, i, j); }
  }

  lemma {:induction false} LingererDoubles(es: seq<Event>, id: nat) returns (fs: seq<Event>)
    requires Settled(es) && Run(NEW, es).call == StopAborted && Lingers(Run(NEW, es), id)
    ensures StopReturn !in fs && !OneUncancelled(Run(NEW, es + [StopReturn] + fs))
  {
    RunKeeps(es);
    var p := Run(NEW, es);
    fs := LateWrite(p.tasks[id].pc, id) + RESTART;
    NoStopInLateWrite(p.tasks[id].pc, id);
    LateWriteDoubles(p, id);
    RunReturnThen(es, fs);
  }

  /** And likewise for there being at most one task that nobody aborted. */
  lemma {:induction false} OneTaskExactly(es: seq<Event>)
    requires Settled(es) && Run(NEW, es).call == StopAborted
    ensures (forall fs :: StopReturn !in fs ==> OneUncancelled(Run(NEW, es + [StopReturn] + fs)))
       <==> NoneLingers(Run(NEW, es))
  {
    if id: nat :| Lingers(Run(NEW, es), id) {
      var fs := LingererDoubles(es, id);
    } else {
      forall fs | StopReturn !in fs ensures OneUncancelled(Run(NEW, es + [StopReturn] + fs)) {
        SettledReturn(es, fs);
        SettledHasOne(es + [StopReturn] + fs);
      }
    }
  }

  /** `stop` has returned, and every task left alive is past its loop. */
  ghost predicate Quiet(p: Producer) {
    !p.running && p.call in {Idle, StopLocked} && forall i :: PastLoop(p, i)
  }

  ghost predicate PastLoop(p: Producer, i: nat) {
    Live(p, i) ==> p.tasks[i].pc in {Draining, SettingOff}
  }

  lemma {:induction false} QuietStays(p: Producer, e: Event)
    requires Quiet(p) && e != CallStart
    ensures Quiet(Next(p, e)) && Next(p, e).ticks == p.ticks
  {
    var p' := Next(p, e);
    if IsTaskStep(e) { assert PastLoop(p, e.id); }
    forall i ensures PastLoop(p', i) { assert PastLoop(p, i); }
  }

  lemma {:induction false} QuietRun(p: Producer, fs: seq<Event>)
    requires Quiet(p) && CallStart !in fs
    ensures Quiet(Run(p, fs)) && Run(p, fs).ticks == p.ticks
  {
    if fs != [] {
      QuietRun(p, fs[..|fs| - 1]);
      QuietStays(Run(p, fs[..|fs| - 1]), fs[|fs| - 1]);
    }
  }

  /** Once `stop` has returned, no task takes another step of its loop until the next call of `start`. */
  lemma {:induction false} QuietUntilStart(es: seq<Event>, fs: seq<Event>)
    requires Settled(es) && Run(NEW, es).call == Idle && !Run(NEW, es).on && CallStart !in fs
    ensures Run(NEW, es + fs).ticks == Run(NEW, es).ticks && !Run(NEW, es + fs).running
  {
    RunKeeps(es);
    var p := Run(NEW, es);
    forall i ensures PastLoop(p, i) { assert !Live(p, i); }
    QuietRun(p, fs);
    RunConcat(NEW, es, fs);
  }

  /** A lingering task that has not left its loop takes another step of it. */
  function OneMore(pc: TaskPc, id: nat): seq<Event> {
    if pc == Spawned then [TaskLock(id)] + ([TaskSetOn(id)] + ([TaskTick(id)] + [])) else [TaskTick(id)] + []
  }

  lemma {:induction false} LoopingTicks(p: Producer, id: nat)
    requires AtPc(p, id, Looping)
    ensures Run(p, [TaskTick(id)] + []).ticks == p.ticks + 1
  {
    RunCons(p, TaskTick(id), []);
  }

  lemma {:induction false} LingererTicks(p: Producer, id: nat)
    requires Lingers(p, id) && p.tasks[id].polling && p.tasks[id].pc in {Spawned, Looping} && p.lock == None
    ensures Run(p, OneMore(p.tasks[id].pc, id)).ticks == p.ticks + 1
  {
    if p.tasks[id].pc == Spawned {
      var p1 := Next(p, TaskLock(id));
      var p2 := Next(p1, TaskSetOn(id));
      RunCons(p, TaskLock(id), [TaskSetOn(id)] + ([TaskTick(id)] + []));
      RunCons(p1, TaskSetOn(id), [TaskTick(id)] + []);
      assert AtPc(p2, id, Looping) && p2.ticks == p.ticks;
      LoopingTicks(p2, id);
    } else {
      LoopingTicks(p, id);
    }
  }

  ghost predicate SameTicks(p: Producer, q: Producer) { q.ticks == p.ticks }

  /** When `stop` is about to return: no task takes a step of its loop until the next call of `start`
      if and only if the aborted task has ended or has left its loop. */
  lemma {:induction false} QuietExactly(es: seq<Event>)
    requires Settled(es) && Run(NEW, es).call == StopAborted
    ensures (forall fs :: CallStart !in fs ==> SameTicks(Run(NEW, es), Run(NEW, es + [StopReturn] + fs)))
       <==> forall i :: PastLoop(Run(NEW, es), i)
  {
    var p := Run(NEW, es);
    var p' := Next(p, StopReturn);
    RunKeeps(es);
    if id: nat :| !PastLoop(p, id) {
      var fs := OneMore(p.tasks[id].pc, id);
      LingererTicks(p', id);
      RunReturnThen(es, fs);
      assert !SameTicks(p, Run(NEW, es + [StopReturn] + fs));
    } else {
      forall i ensures PastLoop(p', i) { assert PastLoop(p, i); }
      forall fs | CallStart !in fs ensures SameTicks(p, Run(NEW, es + [StopReturn] + fs)) {
        QuietRun(p', fs);
        RunReturnThen(es, fs);
      }
    }
  }

  // ---- Where the condition always holds ----

  /** Every `abort` of the run met a task at rest, as on a current-thread runtime. */
  ghost predicate AbortsAtRest(es: seq<Event>) {
    es == [] ||
    (AbortsAtRest(es[..|es| - 1]) &&
     (es[|es| - 1] == StopAbort ==>
        var p := Run(NEW, es[..|es| - 1]);
        p.handle.Some? && Live(p, p.handle.value) ==> !p.tasks[p.handle.value].polling))
  }

  ghost predicate NoneCancelled(p: Producer) { forall i :: 0 <= i < |p.tasks| ==> !p.tasks[i].cancelled }

  lemma NextCancelsNone(p: Producer, e: Event)
    requires NoneCancelled(p)
    requires e == StopAbort && p.handle.Some? && Live(p, p.handle.value) ==> !p.tasks[p.handle.value].polling
    ensures NoneCancelled(Next(p, e))
  {
    if IsTaskStep(e) && !e.TaskTick? && Next(p, e) != p { TaskMoves(p, e); }
  }

  /** Then no task lingers, and the results for settled runs apply. */
  lemma {:induction false} AtRestSettles(es: seq<Event>)
    requires AbortsAtRest(es)
    ensures NoneCancelled(Run(NEW, es)) && Settled(es)
  {
    if es != [] {
      AtRestSettles(es[..|es| - 1]);
      NextCancelsNone(Run(NEW, es[..|es| - 1]), es[|es| - 1]);
    }
  }

  // ---- Such a `stop` can happen ----

  /** The first task is polled through its start and into the loop. */
  const ENTER: seq<Event> := [TaskPoll(0)] + ([TaskLock(0)] + ([TaskSetOn(0)] + []))

  /** `stop` is called while the task is polled, and the task receives before it is aborted. */
  const CAUGHT: seq<Event> := [CallStop] + ([StopCheck] + ([TaskReceive(0)] + ([StopAbort] + [])))

  lemma {:induction false} Enters(p: Producer)
    requires p.lock == None && p.running && p.tasks == [Task(Spawned, 0, false, false)]
    ensures Run(p, ENTER) == p.(tasks := [Task(Looping, 0, true, false)])
  {
    RunCons(p, TaskPoll(0), [TaskLock(0)] + ([TaskSetOn(0)] + []));
    var p1 := p.(tasks := [Task(Spawned, 0, true, false)]);
    assert Next(p, TaskPoll(0)) == p1;
    RunCons(p1, TaskLock(0), [TaskSetOn(0)] + []);
    var p2 := p.(tasks := [Task(SettingOn, 0, true, false)], lock := Some(OfTask(0)));
    assert Next(p1, TaskLock(0)) == p2;
    RunCons(p2, TaskSetOn(0), []);
  }

  lemma {:induction false} CaughtSending(p: Producer, rest: seq<Event>)
    requires p.call == Idle && p.lock == None && p.running
    requires p.channels == [Channel(false, true)] && p.sender == Some(0)
    ensures Run(p, [CallStop] + ([StopCheck] + rest)) ==
            Run(p.(call := StopSent, lock := Some(Service), channels := [Channel(true, false)], sender := None), rest)
  {
    var p1 := p.(call := StopLocked, lock := Some(Service));
    RunCons(p, CallStop, [StopCheck] + rest);
    assert Next(p, CallStop) == p1;
    RunCons(p1, StopCheck, rest);
    assert Send(p.channels, Some(0)) == [Channel(true, false)];
  }

  lemma {:induction false} CaughtReceiving(p: Producer)
    requires p.call == StopSent && p.tasks == [Task(Looping, 0, true, false)]
    requires p.channels == [Channel(true, false)] && p.handle == Some(0)
    ensures var q := Run(p, [TaskReceive(0)] + ([StopAbort] + []));
            q.call == StopAborted && q.tasks == [Task(Draining, 0, true, true)]
  {
    var p1 := p.(tasks := [Task(Draining, 0, true, false)]);
    RunCons(p, TaskReceive(0), [StopAbort] + []);
    assert Next(p, TaskReceive(0)) == p1;
    RunCons(p1, StopAbort, []);
  }

  lemma {:induction false} Caught(p: Producer)
    requires p.call == Idle && p.lock == None && p.running && p.tasks == [Task(Looping, 0, true, false)]
    requires p.channels == [Channel(false, true)] && p.sender == Some(0) && p.handle == Some(0)
    ensures var q := Run(p, CAUGHT); q.call == StopAborted && q.tasks == [Task(Draining, 0, true, true)]
  {
    CaughtSending(p, [TaskReceive(0)] + ([StopAbort] + []));
    CaughtReceiving(p.(call := StopSent, lock := Some(Service), channels := [Channel(true, false)], sender := None));
  }

  lemma {:induction false} CaughtLingers()
    ensures var q := Run(NEW, RESTART + ENTER + CAUGHT);
            q.call == StopAborted && q.tasks == [Task(Draining, 0, true, true)]
  {
    RestartSpawns(NEW);
    var p := Run(NEW, RESTART);
    assert p.tasks == [p.tasks[0]] && p.channels == [Channel(false, true)];
    RunConcat(NEW, RESTART, ENTER);
    Enters(p);
    RunConcat(NEW, RESTART + ENTER, CAUGHT);
    Caught(Run(p, ENTER));
  }

  lemma {:induction false} CaughtSettled()
    ensures Settled(RESTART + ENTER + CAUGHT)
  {
    NoStopInLateWrite(Draining, 0);
    assert ENTER == [TaskPoll(0), TaskLock(0), TaskSetOn(0)];
    assert CAUGHT == [CallStop, StopCheck, TaskReceive(0), StopAbort];
    SettledMore([], RESTART + ENTER + CAUGHT);
    assert [] + (RESTART + ENTER + CAUGHT) == RESTART + ENTER + CAUGHT;
  }

  /** A run on which the flag goes wrong: after a completed `start` and no later `stop` it is false,
      because the task of an earlier `start` wrote it late. */
  lemma {:induction false} FlagGoesWrong()
    ensures var q := Run(NEW, RESTART + ENTER + CAUGHT + [StopReturn] + LateWrite(Draining, 0));
            q.call == Idle && q.on && !q.running
  {
    var es := RESTART + ENTER + CAUGHT;
    CaughtLingers();
    CaughtSettled();
    RunKeeps(es);
    LateWriteBreaks(Run(NEW, es), 0);
    RunReturnThen(es, LateWrite(Draining, 0));
  }
}
