/** Starting and stopping the metric server (server/MetricServer.cpp): the controlling thread and the
    worker share one monitor, two fields and the exit flag. Each step below is one access to them; in
    between, the threads interleave freely. While it serves, the worker goes through the iterations of
    ConnectionTable. */
module MonitorProtocol {
  import opened CStrings
  import opened ConnectionTable
  import opened MetricDatabase

  datatype Thread = Controller | Worker

  /** Where the controlling thread is, in `start` and then in `stop`. */
  datatype ControllerAt =
    | Creating | StartEnter | StartTest | StartWaiting | StartWoken | StartExit | Started
    | StopEnter | StopSetFlag | StopWait | StopWaiting | StopWoken | StopExit | StopDestroy | StopDone

  /** Where the worker is in `metricServerProc`. */
  datatype WorkerAt =
    | NotCreated | Attaching | FirstEnter | SetAttempted | SetServer | FirstNotify | FirstExit | AttachFailed
    | Booting | LoopHead(table: State) | Polling(table: State) | Closing(table: State)
    | Detaching | SecondEnter | ClearServer | SecondNotify | LastExit | Dead

  datatype Sys = Sys(
    controller: ControllerAt, worker: WorkerAt, owner: Option<Thread>,
    attachOk: bool, attachAttempted: bool, server: bool, exitFlag: bool,
    destroyed: bool, processGone: bool, open: set<int>)

  /** What may happen besides: the handler leaving at its connection limit, and wakeups without notify. */
  datatype World = World(cfg: Config, limitHappens: bool, spuriousWakeups: bool)

  /** Whose turn it is, with what the outside answers. */
  datatype Choice = ControllerTurn(created: bool) | WorkerTurn(attached: bool, first: Sample, r: Round) | SpuriousWake

  function Init(open: set<int>): Sys {
    Sys(Creating, NotCreated, None, false, false, false, false, false, false, open)
  }

  /** `notifyAll` moves the waiting thread out of the wait set. */
  function Woken(c: ControllerAt): ControllerAt {
    match c
    case StartWaiting => StartWoken
    case StopWaiting => StopWoken
    case _ => c
  }

  predicate Waits(c: ControllerAt) { c.StartWaiting? || c.StopWaiting? }

  predicate NeedsMonitor(s: Sys, c: Choice) {
    match c
    case ControllerTurn(_) =>
      s.controller.StartEnter? || s.controller.StartWoken? || s.controller.StopEnter? || s.controller.StopWoken?
    case WorkerTurn(_, _, _) => s.worker.FirstEnter? || s.worker.SecondEnter?
    case SpuriousWake => false
  }

  ghost predicate Enabled(w: World, s: Sys, c: Choice) {
    && !s.processGone
    && (NeedsMonitor(s, c) ==> s.owner == None)
    && match c
       case ControllerTurn(_) => !Waits(s.controller) && !s.controller.StopDone?
       case WorkerTurn(_, _, r) =>
         && !s.worker.NotCreated? && !s.worker.AttachFailed? && !s.worker.Dead?
         && (s.worker.Polling? ==> Delivers(w.cfg, s.worker.table, r))
         && (s.worker.Polling? && !w.limitHappens ==>
               !Iterate(w.cfg, s.worker.table, r.(stopSeen := s.exitFlag)).OverLimit?)
       case SpuriousWake => w.spuriousWakeups && Waits(s.controller)
  }

  function ControllerStep(s: Sys, created: bool): Sys
    requires !Waits(s.controller) && !s.controller.StopDone?
  {
    match s.controller
    case Creating =>
      if created then s.(controller := StartEnter, worker := Attaching)
      else s.(controller := Started, destroyed := true)
    case StartEnter => s.(controller := StartTest, owner := Some(Controller))
    case StartTest =>
      if s.attachAttempted then s.(controller := StartExit) else s.(controller := StartWaiting, owner := None)
    case StartWoken => s.(controller := StartTest, owner := Some(Controller))
    case StartExit => s.(controller := Started, owner := None)
    case Started => s.(controller := if s.server then StopEnter else StopDone)
    case StopEnter => s.(controller := StopSetFlag, owner := Some(Controller))
    case StopSetFlag => s.(controller := StopWait, exitFlag := true)
    case StopWait => s.(controller := StopWaiting, owner := None)
    case StopWoken => s.(controller := StopExit, owner := Some(Controller))
    case StopExit => s.(controller := StopDestroy, owner := None)
    case StopDestroy => s.(controller := StopDone, destroyed := true)
  }

  predicate Serves(p: WorkerAt) { p.Booting? || p.LoopHead? || p.Polling? }

  ghost function WorkerStep(w: World, s: Sys, attached: bool, first: Sample, r: Round): Sys
    requires !s.worker.NotCreated? && !s.worker.AttachFailed? && !s.worker.Dead?
  {
    match s.worker
    case Attaching => s.(worker := FirstEnter, attachOk := attached)
    case FirstEnter => s.(worker := SetAttempted, owner := Some(Worker))
    case SetAttempted => s.(worker := SetServer, attachAttempted := true)
    case SetServer => s.(worker := FirstNotify, server := s.attachOk)
    case FirstNotify => s.(worker := FirstExit, controller := Woken(s.controller))
    case FirstExit => s.(worker := if s.attachOk then Booting else AttachFailed, owner := None)
    case Booting => s.(worker := LoopHead(Boot(w.cfg, s.open, first)))
    case LoopHead(t) => s.(worker := if s.exitFlag then Closing(t) else Polling(t))
    case Polling(t) =>
      (match Iterate(w.cfg, t, r.(stopSeen := s.exitFlag))
       case GoOn(u) => s.(worker := LoopHead(u))
       case Leave(u) => s.(worker := Closing(u))
       case OverLimit(u, _) => s.(worker := Closing(u))
       case Abort(u) => s.(processGone := true, open := Others(w.cfg, u)))
    case Closing(t) => s.(worker := Detaching, open := Others(w.cfg, t))
    case Detaching => s.(worker := SecondEnter)
    case SecondEnter => s.(worker := ClearServer, owner := Some(Worker))
    case ClearServer => s.(worker := SecondNotify, server := false)
    case SecondNotify => s.(worker := LastExit, controller := Woken(s.controller))
    case LastExit => s.(worker := Dead, owner := None)
  }

  ghost function Apply(w: World, s: Sys, c: Choice): Sys
    requires Enabled(w, s, c)
  {
    match c
    case ControllerTurn(created) => ControllerStep(s, created)
    case WorkerTurn(attached, first, r) => WorkerStep(w, s, attached, first, r)
    case SpuriousWake => s.(controller := Woken(s.controller))
  }

  /** The state after a schedule, if every turn in it could be taken. */
  ghost function Exec(w: World, s: Sys, cs: seq<Choice>): Option<Sys>
    decreases |cs|
  {
    if cs == [] then Some(s)
    else if Enabled(w, s, cs[0]) then Exec(w, Apply(w, s, cs[0]), cs[1..])
    else None
  }

  // ---- what is to be shown ----

  /** `stop` is waiting and nobody is left to wake it. */
  predicate LostWakeup(s: Sys) {
    s.controller.StopWaiting? && (s.worker.LastExit? || s.worker.Dead? || s.worker.AttachFailed?)
  }

  /** The monitor is gone although the worker has not released it for the last time. */
  predicate DestroyedTooEarly(s: Sys) { s.destroyed && !s.worker.NotCreated? && !s.worker.Dead? }

  predicate Safe(s: Sys) { !LostWakeup(s) && !DestroyedTooEarly(s) }

  // ---- the invariant, when the handler leaves only because of the flag and wakeups are notified ----

  predicate InFirstSection(p: WorkerAt) { p.SetAttempted? || p.SetServer? || p.FirstNotify? || p.FirstExit? }

  predicate InLastSection(p: WorkerAt) { p.ClearServer? || p.SecondNotify? || p.LastExit? }

  predicate Leaves(p: WorkerAt) { p.Closing? || p.Detaching? || p.SecondEnter? }

  predicate HoldsMonitor(c: ControllerAt) {
    c.StartTest? || c.StartExit? || c.StopSetFlag? || c.StopWait? || c.StopExit?
  }

  predicate InStart(c: ControllerAt) {
    c.StartEnter? || c.StartTest? || c.StartWaiting? || c.StartWoken?
  }

  predicate PastFlag(c: ControllerAt) {
    c.StopWait? || c.StopWaiting? || c.StopWoken? || c.StopExit? || c.StopDestroy?
  }

  /** Mutual exclusion on the monitor. */
  predicate OwnerInv(s: Sys) {
    && (s.owner == Some(Controller) <==> HoldsMonitor(s.controller))
    && (s.owner == Some(Worker) <==> InFirstSection(s.worker) || InLastSection(s.worker))
  }

  /** How far the worker can be for each place of the controlling thread. */
  predicate OrderInv(s: Sys) {
    && (s.worker.NotCreated? <==> s.controller.Creating? || (s.destroyed && !s.attachAttempted))
    && (s.worker.NotCreated? ==> s.controller.Creating? || s.controller.Started? || s.controller.StopDone?)
    && (s.worker.NotCreated? ==> !s.attachAttempted && !s.server)
    && (s.controller.Creating? ==> !s.destroyed)
    && (s.attachAttempted ==> !s.worker.Attaching? && !s.worker.FirstEnter? && !s.worker.SetAttempted?)
    && (!s.attachAttempted && !s.worker.NotCreated? ==>
          s.worker.Attaching? || s.worker.FirstEnter? || s.worker.SetAttempted?)
    && (s.controller.StartWaiting? ==> !s.attachAttempted || s.worker.SetServer? || s.worker.FirstNotify?)
    && (s.controller.StartWoken? ==> s.attachAttempted)
    && (!InStart(s.controller) && !s.worker.NotCreated? ==> s.attachAttempted && !InFirstSection(s.worker))
    && (s.server ==> s.attachOk && (s.worker.FirstNotify? || s.worker.FirstExit? || Serves(s.worker)
                                    || Leaves(s.worker) || s.worker.ClearServer?))
    && (s.worker.AttachFailed? ==> !s.server)
    && (!s.exitFlag && !s.worker.NotCreated? ==> !Leaves(s.worker) && !InLastSection(s.worker) && !s.worker.Dead?)
    && (s.processGone ==> !s.exitFlag)
    && (PastFlag(s.controller) ==> s.exitFlag)
    && (s.exitFlag ==> PastFlag(s.controller) || s.controller.StopDone?)
  }

  predicate StopInv(s: Sys) {
    && (s.controller.StopEnter? || s.controller.StopSetFlag? ==> Serves(s.worker))
    && (s.controller.StopWait? ==> Serves(s.worker) || Leaves(s.worker))
    && (s.controller.StopWaiting? ==>
          Serves(s.worker) || Leaves(s.worker) || s.worker.ClearServer? || s.worker.SecondNotify?)
    && (s.controller.StopWoken? ==> s.worker.LastExit? || s.worker.Dead?)
    && (s.controller.StopExit? || s.controller.StopDestroy? ==> s.worker.Dead?)
    && (s.controller.StopDone? && s.exitFlag ==> s.worker.Dead?)
    && (s.destroyed ==> s.worker.NotCreated? || s.worker.Dead?)
    && (s.destroyed && !s.worker.NotCreated? ==> s.controller.StopDone? && s.exitFlag)
  }

  /** The worker's table is sound, and what it owns it has closed once it is through. */
  ghost predicate TableInv(w: World, base: set<int>, s: Sys) {
    match s.worker
    case LoopHead(t) => Inv(w.cfg, t) && Others(w.cfg, t) == base
    case Polling(t) => Inv(w.cfg, t) && Others(w.cfg, t) == base
    case Closing(t) => Inv(w.cfg, t) && Others(w.cfg, t) == base
    case _ => s.open == base
  }

  ghost predicate SysInv(w: World, base: set<int>, s: Sys) {
    OwnerInv(s) && OrderInv(s) && StopInv(s) && (s.processGone || TableInv(w, base, s))
  }

  ghost predicate Benign(w: World) { !w.limitHappens && !w.spuriousWakeups }

  lemma InitInv(w: World, base: set<int>)
    ensures SysInv(w, base, Init(base))
  {
  }

  lemma ControllerKeeps(w: World, base: set<int>, s: Sys, created: bool)
    requires SysInv(w, base, s) && Enabled(w, s, ControllerTurn(created))
    ensures SysInv(w, base, ControllerStep(s, created))
  {
    hide Inv, Others;
  }

  ghost predicate ControlInv(s: Sys) { OwnerInv(s) && OrderInv(s) && StopInv(s) }

  lemma WorkerKeepsControl(w: World, s: Sys, attached: bool, first: Sample, r: Round)
    requires Benign(w) && ControlInv(s) && Enabled(w, s, WorkerTurn(attached, first, r)) && !s.worker.Polling?
    ensures ControlInv(WorkerStep(w, s, attached, first, r))
  {
    hide Iterate, Boot, Others, Delivers;
  }

  lemma PollingKeepsControl(s: Sys, t: State, u: State, rest: set<int>)
    requires ControlInv(s) && s.worker == Polling(t)
    ensures ControlInv(s.(worker := LoopHead(u)))
    ensures !s.exitFlag ==> ControlInv(s.(processGone := true, open := rest))
    ensures s.exitFlag ==> ControlInv(s.(worker := Closing(u)))
  {
  }

  lemma BootingKeepsTable(w: World, base: set<int>, s: Sys, attached: bool, first: Sample, r: Round)
    requires CanBoot(w.cfg, base) && s.worker.Booting? && s.open == base
    ensures TableInv(w, base, WorkerStep(w, s, attached, first, r))
  {
    hide Boot, Inv, Others, Iterate;
    BootIsSound(w.cfg, s.open, first);
  }

  lemma ServingKeepsTable(w: World, base: set<int>, s: Sys, attached: bool, first: Sample, r: Round)
    requires (s.worker.LoopHead? || s.worker.Closing?) && TableInv(w, base, s)
    ensures TableInv(w, base, WorkerStep(w, s, attached, first, r))
  {
    hide Inv, Others, Iterate;
  }

  lemma OutsideKeepsTable(w: World, base: set<int>, s: Sys, attached: bool, first: Sample, r: Round)
    requires s.open == base && !Serves(s.worker) && !s.worker.Closing?
    requires !s.worker.NotCreated? && !s.worker.AttachFailed? && !s.worker.Dead?
    ensures TableInv(w, base, WorkerStep(w, s, attached, first, r))
  {
    hide Boot, Inv, Others, Iterate;
    match s.worker
    case Attaching =>
    case FirstEnter =>
    case SetAttempted =>
    case SetServer =>
    case FirstNotify =>
    case FirstExit =>
    case Detaching =>
    case SecondEnter =>
    case ClearServer =>
    case SecondNotify =>
    case LastExit =>
  }

  lemma WorkerKeepsTable(w: World, base: set<int>, s: Sys, attached: bool, first: Sample, r: Round)
    requires CanBoot(w.cfg, base) && TableInv(w, base, s) && !s.worker.Polling?
    requires Enabled(w, s, WorkerTurn(attached, first, r))
    ensures TableInv(w, base, WorkerStep(w, s, attached, first, r))
  {
    hide WorkerStep, Inv, Others, Delivers;
    if s.worker.Booting? {
      BootingKeepsTable(w, base, s, attached, first, r);
    } else if s.worker.LoopHead? || s.worker.Closing? {
      ServingKeepsTable(w, base, s, attached, first, r);
    } else {
      OutsideKeepsTable(w, base, s, attached, first, r);
    }
  }

  /** Serving one more iteration: either the loop goes on, or the flag has been seen, or `exit(1)`. */
  lemma PollingKeeps(w: World, base: set<int>, s: Sys, r: Round)
    requires Benign(w) && SysInv(w, base, s) && s.worker.Polling?
    requires Enabled(w, s, WorkerTurn(false, r.sample, r))
    ensures SysInv(w, base, WorkerStep(w, s, false, r.sample, r))
  {
    var t, round := s.worker.table, r.(stopSeen := s.exitFlag);
    IterateKeeps(w.cfg, t, round);
    var step := Iterate(w.cfg, t, round);
    PollingKeepsControl(s, t, step.s, Others(w.cfg, step.s));
  }

  lemma StepKeeps(w: World, base: set<int>, s: Sys, c: Choice)
    requires CanBoot(w.cfg, base) && Benign(w) && SysInv(w, base, s) && Enabled(w, s, c)
    ensures SysInv(w, base, Apply(w, s, c))
  {
    match c
    case ControllerTurn(created) => ControllerKeeps(w, base, s, created);
    case WorkerTurn(attached, first, r) =>
      if s.worker.Polling? {
        assert WorkerStep(w, s, attached, first, r) == WorkerStep(w, s, false, r.sample, r);
        PollingKeeps(w, base, s, r);
      } else {
        WorkerKeepsControl(w, s, attached, first, r);
        WorkerKeepsTable(w, base, s, attached, first, r);
      }
    case SpuriousWake =>
  }

  lemma {:induction false} ExecKeeps(w: World, base: set<int>, s: Sys, cs: seq<Choice>)
    requires CanBoot(w.cfg, base) && Benign(w) && SysInv(w, base, s)
    ensures Exec(w, s, cs).Some? ==> SysInv(w, base, Exec(w, s, cs).value)
    decreases |cs|
  {
    if cs != [] && Enabled(w, s, cs[0]) {
      StepKeeps(w, base, s, cs[0]);
      ExecKeeps(w, base, Apply(w, s, cs[0]), cs[1..]);
    }
  }

  // ---- safety over every schedule ----

  ghost predicate Reachable(w: World, base: set<int>, s: Sys) { exists cs :: Exec(w, Init(base), cs) == Some(s) }

  lemma ReachableInv(w: World, base: set<int>, s: Sys)
    requires CanBoot(w.cfg, base) && Benign(w) && Reachable(w, base, s)
    ensures SysInv(w, base, s)
  {
    var cs :| Exec(w, Init(base), cs) == Some(s);
    InitInv(w, base);
    ExecKeeps(w, base, Init(base), cs);
  }

  /** No lost wakeup: whenever `stop` waits, the worker has its last `notifyAll` still before it. And the
      first one, after attaching, comes while `start` is still on, so it never wakes `stop`. */
  lemma NoLostWakeup(w: World, base: set<int>, s: Sys)
    requires CanBoot(w.cfg, base) && Benign(w) && Reachable(w, base, s)
    ensures s.controller.StopWaiting? ==>
              Serves(s.worker) || Leaves(s.worker) || s.worker.ClearServer? || s.worker.SecondNotify?
    ensures s.worker.FirstNotify? ==> InStart(s.controller)
  {
    ReachableInv(w, base, s);
  }

  lemma OwnerCases(s: Sys)
    ensures s.owner == None || s.owner == Some(Controller) || s.owner == Some(Worker)
  {
    if s.owner.Some? { match s.owner.value case Controller => case Worker => }
  }

  /** The monitor is destroyed only after the worker has released it for the last time, and nobody
      owns it then; while the worker may still use it, it exists. */
  lemma SafeDestruction(w: World, base: set<int>, s: Sys)
    requires CanBoot(w.cfg, base) && Benign(w) && Reachable(w, base, s)
    ensures s.controller.StopDestroy? ==> s.worker.Dead? && s.owner == None
    ensures s.destroyed && !s.worker.NotCreated? ==> s.worker.Dead? && s.owner == None
  {
    ReachableInv(w, base, s);
    OwnerCases(s);
  }

  /** When `stop` returns after having told a worker to go, that worker is gone and every descriptor it
      opened is closed. */
  lemma StoppedMeansClosed(w: World, base: set<int>, s: Sys)
    requires CanBoot(w.cfg, base) && Benign(w) && Reachable(w, base, s)
    ensures s.controller.StopDone? && s.exitFlag ==> s.worker.Dead? && s.open == base
  {
    ReachableInv(w, base, s);
  }

  // ---- shutdown terminates ----

  function WorkerRank(p: WorkerAt): nat {
    match p
    case Booting => 10
    case LoopHead(_) => 9
    case Polling(_) => 9
    case Closing(_) => 8
    case Detaching => 7
    case SecondEnter => 6
    case ClearServer => 5
    case SecondNotify => 4
    case LastExit => 3
    case _ => 0
  }

  function ControllerRank(c: ControllerAt): nat {
    match c
    case StopWait => 5
    case StopWaiting => 4
    case StopWoken => 3
    case StopExit => 2
    case StopDestroy => 1
    case _ => 0
  }

  function Rank(s: Sys): nat { WorkerRank(s.worker) + ControllerRank(s.controller) }

  lemma StepRanks(w: World, base: set<int>, s: Sys, c: Choice)
    requires CanBoot(w.cfg, base) && Benign(w) && SysInv(w, base, s) && s.exitFlag && Enabled(w, s, c)
    ensures Rank(Apply(w, s, c)) < Rank(s) && Apply(w, s, c).exitFlag
  {
    hide Delivers, Inv, Others, Boot;
    if c.WorkerTurn? && s.worker.Polling? {
      IterateKeeps(w.cfg, s.worker.table, c.r.(stopSeen := true));
    }
  }

  /** Until `stop` has returned, some thread can move. */
  lemma StopIsNeverStuck(w: World, base: set<int>, s: Sys, first: Sample)
    requires CanBoot(w.cfg, base) && Benign(w) && SysInv(w, base, s) && s.exitFlag
    requires !s.controller.StopDone?
    ensures Enabled(w, s, ControllerTurn(true)) || Enabled(w, s, WorkerTurn(true, first, Idle()))
  {
    hide Inv, Others, Boot;
    OwnerCases(s);
    if s.worker.Polling? { IterateKeeps(w.cfg, s.worker.table, Idle().(stopSeen := true)); }
  }

  /** From the moment the flag is set, under any scheduling at all, at most `Rank` more steps happen, and
      a schedule that cannot be continued has brought `stop` to its end with everything closed. */
  lemma {:induction false} ShutdownTerminates(w: World, base: set<int>, s: Sys, cs: seq<Choice>)
    requires CanBoot(w.cfg, base) && Benign(w) && SysInv(w, base, s) && s.exitFlag
    requires Exec(w, s, cs).Some?
    ensures |cs| <= Rank(s)
    ensures (forall c :: !Enabled(w, Exec(w, s, cs).value, c)) ==>
              var t := Exec(w, s, cs).value; t.controller.StopDone? && t.worker.Dead? && t.open == base
    decreases |cs|
  {
    if cs == [] {
      if forall c :: !Enabled(w, s, c) {
        if !s.controller.StopDone? { StopIsNeverStuck(w, base, s, Idle().sample); }
      }
    } else {
      StepKeeps(w, base, s, cs[0]);
      StepRanks(w, base, s, cs[0]);
      ShutdownTerminates(w, base, Apply(w, s, cs[0]), cs[1..]);
    }
  }

  // ---- and when it goes wrong ----

  lemma {:induction false} ExecOneMore(w: World, s: Sys, cs: seq<Choice>, c: Choice)
    requires Exec(w, s, cs).Some? && Enabled(w, Exec(w, s, cs).value, c)
    ensures Exec(w, s, cs + [c]) == Some(Apply(w, Exec(w, s, cs).value, c))
    decreases |cs|
  {
    if cs == [] {
      assert ([] + [c])[1..] == [];
    } else {
      assert (cs + [c])[1..] == cs[1..] + [c];
      ExecOneMore(w, Apply(w, s, cs[0]), cs[1..], c);
    }
  }

  lemma Turn(w: World, base: set<int>, s: Sys, c: Choice) returns (t: Sys)
    requires Reachable(w, base, s) && Enabled(w, s, c)
    ensures t == Apply(w, s, c) && Reachable(w, base, t)
  {
    var cs :| Exec(w, Init(base), cs) == Some(s);
    ExecOneMore(w, Init(base), cs, c);
    t := Apply(w, s, c);
    assert Exec(w, Init(base), cs + [c]) == Some(t);
  }

  /** The controlling thread has read `_metricServer` in `stop` and is about to enter the monitor; the
      worker has just booted. */
  function AboutToStop(table: State, base: set<int>): Sys {
    Sys(StopEnter, LoopHead(table), None, true, true, true, false, false, false, base)
  }

  lemma Attaches(w: World, base: set<int>, first: Sample) returns (s: Sys)
    ensures Reachable(w, base, s)
    ensures s == Sys(StartEnter, SetServer, Some(Worker), true, true, false, false, false, false, base)
  {
    hide Boot, Iterate, Delivers, Others;
    var k := WorkerTurn(true, first, Idle());
    s := Init(base);
    assert Exec(w, s, []) == Some(s);
    s := Turn(w, base, s, ControllerTurn(true));
    s := Turn(w, base, s, k);
    s := Turn(w, base, s, k);
    s := Turn(w, base, s, k);
  }

  lemma Attached(w: World, base: set<int>, first: Sample) returns (s: Sys)
    ensures Reachable(w, base, s)
    ensures s == Sys(StartEnter, Booting, None, true, true, true, false, false, false, base)
  {
    hide Boot, Iterate, Delivers, Others;
    var k := WorkerTurn(true, first, Idle());
    s := Attaches(w, base, first);
    s := Turn(w, base, s, k);
    s := Turn(w, base, s, k);
    s := Turn(w, base, s, k);
  }

  lemma StopIsCalled(w: World, base: set<int>, first: Sample)
    ensures Reachable(w, base, AboutToStop(Boot(w.cfg, base, first), base))
  {
    hide Boot, Iterate, Delivers, Others;
    var c, k := ControllerTurn(true), WorkerTurn(true, first, Idle());
    var s := Attached(w, base, first);
    s := Turn(w, base, s, k);
    s := Turn(w, base, s, c);
    s := Turn(w, base, s, c);
    s := Turn(w, base, s, c);
    s := Turn(w, base, s, c);
  }

  /** `stop` entering the monitor, setting the flag, and waiting. */
  lemma StopWaits(w: World, base: set<int>, s: Sys) returns (t: Sys)
    requires Reachable(w, base, s) && s.controller == StopEnter && s.owner == None && !s.processGone
    ensures Reachable(w, base, t) && t == s.(controller := StopWaiting, exitFlag := true)
  {
    hide Boot, Iterate, Delivers, Others;
    var c := ControllerTurn(true);
    t := Turn(w, base, s, c);
    t := Turn(w, base, t, c);
    t := Turn(w, base, t, c);
  }

  lemma {:induction false} ServesToTheLimit(w: World, base: set<int>, s: Sys, rounds: seq<Round>)
    requires w.limitHappens && Reachable(w, base, s) && s.worker.LoopHead? && !s.exitFlag && !s.processGone
    requires Run(w.cfg, s.worker.table, rounds).ending.LimitReached? && Possible(w.cfg, s.worker.table, rounds)
    ensures Reachable(w, base, s.(worker := Closing(Run(w.cfg, s.worker.table, rounds).s)))
    decreases |rounds|
  {
    hide Delivers, Others, Boot, ServeStep;
    var r := rounds[0];
    var step := Iterate(w.cfg, s.worker.table, r);
    assert !r.stopSeen && r.(stopSeen := s.exitFlag) == r;
    var k := WorkerTurn(true, r.sample, r);
    var t := Turn(w, base, s, k);
    t := Turn(w, base, t, k);
    if step.GoOn? {
      ServesToTheLimit(w, base, t, rounds[1..]);
    }
  }

  lemma WorkerClears(w: World, base: set<int>, s: Sys) returns (t: Sys)
    requires Reachable(w, base, s) && s.worker.SecondEnter? && s.owner == None && !s.processGone
    ensures Reachable(w, base, t) && t == s.(worker := SecondNotify, owner := Some(Worker), server := false)
  {
    hide Boot, Iterate, Delivers, Others;
    var k := WorkerTurn(true, Idle().sample, Idle());
    t := Turn(w, base, s, k);
    t := Turn(w, base, t, k);
  }

  lemma WorkerEnds(w: World, base: set<int>, s: Sys) returns (t: Sys)
    requires Reachable(w, base, s) && s.worker.SecondEnter? && s.owner == None && !s.processGone
    requires !Waits(s.controller)
    ensures Reachable(w, base, t) && t == s.(worker := Dead, server := false)
  {
    hide Boot, Iterate, Delivers, Others;
    var k := WorkerTurn(true, Idle().sample, Idle());
    t := WorkerClears(w, base, s);
    t := Turn(w, base, t, k);
    t := Turn(w, base, t, k);
  }

  /** The worker going through its last section while nobody waits. */
  lemma WorkerLeaves(w: World, base: set<int>, s: Sys) returns (t: Sys)
    requires Reachable(w, base, s) && s.worker.Closing? && s.owner == None && !s.processGone
    requires !Waits(s.controller)
    ensures Reachable(w, base, t)
    ensures t == s.(worker := Dead, server := false, open := Others(w.cfg, s.worker.table))
  {
    hide Boot, Iterate, Delivers, Others;
    var k := WorkerTurn(true, Idle().sample, Idle());
    t := Turn(w, base, s, k);
    t := Turn(w, base, t, k);
    t := WorkerEnds(w, base, t);
  }

  /** If the handler leaves at its limit, a `stop` that has already looked waits for ever. */
  lemma LimitLosesWakeup(w: World, base: set<int>) returns (s: Sys)
    requires CanBoot(w.cfg, base) && w.limitHappens
    ensures Reachable(w, base, s) && LostWakeup(s)
  {
    var first := Idle().sample;
    var table := Boot(w.cfg, base, first);
    StopIsCalled(w, base, first);
    BootIsSound(w.cfg, base, first);
    var rounds := LimitIsReached(w.cfg, table);
    s := AboutToStop(table, base);
    ServesToTheLimit(w, base, s, rounds);
    s := WorkerLeaves(w, base, s.(worker := Closing(Run(w.cfg, table, rounds).s)));
    s := StopWaits(w, base, s);
  }

  /** A wakeup without a notify lets `stop`, which waits once, destroy the monitor under the worker. */
  lemma SpuriousWakeupDestroysTooEarly(w: World, base: set<int>) returns (s: Sys)
    requires w.spuriousWakeups
    ensures Reachable(w, base, s) && DestroyedTooEarly(s)
  {
    hide Boot, Iterate, Delivers, Others;
    var first := Idle().sample;
    StopIsCalled(w, base, first);
    s := StopWaits(w, base, AboutToStop(Boot(w.cfg, base, first), base));
    s := Turn(w, base, s, SpuriousWake);
    s := Turn(w, base, s, ControllerTurn(true));
    s := Turn(w, base, s, ControllerTurn(true));
    s := Turn(w, base, s, ControllerTurn(true));
  }

  /** The handshake is safe under every schedule exactly when the handler leaves for no other reason
      than the flag and no wakeup comes without a notify. */
  lemma SafeExactlyWhenBenign(w: World, base: set<int>)
    requires CanBoot(w.cfg, base)
    ensures (forall s | Reachable(w, base, s) :: Safe(s)) <==> Benign(w)
  {
    if Benign(w) {
      forall s | Reachable(w, base, s) ensures Safe(s) {
        ReachableInv(w, base, s);
      }
    } else if w.limitHappens {
      var s := LimitLosesWakeup(w, base);
      assert !Safe(s);
    } else {
      var s := SpuriousWakeupDestroysTooEarly(w, base);
      assert !Safe(s);
    }
  }
}
