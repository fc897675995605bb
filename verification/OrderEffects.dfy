/**
  What each order does, from the moment it is issued to the moment the controller is idle again,
  whatever the workers do meanwhile.
 */
module OrderEffects {
  import opened StatusStore
  import opened WorkerProtocol

  predicate OfDevice(s: State, w: nat, n: string) {
    w < |s.workers| && s.workers[w].name == n
  }

  predicate OfWorker(a: Action) {
    a.Publish? || a.Leave? || a.Finish?
  }

  predicate Begun(a: Action) {
    a.Issue? || a.NextPending?
  }

  // ----- two more facts about every run -----

  /** Only existing workers have been told to stop, and a name with a flag is active. */
  ghost predicate Consistent(s: State) {
    Inv(s) && s.store.flags.Keys <= s.store.active && forall w | w in s.raised :: w < |s.workers|
  }

  lemma StepKeepsMarked(s: State, a: Action)
    requires Enabled(s, a) && s.store.flags.Keys <= s.store.active
    ensures Apply(s, a).store.flags.Keys <= Apply(s, a).store.active
  {
  }

  /** A step only ever raises registered flags, and keeps the workers' places. */
  lemma StepRaises(s: State, a: Action)
    requires Enabled(s, a)
    ensures s.raised <= Apply(s, a).raised <= s.raised + s.store.flags.Values
    ensures |s.workers| <= |Apply(s, a).workers|
  {
  }

  lemma FlagsExist(s: State, w: nat)
    requires StoreWellFormed(s) && w in s.store.flags.Values
    ensures w < |s.workers|
  {
    var n :| n in s.store.flags && s.store.flags[n] == w;
  }

  lemma StepKeepsConsistent(s: State, a: Action)
    requires Consistent(s) && Enabled(s, a)
    ensures Consistent(Apply(s, a)) && s.raised <= Apply(s, a).raised
  {
    hide StoreWellFormed, HandWellFormed, NoneLost, FlagsOwn, Apply, Enabled;
    StepKeepsInv(s, a);
    StepKeepsMarked(s, a);
    StepRaises(s, a);
    forall w | w in Apply(s, a).raised ensures w < |Apply(s, a).workers| {
      if w !in s.raised { FlagsExist(s, w); }
    }
  }

  lemma {:induction false} RunKeepsConsistent(s: State, actions: seq<Action>)
    requires Consistent(s) && IsRun(s, actions)
    ensures Consistent(After(s, actions)) && s.raised <= After(s, actions).raised
    decreases |actions|
  {
    hide Apply, Enabled, Consistent;
    if actions == [] {
    } else {
      StepKeepsConsistent(s, actions[0]);
      RunKeepsConsistent(Apply(s, actions[0]), actions[1..]);
    }
  }

  lemma ConsistentFromStart(actions: seq<Action>)
    requires IsRun(INITIAL, actions)
    ensures Consistent(After(INITIAL, actions))
  {
    RunKeepsConsistent(INITIAL, actions);
  }

  // ----- an order for one device leaves the others alone -----

  /** Idle, or at work on one order for n. */
  predicate About(pc: Pc, n: string) {
    && !pc.StopAllRequest? && !pc.StopAllTake? && !pc.StopAllJoin? && !pc.StopAllClear?
    && (pc.Idle? || pc.name == n)
  }

  /** The handle kept for m is the old one, m has the old workers, and none of them has been told to stop since. */
  ghost predicate Undisturbed(s: State, s': State, m: string) {
    && (m in s'.store.threads <==> m in s.store.threads)
    && (m in s.store.threads ==> s'.store.threads[m] == s.store.threads[m])
    && (forall w: nat :: OfDevice(s', w, m) <==> OfDevice(s, w, m))
    && (forall w: nat | OfDevice(s, w, m) :: w in s'.raised <==> w in s.raised)
  }

  /** Nothing about m has changed at all. */
  ghost predicate Unchanged(s: State, s': State, m: string) {
    && Undisturbed(s, s', m)
    && (m in s'.store.active <==> m in s.store.active)
    && (m in s'.store.flags <==> m in s.store.flags)
    && (m in s.store.flags ==> s'.store.flags[m] == s.store.flags[m])
    && (m in s'.store.statuses <==> m in s.store.statuses)
    && (m in s.store.statuses ==> s'.store.statuses[m] == s.store.statuses[m])
    && (forall w: nat | OfDevice(s, w, m) :: s'.workers[w] == s.workers[w])
  }

  lemma StepIsAbout(s: State, a: Action, n: string)
    requires Enabled(s, a) && About(s.pc, n) && !Begun(a)
    ensures About(Apply(s, a).pc, n)
  {
  }

  lemma WorkerStepUndisturbed(s: State, a: Action, m: string)
    requires Inv(s) && Enabled(s, a) && OfWorker(a)
    ensures Undisturbed(s, Apply(s, a), m)
    ensures !OfDevice(s, a.worker, m) ==> Unchanged(s, Apply(s, a), m)
  {
    hide Inv;
    WorkerStepIsLocal(s, a, a.worker);
  }

  lemma SpawnUndisturbed(s: State, m: string)
    requires Enabled(s, Advance) && s.pc.StartSpawn? && s.pc.name != m
    ensures Unchanged(s, Apply(s, Advance), m)
  {
    var s' := Apply(s, Advance);
    assert s'.workers[|s.workers|].name != m;
    assert forall w: nat | w < |s.workers| :: s'.workers[w] == s.workers[w];
  }

  lemma RequestUndisturbed(s: State, m: string)
    requires StoreWellFormed(s) && Enabled(s, Advance) && s.pc.StopRequest? && s.pc.name != m
    ensures Unchanged(s, Apply(s, Advance), m)
  {
  }

  /** The steps that leave all workers as they are. */
  lemma StoreStepUndisturbed(s: State, a: Action, n: string, m: string)
    requires Enabled(s, a) && About(s.pc, n) && m != n && !Begun(a) && !OfWorker(a)
    requires !(a.Advance? && (s.pc.StartSpawn? || s.pc.StopRequest?))
    ensures Unchanged(s, Apply(s, a), m)
  {
    assert Apply(s, a).workers == s.workers && Apply(s, a).raised == s.raised;
  }

  lemma OrderStepUndisturbed(s: State, a: Action, n: string, m: string)
    requires Inv(s) && Enabled(s, a) && About(s.pc, n) && m != n && !Begun(a) && !OfWorker(a)
    ensures Unchanged(s, Apply(s, a), m)
  {
    hide StoreWellFormed, HandWellFormed, NoneLost, FlagsOwn, Apply, Enabled, Unchanged;
    if a.Advance? && s.pc.StartSpawn? {
      SpawnUndisturbed(s, m);
    } else if a.Advance? && s.pc.StopRequest? {
      RequestUndisturbed(s, m);
    } else {
      StoreStepUndisturbed(s, a, n, m);
    }
  }

  lemma StepUndisturbed(s: State, a: Action, n: string, m: string)
    requires Inv(s) && Enabled(s, a) && About(s.pc, n) && m != n && !Begun(a)
    ensures Undisturbed(s, Apply(s, a), m) && About(Apply(s, a).pc, n)
    ensures !(OfWorker(a) && OfDevice(s, a.worker, m)) ==> Unchanged(s, Apply(s, a), m)
    ensures forall w: nat :: OfDevice(Apply(s, a), w, m) <==> OfDevice(s, w, m)
  {
    hide Inv;
    if OfWorker(a) {
      WorkerStepUndisturbed(s, a, m);
    } else {
      OrderStepUndisturbed(s, a, n, m);
    }
  }

  lemma UndisturbedThroughout(s: State, s': State, s'': State, m: string)
    requires Undisturbed(s, s', m) && Undisturbed(s', s'', m)
    ensures Undisturbed(s, s'', m)
    ensures Unchanged(s, s', m) && Unchanged(s', s'', m) ==> Unchanged(s, s'', m)
  {
  }

  lemma UndisturbedAtFirst(s: State, m: string)
    ensures Unchanged(s, s, m) && Undisturbed(s, s, m)
  {
  }

  /** No action of the list is a step of one of m's workers. */
  ghost predicate NoneActs(s: State, actions: seq<Action>, m: string) {
    forall a | a in actions && OfWorker(a) :: !OfDevice(s, a.worker, m)
  }

  /**
    Until a single device's start or stop is over, every other device keeps its handle, gets no worker and is
    not told to stop; and if its own worker does nothing meanwhile, nothing about it changes.
   */
  lemma {:induction false} OthersUndisturbed(s: State, actions: seq<Action>, n: string, m: string)
    requires Inv(s) && IsRun(s, actions) && BeginsNothing(actions) && About(s.pc, n) && m != n
    ensures Undisturbed(s, After(s, actions), m)
    ensures NoneActs(s, actions, m) ==> Unchanged(s, After(s, actions), m)
    decreases |actions|
  {
    hide Apply, Enabled, Inv, Undisturbed, Unchanged, About, OfDevice;
    if actions == [] {
      UndisturbedAtFirst(s, m);
    } else {
      var a, s' := actions[0], Apply(s, actions[0]);
      assert a in actions;
      StepKeepsInv(s, a);
      StepUndisturbed(s, a, n, m);
      OthersUndisturbed(s', actions[1..], n, m);
      UndisturbedThroughout(s, s', After(s, actions), m);
    }
  }

  // ----- stop -----

  /** The device is stopped: its workers have ended and the store knows neither mark, flag nor handle. */
  ghost predicate Stopped(s: State, n: string) {
    && (forall w: nat | OfDevice(s, w, n) :: s.workers[w].phase == Finished)
    && n !in s.store.active && n !in s.store.flags && n !in s.store.threads
  }

  ghost predicate StopUnderway(s: State, n: string) {
    match s.pc
    case StopTake(m) => m == n
    case StopErase(m, _) => m == n
    case StopJoin(m, _) => m == n
    case StopMark(m) => m == n
    case Idle => Stopped(s, n)
    case _ => false
  }

  lemma StepKeepsStopUnderway(s: State, a: Action, n: string)
    requires Inv(s) && Enabled(s, a) && !Begun(a) && StopUnderway(s, n)
    ensures StopUnderway(Apply(s, a), n)
  {
    hide HandWellFormed, FlagsOwn;
    if s.pc.StopMark? {
      assert Reserved(s.pc, n);
      forall w: nat | OfDevice(s, w, n) ensures s.workers[w].phase == Finished {
        assert InHand(s.pc) == [] && ThreadOf(s.store, n) == NotJoinable;
      }
    }
  }

  lemma {:induction false} StopReachesStopped(s: State, actions: seq<Action>, n: string)
    requires Inv(s) && IsRun(s, actions) && BeginsNothing(actions) && StopUnderway(s, n)
    requires After(s, actions).pc == Idle
    ensures Stopped(After(s, actions), n)
    decreases |actions|
  {
    hide Apply, Enabled, Inv, Stopped;
    if actions == [] {
    } else {
      assert actions[0] in actions;
      StepKeepsInv(s, actions[0]);
      StepKeepsStopUnderway(s, actions[0], n);
      StopReachesStopped(Apply(s, actions[0]), actions[1..], n);
    }
  }

  /** A stop that finds the device active tells its worker, and ends with the device stopped. */
  lemma StopOfActive(s: State, actions: seq<Action>, n: string)
    requires Consistent(s) && s.pc == StopRequest(n) && n in s.store.active
    requires IsRun(s, actions) && BeginsNothing(actions) && actions != [] && actions[0] == Advance
    requires After(s, actions).pc == Idle
    ensures Stopped(After(s, actions), n)
    ensures n in s.store.flags ==> s.store.flags[n] in After(s, actions).raised
  {
    hide Inv;
    StepKeepsConsistent(s, Advance);
    StopReachesStopped(Apply(s, Advance), actions[1..], n);
    RunKeepsConsistent(Apply(s, Advance), actions[1..]);
  }

  /** A stop that finds the device inactive is over at once and changes nothing. */
  lemma StopOfInactive(s: State, n: string)
    requires Enabled(s, Advance) && s.pc == StopRequest(n) && n !in s.store.active
    ensures Apply(s, Advance).pc == Idle && Apply(s, Advance).raised == s.raised
    ensures Apply(s, Advance).store == s.store && Apply(s, Advance).workers == s.workers
  {
  }

  // ----- stop, from the call to the return -----

  ghost predicate Ended(s: State, n: string) {
    && (forall w: nat | OfDevice(s, w, n) :: s.workers[w].phase == Finished)
    && n !in s.store.active && n !in s.store.flags
  }

  /** As long as it has not been looked at, the device may also end by itself. */
  ghost predicate StopsOrEnded(s: State, n: string) {
    s.pc == StopRequest(n) || (if s.pc.Idle? then Ended(s, n) else StopUnderway(s, n))
  }

  /** While no start is under way, an inactive device of a registered run has no unfinished worker. */
  lemma InactiveEnded(s: State, n: string)
    requires Consistent(s) && Registered(s) && s.pc == StopRequest(n) && n !in s.store.active
    ensures Ended(s, n)
  {
    forall w: nat | OfDevice(s, w, n) ensures s.workers[w].phase == Finished {
      assert InHand(s.pc) == [];
      assert Live(s, w) ==> IsRegistered(s, w);
    }
  }

  lemma StepKeepsStopsOrEnded(s: State, a: Action, n: string)
    requires Consistent(s) && Registered(s) && Enabled(s, a) && !Begun(a) && StopsOrEnded(s, n)
    ensures StopsOrEnded(Apply(s, a), n)
  {
    hide Inv, Registered;
    if s.pc == StopRequest(n) {
      if a.Advance? && n !in s.store.active { InactiveEnded(s, n); }
    } else if !s.pc.Idle? {
      StepKeepsStopUnderway(s, a, n);
    }
  }

  lemma StopKeepsRegistered(s: State, a: Action, n: string)
    requires Consistent(s) && Registered(s) && Enabled(s, a) && StopsOrEnded(s, n)
    ensures Registered(Apply(s, a))
  {
    hide Apply, Registered, Inv;
    RegistrationLostExactly(s, a);
  }

  lemma {:induction false} StopReachesEnded(s: State, actions: seq<Action>, n: string)
    requires Consistent(s) && Registered(s) && IsRun(s, actions) && BeginsNothing(actions) && StopsOrEnded(s, n)
    requires After(s, actions).pc == Idle
    ensures Ended(After(s, actions), n)
    decreases |actions|
  {
    hide Apply, Enabled, Inv, Registered, Ended, StopUnderway;
    if actions == [] {
    } else {
      var a := actions[0];
      assert a in actions;
      StepKeepsStopsOrEnded(s, a, n);
      StopKeepsRegistered(s, a, n);
      StepKeepsConsistent(s, a);
      StopReachesEnded(Apply(s, a), actions[1..], n);
    }
  }

  lemma StopKeepsIssued(s: State, n: string)
    requires Consistent(s) && Registered(s) && Enabled(s, Issue(Stop(n)))
    ensures Registered(Apply(s, Issue(Stop(n))))
  {
    RegistrationLostExactly(s, Issue(Stop(n)));
  }

  /**
    When a stop of a registered run returns, every worker the device ever had is over, and the device is
    neither active nor flagged.
   */
  lemma StopEndsDevice(s: State, actions: seq<Action>, n: string)
    requires Consistent(s) && Registered(s) && s.pc == Idle
    requires actions != [] && actions[0] == Issue(Stop(n)) && BeginsNothing(actions[1..])
    requires IsRun(s, actions) && After(s, actions).pc == Idle
    ensures var s' := After(s, actions);
            && (forall w: nat | OfDevice(s', w, n) :: s'.workers[w].phase == Finished)
            && n !in s'.store.active && n !in s'.store.flags
            && forall m | m != n :: Undisturbed(s, s', m)
  {
    hide Inv, Registered;
    var next := Apply(s, actions[0]);
    StepKeepsConsistent(s, actions[0]);
    StopKeepsIssued(s, n);
    StopReachesEnded(next, actions[1..], n);
    forall m | m != n ensures Undisturbed(s, After(s, actions), m) {
      OthersUndisturbed(next, actions[1..], n, m);
      UndisturbedAtFirst(s, m);
    }
  }

  // ----- stopAll -----

  /** No worker is left, and the store knows none. */
  ghost predicate AllStopped(s: State) {
    && (forall w: nat | w < |s.workers| :: s.workers[w].phase == Finished)
    && s.store.active == {} && s.store.flags == map[] && s.store.threads == map[]
  }

  ghost predicate StopAllUnderway(s: State) {
    s.pc.StopAllRequest? || s.pc.StopAllTake? || s.pc.StopAllJoin? || s.pc.StopAllClear?
    || (s.pc.Idle? && AllStopped(s))
  }

  lemma StepKeepsStopAllUnderway(s: State, a: Action)
    requires Inv(s) && Enabled(s, a) && !Begun(a) && StopAllUnderway(s)
    ensures StopAllUnderway(Apply(s, a))
  {
    hide HandWellFormed, FlagsOwn;
    if s.pc.StopAllClear? {
      assert forall n :: Reserved(s.pc, n);
      forall w: nat | w < |s.workers| ensures s.workers[w].phase == Finished {
        assert InHand(s.pc) == [] && ThreadOf(s.store, s.workers[w].name) == NotJoinable;
      }
    }
  }

  lemma {:induction false} StopAllReachesStopped(s: State, actions: seq<Action>)
    requires Inv(s) && IsRun(s, actions) && BeginsNothing(actions) && StopAllUnderway(s)
    requires After(s, actions).pc == Idle
    ensures AllStopped(After(s, actions))
    decreases |actions|
  {
    hide Apply, Enabled, Inv, AllStopped;
    if actions == [] {
    } else {
      assert actions[0] in actions;
      StepKeepsInv(s, actions[0]);
      StepKeepsStopAllUnderway(s, actions[0]);
      StopAllReachesStopped(Apply(s, actions[0]), actions[1..]);
    }
  }

  /** When stopAll returns, every worker ever created is over and the store knows none. */
  lemma StopAllEndsEverything(s: State, actions: seq<Action>)
    requires Inv(s) && s.pc == Idle
    requires actions != [] && actions[0] == Issue(StopAll) && BeginsNothing(actions[1..])
    requires IsRun(s, actions) && After(s, actions).pc == Idle
    ensures var s' := After(s, actions);
            && (forall w: nat | w < |s'.workers| :: s'.workers[w].phase == Finished)
            && s'.store.active == {} && s'.store.flags == map[] && s'.store.threads == map[]
  {
    hide Inv;
    StepKeepsInv(s, actions[0]);
    StopAllReachesStopped(Apply(s, actions[0]), actions[1..]);
  }

  /** Its first step tells every worker that has a flag to stop, and none of them is untold later. */
  lemma StopAllTellsEveryone(s: State, actions: seq<Action>)
    requires Consistent(s) && s.pc == StopAllRequest && IsRun(s, actions)
    requires actions != [] && actions[0] == Advance
    ensures s.store.flags.Values <= After(s, actions).raised
  {
    hide Inv;
    StepKeepsConsistent(s, Advance);
    RunKeepsConsistent(Apply(s, Advance), actions[1..]);
  }

  // ----- start -----

  /** Worker k is the device's one new worker: its handle is kept, older ones are over, and nobody told it to stop. */
  ghost predicate Started(s: State, n: string, k: nat) {
    && |s.workers| == k + 1 && s.workers[k].name == n && k !in s.raised
    && n in s.store.threads && s.store.threads[n] == Joinable(k)
    && (forall w: nat | w < k && OfDevice(s, w, n) :: s.workers[w].phase == Finished)
    && (Live(s, k) ==> n in s.store.active && n in s.store.flags && s.store.flags[n] == k)
  }

  /** No worker was made, and the refusal has left the device without mark and flag. */
  ghost predicate Refused(s: State, n: string, k: nat) {
    |s.workers| == k && n !in s.store.active && n !in s.store.flags
  }

  ghost predicate StartUnderway(s: State, n: string, k: nat) {
    k !in s.raised &&
    match s.pc
    case StartCheck(m) => m == n && |s.workers| == k
    case StartTake(m) => m == n && |s.workers| == k
    case StartErase(m, _) => m == n && |s.workers| == k
    case StartJoin(m, _) => m == n && |s.workers| == k
    case StartSpawn(m) => m == n && |s.workers| == k
    case StartAdd(m, w) =>
      && m == n && w == k && |s.workers| == k + 1 && s.workers[k].name == n
      && forall w: nat | w < k && OfDevice(s, w, n) :: s.workers[w].phase == Finished
    case StartFail(m) => m == n && |s.workers| == k
    case Idle => Started(s, n, k) || Refused(s, n, k)
    case _ => false
  }

  lemma SpawnKeepsStartUnderway(s: State, n: string, k: nat)
    requires Inv(s) && Enabled(s, Advance) && s.pc.StartSpawn? && StartUnderway(s, n, k)
    ensures StartUnderway(Apply(s, Advance), n, k)
  {
    hide HandWellFormed, FlagsOwn;
    assert Reserved(s.pc, n);
    forall w: nat | w < k && OfDevice(s, w, n) ensures s.workers[w].phase == Finished {
      assert InHand(s.pc) == [] && ThreadOf(s.store, n) == NotJoinable;
    }
  }

  lemma WorkerKeepsStartUnderway(s: State, a: Action, n: string, k: nat)
    requires Consistent(s) && Enabled(s, a) && OfWorker(a) && StartUnderway(s, n, k)
    ensures StartUnderway(Apply(s, a), n, k)
    ensures s.pc.Idle? && Started(s, n, k) ==> Started(Apply(s, a), n, k)
    ensures s.pc.Idle? && Refused(s, n, k) ==> Refused(Apply(s, a), n, k)
  {
    hide HandWellFormed, NoneLost, FlagsOwn;
  }

  lemma StepKeepsStartUnderway(s: State, a: Action, n: string, k: nat)
    requires Consistent(s) && Enabled(s, a) && !Begun(a) && StartUnderway(s, n, k)
    ensures StartUnderway(Apply(s, a), n, k)
    ensures s.pc.Idle? && Started(s, n, k) ==> Started(Apply(s, a), n, k)
    ensures s.pc.Idle? && Refused(s, n, k) ==> Refused(Apply(s, a), n, k)
  {
    hide HandWellFormed, NoneLost, FlagsOwn;
    if OfWorker(a) {
      WorkerKeepsStartUnderway(s, a, n, k);
    } else if s.pc.StartSpawn? && a.Advance? {
      SpawnKeepsStartUnderway(s, n, k);
    }
  }

  /** Past the running check, or about to pass it. */
  ghost predicate Accepted(s: State, n: string, k: nat) {
    !s.pc.StartFail? && (s.pc.StartCheck? ==> n !in s.store.active) && (s.pc.Idle? ==> Started(s, n, k))
  }

  lemma StepKeepsAccepted(s: State, a: Action, n: string, k: nat)
    requires Consistent(s) && Enabled(s, a) && !Begun(a) && StartUnderway(s, n, k) && Accepted(s, n, k)
    requires !a.Reject? && !a.SpawnFails?
    ensures Accepted(Apply(s, a), n, k)
  {
    StepKeepsStartUnderway(s, a, n, k);
  }

  /** Refused by the running check, or about to be: the handle that was kept is still there. */
  ghost predicate TurnedAway(s: State, n: string, k: nat, kept: Thread) {
    && (s.pc.StartFail? || (s.pc.StartCheck? && n in s.store.active) || (s.pc.Idle? && Refused(s, n, k)))
    && ThreadOf(s.store, n) == kept
  }

  lemma StepKeepsTurnedAway(s: State, a: Action, n: string, k: nat, kept: Thread)
    requires Consistent(s) && Enabled(s, a) && !Begun(a) && StartUnderway(s, n, k) && TurnedAway(s, n, k, kept)
    requires a.Finish? ==> !OfDevice(s, a.worker, n)
    ensures TurnedAway(Apply(s, a), n, k, kept)
  {
    StepKeepsStartUnderway(s, a, n, k);
  }

  lemma {:induction false} StartReachesOutcome(s: State, actions: seq<Action>, n: string, k: nat)
    requires Consistent(s) && IsRun(s, actions) && BeginsNothing(actions) && StartUnderway(s, n, k)
    requires After(s, actions).pc == Idle
    ensures Started(After(s, actions), n, k) || Refused(After(s, actions), n, k)
    ensures Accepted(s, n, k) && Reject !in actions && SpawnFails !in actions ==> Started(After(s, actions), n, k)
    decreases |actions|
  {
    hide Apply, Enabled, Inv, Started, Refused;
    if actions == [] {
    } else {
      var a := actions[0];
      assert a in actions;
      StepKeepsConsistent(s, a);
      StepKeepsStartUnderway(s, a, n, k);
      if Accepted(s, n, k) && !a.Reject? && !a.SpawnFails? { StepKeepsAccepted(s, a, n, k); }
      StartReachesOutcome(Apply(s, a), actions[1..], n, k);
    }
  }

  /** As long as no worker of n ends by itself. */
  ghost predicate NoneEnds(s: State, actions: seq<Action>, n: string) {
    forall a | a in actions && a.Finish? :: !OfDevice(s, a.worker, n)
  }

  /** The steps of a refusal make no worker. */
  lemma TurnedAwayNames(s: State, a: Action, n: string, k: nat, kept: Thread)
    requires Enabled(s, a) && TurnedAway(s, n, k, kept) && !Begun(a)
    ensures forall w: nat :: OfDevice(Apply(s, a), w, n) <==> OfDevice(s, w, n)
  {
  }

  lemma {:induction false} RefusalReachesOutcome(s: State, actions: seq<Action>, n: string, k: nat, kept: Thread)
    requires Consistent(s) && IsRun(s, actions) && BeginsNothing(actions) && StartUnderway(s, n, k)
    requires TurnedAway(s, n, k, kept) && NoneEnds(s, actions, n) && After(s, actions).pc == Idle
    ensures Refused(After(s, actions), n, k) && ThreadOf(After(s, actions).store, n) == kept
    decreases |actions|
  {
    hide Apply, Enabled, Inv, Started, Refused;
    if actions == [] {
    } else {
      var a := actions[0];
      assert a in actions;
      StepKeepsConsistent(s, a);
      StepKeepsStartUnderway(s, a, n, k);
      StepKeepsTurnedAway(s, a, n, k, kept);
      TurnedAwayNames(s, a, n, k, kept);
      RefusalReachesOutcome(Apply(s, a), actions[1..], n, k, kept);
    }
  }

  lemma StartIssued(s: State, n: string)
    requires Consistent(s) && Enabled(s, Issue(Start(n)))
    ensures var s' := Apply(s, Issue(Start(n))); Consistent(s') && StartUnderway(s', n, |s.workers|)
  {
    StepKeepsConsistent(s, Issue(Start(n)));
  }

  lemma StepKeepsWorking(s: State, a: Action, w: nat)
    requires Enabled(s, a) && a != Leave(w) && (w < |s.workers| ==> s.workers[w].phase == Running)
    ensures w < |Apply(s, a).workers| ==> Apply(s, a).workers[w].phase == Running
  {
  }

  /** A worker is at work from its making until it leaves its loop. */
  lemma {:induction false} WorksUntilItLeaves(s: State, actions: seq<Action>, w: nat)
    requires IsRun(s, actions) && Leave(w) !in actions && (w < |s.workers| ==> s.workers[w].phase == Running)
    ensures w < |After(s, actions).workers| ==> After(s, actions).workers[w].phase == Running
    decreases |actions|
  {
    hide Apply, Enabled;
    if actions == [] {
    } else {
      assert actions[0] in actions;
      StepKeepsWorking(s, actions[0], w);
      WorksUntilItLeaves(Apply(s, actions[0]), actions[1..], w);
    }
  }

  /**
    A start of an inactive device that meets no refusal makes exactly one worker and keeps its handle, with every older
    worker of the device over. The new one works until it leaves its loop, active and flagged for as long as it lives.
   */
  lemma StartMakesOneWorker(s: State, actions: seq<Action>, n: string)
    requires Consistent(s) && s.pc == Idle && n !in s.store.active
    requires actions != [] && actions[0] == Issue(Start(n)) && BeginsNothing(actions[1..])
    requires IsRun(s, actions) && Reject !in actions && SpawnFails !in actions && After(s, actions).pc == Idle
    ensures var s', k := After(s, actions), |s.workers|;
            && |s'.workers| == k + 1 && s'.workers[k].name == n && k !in s'.raised
            && n in s'.store.threads && s'.store.threads[n] == Joinable(k)
            && (forall w: nat | w < k && OfDevice(s', w, n) :: s'.workers[w].phase == Finished)
            && (Leave(k) !in actions ==> s'.workers[k].phase == Running)
            && (Live(s', k) ==> n in s'.store.active && n in s'.store.flags && s'.store.flags[n] == k)
  {
    hide Inv;
    StartIssued(s, n);
    if Leave(|s.workers|) !in actions { WorksUntilItLeaves(s, actions, |s.workers|); }
    StartReachesOutcome(Apply(s, actions[0]), actions[1..], n, |s.workers|);
  }

  /** A start of an active device whose worker does not end meanwhile makes no worker and keeps the old handle. */
  lemma StartOfActiveRefused(s: State, actions: seq<Action>, n: string)
    requires Consistent(s) && s.pc == Idle && n in s.store.active
    requires actions != [] && actions[0] == Issue(Start(n)) && BeginsNothing(actions[1..])
    requires IsRun(s, actions) && NoneEnds(s, actions, n) && After(s, actions).pc == Idle
    ensures var s' := After(s, actions);
            && |s'.workers| == |s.workers| && n !in s'.store.active && n !in s'.store.flags
            && ThreadOf(s'.store, n) == ThreadOf(s.store, n)
  {
    hide Inv;
    StartIssued(s, n);
    RefusalReachesOutcome(Apply(s, actions[0]), actions[1..], n, |s.workers|, ThreadOf(s.store, n));
  }

  /** Whatever happens meanwhile, a start ends in one of these two ways, and the other devices are left alone. */
  lemma StartEndsEitherWay(s: State, actions: seq<Action>, n: string)
    requires Consistent(s) && s.pc == Idle
    requires actions != [] && actions[0] == Issue(Start(n)) && BeginsNothing(actions[1..])
    requires IsRun(s, actions) && After(s, actions).pc == Idle
    ensures Started(After(s, actions), n, |s.workers|) || Refused(After(s, actions), n, |s.workers|)
    ensures forall m | m != n :: Undisturbed(s, After(s, actions), m)
  {
    hide Inv;
    StartIssued(s, n);
    StartReachesOutcome(Apply(s, actions[0]), actions[1..], n, |s.workers|);
    forall m | m != n ensures Undisturbed(s, After(s, actions), m) {
      OthersUndisturbed(Apply(s, actions[0]), actions[1..], n, m);
      UndisturbedAtFirst(s, m);
    }
  }

  /** How far a start still has to go. */
  function StepsOfStart(pc: Pc): nat {
    match pc
    case StartCheck(_) => 7
    case StartTake(_) => 6
    case StartErase(_, _) => 5
    case StartJoin(_, _) => 4
    case StartSpawn(_) => 3
    case StartAdd(_, _) => 2
    case StartFail(_) => 1
    case _ => 0
  }

  lemma InvRuns(s: State)
    requires Inv(s)
    ensures !s.terminated
  {
  }

  lemma StartCanGoOn(s: State)
    requires Sound(s) && StepsOfStart(s.pc) > 0
    ensures Enabled(s, Advance)
    ensures StepsOfStart(Apply(s, Advance).pc) < StepsOfStart(s.pc)
    ensures StepsOfStart(Apply(s, Advance).pc) == 0 ==> Apply(s, Advance).pc == Idle
  {
    hide Inv;
    assert !s.terminated by { InvRuns(s); }
  }

  lemma StaysUnorphaned(s: State)
    requires Enabled(s, Advance) && StepsOfStart(s.pc) > 0
    requires s.pc.StartCheck? || s.pc.StartFail? ==> !LiveUnder(s, s.pc.name)
    ensures Apply(s, Advance).pc.StartFail? ==> !LiveUnder(Apply(s, Advance), Apply(s, Advance).pc.name)
    ensures !Apply(s, Advance).pc.StartCheck?
  {
  }

  /** A careful start is never kept waiting: from anywhere in it the controller alone brings it to its end. */
  lemma {:induction false} StartCompletes(s: State) returns (actions: seq<Action>)
    requires Sound(s) && (StepsOfStart(s.pc) > 0 || s.pc.Idle?)
    requires s.pc.StartCheck? || s.pc.StartFail? ==> !LiveUnder(s, s.pc.name)
    ensures IsRun(s, actions) && (forall a | a in actions :: a == Advance) && After(s, actions).pc == Idle
    decreases StepsOfStart(s.pc)
  {
    hide Apply, Enabled, Inv, Registered, JoinsAnswered;
    if s.pc.Idle? {
      actions := [];
    } else {
      StartCanGoOn(s);
      StepKeepsInv(s, Advance);
      RegistrationLostExactly(s, Advance);
      StepKeepsJoinsAnswered(s, Advance);
      StaysUnorphaned(s);
      var rest := StartCompletes(Apply(s, Advance));
      actions := [Advance] + rest;
      assert actions[1..] == rest;
    }
  }

  // ----- startAll -----

  predicate InStart(pc: Pc) {
    pc.StartCheck? || pc.StartTake? || pc.StartErase? || pc.StartJoin? || pc.StartSpawn? || pc.StartAdd?
  }

  /** The first i names have their workers, made in the order of the names from worker k on. */
  ghost predicate MadeFor(s: State, names: seq<string>, k: nat, i: nat) {
    i <= |names| && |s.workers| == k + i && forall j | 0 <= j < i :: s.workers[k + j].name == names[j]
  }

  /** Of the names, i have been begun and are no longer pending; the others are distinct and not active. */
  ghost predicate StartAllUnderway(s: State, names: seq<string>, k: nat) {
    var i := |names| - |s.pending|;
    && i >= 0 && s.pending == names[i..]
    && (forall j | 0 <= j < |s.pending| :: s.pending[j] !in s.store.active)
    && (s.pc.Idle? || (InStart(s.pc) && i > 0 && s.pc.name == names[i - 1]))
    && (s.pc.StartCheck? ==> s.pc.name !in s.store.active)
    && MadeFor(s, names, k, if s.pc.Idle? || s.pc.StartAdd? then i else i - 1)
  }

  lemma WorkerKeepsStartAll(s: State, a: Action, names: seq<string>, k: nat)
    requires Inv(s) && Enabled(s, a) && OfWorker(a) && StartAllUnderway(s, names, k)
    ensures StartAllUnderway(Apply(s, a), names, k)
  {
    hide Inv;
  }

  lemma PendingKeepsStartAll(s: State, names: seq<string>, k: nat)
    requires Enabled(s, NextPending) && StartAllUnderway(s, names, k)
    ensures StartAllUnderway(Apply(s, NextPending), names, k)
  {
  }

  lemma OrderKeepsStartAll(s: State, a: Action, names: seq<string>, k: nat)
    requires Enabled(s, a) && StartAllUnderway(s, names, k) && (a.Advance? || a.TakeAll?)
    requires forall i, j | 0 <= i < j < |names| :: names[i] != names[j]
    ensures StartAllUnderway(Apply(s, a), names, k) && !Orphans(s, a)
  {
    var i := |names| - |s.pending|;
    assert forall j | 0 <= j < |s.pending| :: s.pending[j] == names[i + j];
    assert forall m | m in Apply(s, a).store.active :: m in s.store.active || m == s.pc.name;
  }

  lemma StepKeepsStartAll(s: State, a: Action, names: seq<string>, k: nat)
    requires Inv(s) && Enabled(s, a) && !a.Issue? && !a.Reject? && !a.SpawnFails?
    requires StartAllUnderway(s, names, k) && forall i, j | 0 <= i < j < |names| :: names[i] != names[j]
    ensures StartAllUnderway(Apply(s, a), names, k) && !Orphans(s, a)
  {
    hide Inv;
    if OfWorker(a) {
      WorkerKeepsStartAll(s, a, names, k);
    } else if a.NextPending? {
      PendingKeepsStartAll(s, names, k);
    } else {
      OrderKeepsStartAll(s, a, names, k);
    }
  }

  lemma {:induction false} StartAllReaches(s: State, actions: seq<Action>, names: seq<string>, k: nat)
    requires Inv(s) && Registered(s) && IsRun(s, actions) && StartAllUnderway(s, names, k)
    requires forall i, j | 0 <= i < j < |names| :: names[i] != names[j]
    requires forall a | a in actions :: !a.Issue? && !a.Reject? && !a.SpawnFails?
    ensures StartAllUnderway(After(s, actions), names, k)
    ensures Inv(After(s, actions)) && Registered(After(s, actions))
    decreases |actions|
  {
    hide Apply, Enabled, Inv, Registered, StartAllUnderway, Orphans;
    if actions == [] {
    } else {
      assert actions[0] in actions;
      StepKeepsInv(s, actions[0]);
      StepKeepsStartAll(s, actions[0], names, k);
      RegistrationLostExactly(s, actions[0]);
      StartAllReaches(Apply(s, actions[0]), actions[1..], names, k);
    }
  }

  lemma StartAllIssued(s: State, names: seq<string>)
    requires Registered(s) && Enabled(s, Issue(StartAll(names))) && forall n | n in names :: n !in s.store.active
    ensures StartAllUnderway(Apply(s, Issue(StartAll(names))), names, |s.workers|)
    ensures Registered(Apply(s, Issue(StartAll(names))))
  {
    assert names[0..] == names;
    assert Apply(s, Issue(StartAll(names))).workers == s.workers && Apply(s, Issue(StartAll(names))).store == s.store;
  }

  lemma IdleRegistered(s: State, w: nat)
    requires Inv(s) && Registered(s) && s.pc == Idle && Live(s, w)
    ensures IsRegistered(s, w)
  {
    assert InHand(s.pc) == [];
  }

  lemma StartAllOver(s: State, names: seq<string>, k: nat)
    requires Inv(s) && Registered(s) && s.pc == Idle && s.pending == [] && StartAllUnderway(s, names, k)
    ensures |s.workers| == k + |names|
    ensures forall i | 0 <= i < |names| ::
              s.workers[k + i].name == names[i] && (Live(s, k + i) ==> IsRegistered(s, k + i))
  {
    hide Inv, Registered, IsRegistered;
    forall w: nat | Live(s, w) ensures IsRegistered(s, w) { IdleRegistered(s, w); }
  }

  /**
    A startAll over inactive devices that meets no refusal makes one worker for each, in their order, and each of
    them that is still at work when it returns can be reached by a stop.
   */
  lemma StartAllStartsEach(s: State, actions: seq<Action>, names: seq<string>)
    requires Inv(s) && Registered(s) && s.pc == Idle && forall n | n in names :: n !in s.store.active
    requires forall i, j | 0 <= i < j < |names| :: names[i] != names[j]
    requires actions != [] && actions[0] == Issue(StartAll(names)) && IsRun(s, actions)
    requires forall a | a in actions[1..] :: !a.Issue? && !a.Reject? && !a.SpawnFails?
    requires After(s, actions).pc == Idle && After(s, actions).pending == []
    ensures var s', k := After(s, actions), |s.workers|;
            && |s'.workers| == k + |names|
            && forall i | 0 <= i < |names| ::
                 s'.workers[k + i].name == names[i] && (Live(s', k + i) ==> IsRegistered(s', k + i))
  {
    hide Inv, Registered, StartAllUnderway, IsRegistered, Apply;
    StepKeepsInv(s, actions[0]);
    StartAllIssued(s, names);
    StartAllReaches(Apply(s, actions[0]), actions[1..], names, |s.workers|);
    StartAllOver(After(s, actions), names, |s.workers|);
  }

  /** The names that are begun, in turn. */
  ghost function BegunNames(s: State, actions: seq<Action>): seq<string>
    requires IsRun(s, actions)
    decreases |actions|
  {
    if actions == [] then []
    else
      var s' := Apply(s, actions[0]);
      (if s'.pc.StartCheck? && !s.pc.StartCheck? then [s'.pc.name] else []) + BegunNames(s', actions[1..])
  }

  lemma PendingStep(s: State, a: Action)
    requires Enabled(s, a) && !a.Issue?
    ensures var s' := Apply(s, a);
            s.pending == (if s'.pc.StartCheck? && !s.pc.StartCheck? then [s'.pc.name] else []) + s'.pending
  {
  }

  /** Whatever is refused or fails in between, the pending names are begun one after the other, each once. */
  lemma {:induction false} PendingBegunInTurn(s: State, actions: seq<Action>)
    requires IsRun(s, actions) && forall a | a in actions :: !a.Issue?
    ensures BegunNames(s, actions) + After(s, actions).pending == s.pending
    decreases |actions|
  {
    if actions == [] {
    } else {
      hide Apply, Enabled;
      assert actions[0] in actions;
      PendingStep(s, actions[0]);
      PendingBegunInTurn(Apply(s, actions[0]), actions[1..]);
    }
  }
}
