/**
  One controller and any number of workers over the shared store, interleaved step by step.
  A step is one DeviceStatusStore call, one thread creation, one join, or one move of a worker.
  Whether a command is rejected by the database, and when a worker gives up by itself, is left open.
 */
module WorkerProtocol {
  import opened Models
  import opened StatusStore

  /** Leaving: out of the collection loop, with the final markStopped still to come. */
  datatype Phase = Running | Leaving | Finished

  datatype Worker = Worker(name: string, phase: Phase) {
    predicate Unfinished() { !phase.Finished? }
  }

  /** Where the controller stands; a handle it has moved out of the store is part of the position. */
  datatype Pc =
    | Idle
    | StartCheck(name: string)
    | StartTake(name: string)
    | StartErase(name: string, stale: Thread)
    | StartJoin(name: string, stale: Thread)
    | StartSpawn(name: string)
    | StartAdd(name: string, worker: nat)
    | StartFail(name: string)
    | StopRequest(name: string)
    | StopTake(name: string)
    | StopErase(name: string, taken: Thread)
    | StopJoin(name: string, taken: Thread)
    | StopMark(name: string)
    | StopAllRequest
    | StopAllTake
    | StopAllJoin(rest: seq<Thread>)
    | StopAllClear

  /** pending: names startAll still has to start. raised: workers whose stop flag is true. */
  datatype State = State(
    store: StoreView,
    workers: seq<Worker>,
    raised: set<nat>,
    pc: Pc,
    pending: seq<string>,
    terminated: bool)

  datatype Order = Start(name: string) | StartAll(names: seq<string>) | Stop(name: string) | StopAll

  datatype Action =
    | Issue(order: Order)
    | NextPending
    | Reject
    | Advance
    | SpawnFails
    | TakeAll(keys: seq<string>)
    | Publish(worker: nat, status: DeviceStatus)
    | Leave(worker: nat)
    | Finish(worker: nat)

  const INITIAL := State(StoreView(map[], {}, map[], map[]), [], {}, Idle, [], false)

  predicate InPhase(s: State, w: nat, phase: Phase) {
    w < |s.workers| && s.workers[w].phase == phase
  }

  /** join returns at once on a handle that is not joinable, and otherwise waits for the thread to end. */
  predicate JoinReady(s: State, t: Thread) {
    t.Joinable? ==> InPhase(s, t.worker, Finished)
  }

  ghost predicate Enabled(s: State, a: Action) {
    !s.terminated &&
    match a
    case Issue(_) => s.pc.Idle? && s.pending == []
    case NextPending => s.pc.Idle? && s.pending != []
    case Reject => s.pc.StartCheck?
    case SpawnFails => s.pc.StartSpawn?
    case TakeAll(keys) => s.pc.StopAllTake? && ListsJoinable(s.store.threads, keys)
    case Publish(w, status) => InPhase(s, w, Running) && status.deviceName == s.workers[w].name
    case Leave(w) => InPhase(s, w, Running)
    case Finish(w) => InPhase(s, w, Leaving)
    case Advance =>
      match s.pc
      case Idle => false
      case StopAllTake => false
      case StartJoin(_, stale) => JoinReady(s, stale)
      case StopJoin(_, taken) => JoinReady(s, taken)
      case StopAllJoin(rest) => rest != [] ==> JoinReady(s, rest[0])
      case _ => true
  }

  function WithPhase(s: State, w: nat, phase: Phase): State
    requires w < |s.workers|
  {
    s.(workers := s.workers[w := s.workers[w].(phase := phase)])
  }

  /** The controller's own next step. */
  ghost function Advanced(s: State): State
    requires Enabled(s, Advance)
  {
    match s.pc
    case StartCheck(n) => s.(pc := if n in s.store.active then StartFail(n) else StartTake(n))
    case StartTake(n) => s.(pc := StartErase(n, ThreadOf(s.store, n)), store := WithoutThread(s.store, n))
    case StartErase(n, t) => s.(pc := StartJoin(n, t), store := WithoutFlag(s.store, n))
    case StartJoin(n, t) => s.(pc := StartSpawn(n))
    case StartSpawn(n) => s.(pc := StartAdd(n, |s.workers|), workers := s.workers + [Worker(n, Running)])
    case StartAdd(n, w) =>
      s.(pc := Idle, store := WithWorker(s.store, n, w), terminated := ThreadOf(s.store, n).Joinable?)
    case StartFail(n) => s.(pc := Idle, store := Forgotten(s.store, n))
    case StopRequest(n) =>
      if n !in s.store.active then s.(pc := Idle)
      else s.(pc := StopTake(n), raised := if n in s.store.flags then s.raised + {s.store.flags[n]} else s.raised)
    case StopTake(n) => s.(pc := StopErase(n, ThreadOf(s.store, n)), store := WithoutThread(s.store, n))
    case StopErase(n, t) => s.(pc := StopJoin(n, t), store := WithoutFlag(s.store, n))
    case StopJoin(n, t) => s.(pc := StopMark(n))
    case StopMark(n) => s.(pc := Idle, store := Forgotten(s.store, n))
    case StopAllRequest => s.(pc := StopAllTake, raised := s.raised + s.store.flags.Values)
    case StopAllJoin(rest) => s.(pc := if rest == [] then StopAllClear else StopAllJoin(rest[1..]))
    case StopAllClear => s.(pc := Idle, store := WithoutWorkers(s.store))
  }

  ghost function Apply(s: State, a: Action): State
    requires Enabled(s, a)
  {
    match a
    case Issue(Start(name)) => s.(pc := StartCheck(name))
    case Issue(StartAll(names)) => s.(pending := names)
    case Issue(Stop(name)) => s.(pc := StopRequest(name))
    case Issue(StopAll) => s.(pc := StopAllRequest)
    case NextPending => s.(pc := StartCheck(s.pending[0]), pending := s.pending[1..])
    case Reject => s.(pc := StartFail(s.pc.name))
    case SpawnFails => s.(pc := StartFail(s.pc.name))
    case TakeAll(keys) =>
      s.(pc := StopAllJoin(HandlesOf(s.store.threads, keys)), store := s.store.(threads := map[]))
    case Publish(_, status) => s.(store := WithStatus(s.store, status))
    case Leave(w) => WithPhase(s, w, Leaving)
    case Finish(w) => WithPhase(s, w, Finished).(store := Forgotten(s.store, s.workers[w].name))
    case Advance => Advanced(s)
  }

  // ----- runs -----

  ghost predicate IsRun(s: State, actions: seq<Action>)
    decreases |actions|
  {
    actions == [] || (Enabled(s, actions[0]) && IsRun(Apply(s, actions[0]), actions[1..]))
  }

  ghost function After(s: State, actions: seq<Action>): State
    requires IsRun(s, actions)
    decreases |actions|
  {
    if actions == [] then s else After(Apply(s, actions[0]), actions[1..])
  }

  lemma {:induction false} RunPrefix(s: State, actions: seq<Action>, k: nat)
    requires IsRun(s, actions) && k < |actions|
    ensures IsRun(s, actions[..k]) && Enabled(After(s, actions[..k]), actions[k])
    ensures IsRun(s, actions[..k + 1])
    ensures After(s, actions[..k + 1]) == Apply(After(s, actions[..k]), actions[k])
    decreases k
  {
    if k > 0 {
      RunPrefix(Apply(s, actions[0]), actions[1..], k - 1);
      assert actions[..k][1..] == actions[1..][..k - 1];
      assert actions[..k + 1][1..] == actions[1..][..k];
    } else {
      assert actions[..1][1..] == [];
    }
  }

  // ----- who holds a handle -----

  /** Handles the controller has moved into locals. */
  function InHand(pc: Pc): seq<Thread> {
    match pc
    case StartErase(_, t) => [t]
    case StartJoin(_, t) => [t]
    case StartAdd(_, w) => [Joinable(w)]
    case StopErase(_, t) => [t]
    case StopJoin(_, t) => [t]
    case StopAllJoin(rest) => rest
    case _ => []
  }

  datatype Place = InStore(name: string) | Local(index: nat)

  predicate HeldAt(s: State, p: Place, w: nat) {
    match p
    case InStore(n) => ThreadOf(s.store, n) == Joinable(w)
    case Local(i) => i < |InHand(s.pc)| && InHand(s.pc)[i] == Joinable(w)
  }

  ghost predicate HeldExactlyOnce(s: State, w: nat) {
    exists p :: HeldAt(s, p, w) && forall q :: HeldAt(s, q, w) ==> q == p
  }

  predicate Live(s: State, w: nat) {
    w < |s.workers| && s.workers[w].Unfinished()
  }

  /** The name under which the controller has emptied the store's handle entry. */
  predicate Reserved(pc: Pc, n: string) {
    match pc
    case StartErase(m, _) => n == m
    case StartJoin(m, _) => n == m
    case StartSpawn(m) => n == m
    case StartAdd(m, _) => n == m
    case StopErase(m, _) => n == m
    case StopJoin(m, _) => n == m
    case StopMark(m) => n == m
    case StopAllJoin(_) => true
    case StopAllClear => true
    case _ => false
  }

  /** The positions of a start after the running check, when its name is known to be inactive. */
  predicate Starting(pc: Pc, n: string) {
    (pc.StartTake? || pc.StartErase? || pc.StartJoin? || pc.StartSpawn? || pc.StartAdd?) && pc.name == n
  }

  predicate Unflagged(pc: Pc, n: string) {
    (pc.StartJoin? || pc.StartSpawn? || pc.StartAdd?) && pc.name == n
  }

  // ----- the invariant of every run -----

  ghost predicate StoreWellFormed(s: State) {
    && (forall n | n in s.store.threads ::
          && s.store.threads[n].Joinable?
          && s.store.threads[n].worker < |s.workers|
          && s.workers[s.store.threads[n].worker].name == n)
    && (forall n | n in s.store.flags ::
          && s.store.flags[n] < |s.workers|
          && s.workers[s.store.flags[n]].name == n)
    && (forall n | Reserved(s.pc, n) :: n !in s.store.threads)
    && (forall n | Starting(s.pc, n) :: n !in s.store.active)
    && (forall n | Unflagged(s.pc, n) :: n !in s.store.flags)
  }

  ghost predicate HandWellFormed(s: State) {
    && (forall t | t in InHand(s.pc) && t.Joinable? ::
          && t.worker < |s.workers|
          && Reserved(s.pc, s.workers[t.worker].name))
    && (forall i, j | 0 <= i < j < |InHand(s.pc)| ::
          var hand := InHand(s.pc);
          hand[i].Joinable? && hand[j].Joinable? && hand[i].worker < |s.workers| && hand[j].worker < |s.workers| ==>
          s.workers[hand[i].worker].name != s.workers[hand[j].worker].name)
  }

  ghost predicate NoneLost(s: State) {
    forall w: nat | Live(s, w) ::
      ThreadOf(s.store, s.workers[w].name) == Joinable(w) || Joinable(w) in InHand(s.pc)
  }

  /** A flag registered under a live worker's name is that worker's own. */
  ghost predicate FlagsOwn(s: State) {
    forall w: nat | Live(s, w) && s.workers[w].name in s.store.flags :: s.store.flags[s.workers[w].name] == w
  }

  ghost predicate Inv(s: State) {
    !s.terminated && StoreWellFormed(s) && HandWellFormed(s) && NoneLost(s) && FlagsOwn(s)
  }

  lemma OneLivePerName(s: State, v: nat, w: nat)
    requires Inv(s) && Live(s, v) && Live(s, w) && s.workers[v].name == s.workers[w].name
    ensures v == w
  {
    if Joinable(v) in InHand(s.pc) && Joinable(w) in InHand(s.pc) {
      var i :| 0 <= i < |InHand(s.pc)| && InHand(s.pc)[i] == Joinable(v);
      var j :| 0 <= j < |InHand(s.pc)| && InHand(s.pc)[j] == Joinable(w);
    }
  }

  lemma HandOutsideStore(s: State, i: nat, w: nat)
    requires Inv(s) && HeldAt(s, Local(i), w)
    ensures w < |s.workers| && s.workers[w].name !in s.store.threads
  {
    assert InHand(s.pc)[i] in InHand(s.pc);
  }

  lemma HeldPlacesAgree(s: State, p: Place, q: Place, w: nat)
    requires Inv(s) && HeldAt(s, p, w) && HeldAt(s, q, w)
    ensures p == q
  {
    if p.Local? { HandOutsideStore(s, p.index, w); }
    if q.Local? { HandOutsideStore(s, q.index, w); }
  }

  lemma LiveHeldExactlyOnce(s: State, w: nat)
    requires Inv(s) && Live(s, w)
    ensures HeldExactlyOnce(s, w)
  {
    var p;
    if ThreadOf(s.store, s.workers[w].name) == Joinable(w) {
      p := InStore(s.workers[w].name);
    } else {
      var i :| 0 <= i < |InHand(s.pc)| && InHand(s.pc)[i] == Joinable(w);
      p := Local(i);
    }
    assert HeldAt(s, p, w);
    forall q | HeldAt(s, q, w) ensures q == p {
      HeldPlacesAgree(s, p, q, w);
    }
  }

  // ----- every step keeps the invariant -----

  /** The same workers, none revived, the same handles in the same places, nothing registered anew. */
  ghost predicate NothingGained(s: State, s': State) {
    && !s'.terminated
    && |s'.workers| == |s.workers|
    && (forall w: nat | w < |s.workers| :: s'.workers[w].name == s.workers[w].name)
    && (forall w: nat | Live(s', w) :: Live(s, w))
    && InHand(s'.pc) == InHand(s.pc)
    && s'.store.threads == s.store.threads
    && (forall n | n in s'.store.flags :: n in s.store.flags && s'.store.flags[n] == s.store.flags[n])
    && (forall n :: Reserved(s'.pc, n) ==> n !in s.store.threads)
    && (forall t | t in InHand(s.pc) && t.Joinable? && t.worker < |s.workers| :: Reserved(s'.pc, s.workers[t.worker].name))
    && (forall n :: Starting(s'.pc, n) ==> n !in s'.store.active)
    && (forall n :: Unflagged(s'.pc, n) ==> n !in s'.store.flags)
  }

  lemma NothingGainedKeepsInv(s: State, s': State)
    requires Inv(s) && NothingGained(s, s')
    ensures Inv(s')
  {
  }

  lemma WorkerStepKeepsInv(s: State, a: Action)
    requires Inv(s) && Enabled(s, a) && (a.Publish? || a.Leave? || a.Finish?)
    ensures Inv(Apply(s, a))
  {
    assert Apply(s, a).pc == s.pc;
    NothingGainedKeepsInv(s, Apply(s, a));
  }

  lemma TakeAllKeepsInv(s: State, keys: seq<string>)
    requires Inv(s) && Enabled(s, TakeAll(keys))
    ensures Inv(Apply(s, TakeAll(keys)))
  {
    var s' := Apply(s, TakeAll(keys));
    var hand := InHand(s'.pc);
    assert forall i | 0 <= i < |keys| :: hand[i] == s.store.threads[keys[i]] && s.workers[hand[i].worker].name == keys[i];
    forall w: nat | Live(s', w) ensures Joinable(w) in hand {
      assert Live(s, w) && s.workers[w].name in keys;
      var i :| 0 <= i < |keys| && keys[i] == s.workers[w].name;
      assert hand[i] == Joinable(w);
    }
  }

  lemma SpawnKeepsInv(s: State)
    requires Inv(s) && Enabled(s, Advance) && s.pc.StartSpawn?
    ensures Inv(Apply(s, Advance))
  {
    var s' := Apply(s, Advance);
    assert forall w: nat | w < |s.workers| :: s'.workers[w] == s.workers[w];
    assert InHand(s'.pc) == [Joinable(|s.workers|)];
    assert forall w: nat :: Live(s', w) ==> Live(s, w) || w == |s.workers|;
  }

  lemma JoinKeepsInv(s: State)
    requires Inv(s) && Enabled(s, Advance) && (s.pc.StartJoin? || s.pc.StopJoin? || s.pc.StopAllJoin?)
    ensures Inv(Apply(s, Advance))
  {
    var s' := Apply(s, Advance);
    var hand, hand' := InHand(s.pc), InHand(s'.pc);
    assert hand' == if hand == [] then [] else hand[1..];
    forall w: nat | Live(s', w) && Joinable(w) in hand ensures Joinable(w) in hand' {
      var i :| 0 <= i < |hand| && hand[i] == Joinable(w);
      assert i != 0;
      assert hand'[i - 1] == Joinable(w);
    }
  }

  lemma TakeKeepsInv(s: State)
    requires Inv(s) && Enabled(s, Advance) && (s.pc.StartTake? || s.pc.StopTake?)
    ensures Inv(Apply(s, Advance))
  {
    var s' := Apply(s, Advance);
    assert InHand(s'.pc) == [ThreadOf(s.store, s.pc.name)] && InHand(s.pc) == [];
    assert forall n :: ThreadOf(s'.store, n) == if n == s.pc.name then NotJoinable else ThreadOf(s.store, n);
  }

  lemma AddKeepsInv(s: State)
    requires Inv(s) && Enabled(s, Advance) && s.pc.StartAdd?
    ensures Inv(Apply(s, Advance))
  {
    var s' := Apply(s, Advance);
    var n, v := s.pc.name, s.pc.worker;
    assert Reserved(s.pc, n) && InHand(s.pc) == [Joinable(v)] && InHand(s'.pc) == [];
    assert Joinable(v) in InHand(s.pc);
    forall w: nat | Live(s, w) && w != v ensures s.workers[w].name != n {
      assert ThreadOf(s.store, s.workers[w].name) == Joinable(w);
    }
    assert forall m :: ThreadOf(s'.store, m) == if m == n then Joinable(v) else ThreadOf(s.store, m);
  }

  /** The steps that leave every handle where it is. */
  lemma OtherStepKeepsInv(s: State)
    requires Inv(s) && Enabled(s, Advance)
    requires s.pc.StartCheck? || s.pc.StartErase? || s.pc.StartFail? || s.pc.StopRequest? || s.pc.StopErase?
             || s.pc.StopMark? || s.pc.StopAllRequest? || s.pc.StopAllClear?
    ensures Inv(Apply(s, Advance))
  {
    assert Apply(s, Advance).workers == s.workers;
    assert InHand(Apply(s, Advance).pc) == InHand(s.pc);
    assert forall n :: Reserved(Apply(s, Advance).pc, n) ==> Reserved(s.pc, n);
    NothingGainedKeepsInv(s, Apply(s, Advance));
  }

  lemma IssueKeepsInv(s: State, a: Action)
    requires Inv(s) && Enabled(s, a) && (a.Issue? || a.NextPending? || a.Reject? || a.SpawnFails?)
    ensures Inv(Apply(s, a))
  {
    NothingGainedKeepsInv(s, Apply(s, a));
  }

  lemma StepKeepsInv(s: State, a: Action)
    requires Inv(s) && Enabled(s, a)
    ensures Inv(Apply(s, a))
  {
    if a.Publish? || a.Leave? || a.Finish? {
      WorkerStepKeepsInv(s, a);
    } else if a.TakeAll? {
      TakeAllKeepsInv(s, a.keys);
    } else if !a.Advance? {
      IssueKeepsInv(s, a);
    } else if s.pc.StartSpawn? {
      SpawnKeepsInv(s);
    } else if s.pc.StartJoin? || s.pc.StopJoin? || s.pc.StopAllJoin? {
      JoinKeepsInv(s);
    } else if s.pc.StartTake? || s.pc.StopTake? {
      TakeKeepsInv(s);
    } else if s.pc.StartAdd? {
      AddKeepsInv(s);
    } else {
      OtherStepKeepsInv(s);
    }
  }

  // ----- safety of every run -----

  lemma {:induction false} RunKeepsInv(s: State, actions: seq<Action>)
    requires Inv(s) && IsRun(s, actions)
    ensures Inv(After(s, actions))
    decreases |actions|
  {
    if actions == [] {
    } else {
      StepKeepsInv(s, actions[0]);
      RunKeepsInv(Apply(s, actions[0]), actions[1..]);
    }
  }

  /**
    After any run, duplicate starts included: no joinable handle was ever overwritten, a name has at
    most one unfinished worker, and each unfinished worker's handle is held exactly once.
   */
  lemma EveryRunIsSafe(actions: seq<Action>)
    requires IsRun(INITIAL, actions)
    ensures !After(INITIAL, actions).terminated
    ensures forall v: nat, w: nat ::
              var s := After(INITIAL, actions);
              Live(s, v) && Live(s, w) && s.workers[v].name == s.workers[w].name ==> v == w
    ensures forall w: nat :: Live(After(INITIAL, actions), w) ==> HeldExactlyOnce(After(INITIAL, actions), w)
  {
    RunKeepsInv(INITIAL, actions);
    var s := After(INITIAL, actions);
    forall v: nat, w: nat | Live(s, v) && Live(s, w) && s.workers[v].name == s.workers[w].name ensures v == w {
      OneLivePerName(s, v, w);
    }
    forall w: nat | Live(s, w) ensures HeldExactlyOnce(s, w) {
      LiveHeldExactlyOnce(s, w);
    }
  }

  /** When stopAll returns, every worker ever created has finished and no handle is left. */
  lemma StopAllLeavesNoWorker(actions: seq<Action>)
    requires IsRun(INITIAL, actions)
    requires After(INITIAL, actions).pc == StopAllClear && Enabled(After(INITIAL, actions), Advance)
    ensures var s := Apply(After(INITIAL, actions), Advance);
            && s.pc == Idle && s.store.threads == map[] && s.store.flags == map[] && s.store.active == {}
            && forall w: nat | w < |s.workers| :: s.workers[w].phase == Finished
  {
    RunKeepsInv(INITIAL, actions);
    var s := After(INITIAL, actions);
    assert forall n :: Reserved(s.pc, n);
    forall w: nat | w < |s.workers| ensures s.workers[w].phase == Finished {
      assert InHand(s.pc) == [] && ThreadOf(s.store, s.workers[w].name) == NotJoinable;
    }
  }

  /** A worker stores its status, leaves its loop and drops its mark and flag, each exactly as its step says. */
  lemma WorkerStepEffect(s: State, a: Action, w: nat)
    requires Inv(s) && Enabled(s, a)
    requires a == Leave(w) || a == Finish(w) || (a.Publish? && a.worker == w)
    ensures var n, s' := s.workers[w].name, Apply(s, a);
            && |s'.workers| == |s.workers| && s'.workers[w].name == n
            && (forall v: nat | v < |s.workers| && v != w :: s'.workers[v] == s.workers[v])
            && (a.Publish? ==> n in s'.store.statuses && s'.store.statuses[n] == a.status
                               && s'.workers[w].phase == Running && s'.store.active == s.store.active
                               && s'.store.flags == s.store.flags)
            && (a.Leave? ==> s'.workers[w].phase == Leaving && s'.store == s.store)
            && (a.Finish? ==> s'.workers[w].phase == Finished && n !in s'.store.active && n !in s'.store.flags
                              && s'.store.statuses == s.store.statuses)
  {
  }

  /** What a worker does is confined to its own name. */
  lemma WorkerStepIsLocal(s: State, a: Action, w: nat)
    requires Inv(s) && Enabled(s, a)
    requires a == Leave(w) || a == Finish(w) || (a.Publish? && a.worker == w)
    ensures var s' := Apply(s, a);
            && s'.pc == s.pc && s'.raised == s.raised && s'.store.threads == s.store.threads
            && forall n | n != s.workers[w].name ::
                 && (n in s'.store.active <==> n in s.store.active)
                 && (n in s'.store.flags <==> n in s.store.flags)
                 && (n in s.store.flags ==> s'.store.flags[n] == s.store.flags[n])
                 && (n in s'.store.statuses <==> n in s.store.statuses)
                 && (n in s.store.statuses ==> s'.store.statuses[n] == s.store.statuses[n])
  {
  }

  // ----- registration -----

  /** w's handle is in the store, and so are its activity mark and its own stop flag. */
  ghost predicate IsRegistered(s: State, w: nat)
    requires w < |s.workers|
  {
    var n := s.workers[w].name;
    ThreadOf(s.store, n) == Joinable(w) && n in s.store.active && n in s.store.flags && s.store.flags[n] == w
  }

  ghost predicate Registered(s: State) {
    forall w: nat | Live(s, w) && ThreadOf(s.store, s.workers[w].name) == Joinable(w) :: IsRegistered(s, w)
  }

  /** The store holds the handle of an unfinished worker under n. */
  predicate LiveUnder(s: State, n: string) {
    ThreadOf(s.store, n).Joinable? && Live(s, ThreadOf(s.store, n).worker)
  }

  /** A worker's final markStopped can only erase its own registration. */
  lemma FinishErasesOnlyItself(s: State, w: nat, v: nat)
    requires Inv(s) && Enabled(s, Finish(w)) && v < |s.workers| && v != w
    ensures s.workers[w].name in s.store.flags ==> s.store.flags[s.workers[w].name] == w
    ensures Live(s, v) && IsRegistered(s, v) ==> IsRegistered(Apply(s, Finish(w)), v)
  {
    if Live(s, v) && s.workers[v].name == s.workers[w].name {
      OneLivePerName(s, v, w);
    }
  }

  /** A refused start that hits a name with a live worker. */
  predicate Orphans(s: State, a: Action) {
    a.Advance? && s.pc.StartFail? && LiveUnder(s, s.pc.name)
  }

  lemma WorkerKeepsRegistration(s: State, a: Action)
    requires Inv(s) && Enabled(s, a) && Registered(s) && (a.Publish? || a.Leave? || a.Finish?)
    ensures Registered(Apply(s, a))
  {
    var s' := Apply(s, a);
    forall w: nat | Live(s', w) && ThreadOf(s'.store, s'.workers[w].name) == Joinable(w)
      ensures IsRegistered(s', w)
    {
      assert Live(s, w) && s.workers[w].name == s'.workers[w].name && IsRegistered(s, w);
      if a.Finish? { FinishErasesOnlyItself(s, a.worker, w); }
    }
  }

  lemma ControllerKeepsRegistration(s: State, a: Action)
    requires Inv(s) && Enabled(s, a) && Registered(s) && !Orphans(s, a)
    requires a.TakeAll? || a.Advance?
    ensures Registered(Apply(s, a))
  {
    var s' := Apply(s, a);
    forall w: nat | Live(s', w) && ThreadOf(s'.store, s'.workers[w].name) == Joinable(w)
      ensures IsRegistered(s', w)
    {
      var n := s'.workers[w].name;
      if !(s.pc.StartAdd? && s.pc.name == n) {
        assert IsRegistered(s, w);
        assert Reserved(s.pc, n) ==> n !in s.store.threads;
      }
    }
  }

  /** A step loses a live worker's registration exactly when it is such a refusal. */
  lemma RegistrationLostExactly(s: State, a: Action)
    requires Inv(s) && Enabled(s, a) && Registered(s)
    ensures Registered(Apply(s, a)) <==> !Orphans(s, a)
  {
    if Orphans(s, a) {
      var w := ThreadOf(s.store, s.pc.name).worker;
      assert Live(Apply(s, a), w) && s.workers[w].name == s.pc.name && !IsRegistered(Apply(s, a), w);
    } else if a.TakeAll? || a.Advance? {
      ControllerKeepsRegistration(s, a);
    } else if a.Publish? || a.Leave? || a.Finish? {
      WorkerKeepsRegistration(s, a);
    } else {
      assert Apply(s, a).workers == s.workers && Apply(s, a).store == s.store;
    }
  }

  ghost predicate AlwaysRegistered(s: State, actions: seq<Action>)
    requires IsRun(s, actions)
    decreases |actions|
  {
    Registered(s) && (actions != [] ==> AlwaysRegistered(Apply(s, actions[0]), actions[1..]))
  }

  ghost predicate NeverOrphans(s: State, actions: seq<Action>)
    requires IsRun(s, actions)
    decreases |actions|
  {
    actions != [] ==> !Orphans(s, actions[0]) && NeverOrphans(Apply(s, actions[0]), actions[1..])
  }

  lemma {:induction false} AlwaysRegisteredExactly(s: State, actions: seq<Action>)
    requires Inv(s) && Registered(s) && IsRun(s, actions)
    ensures AlwaysRegistered(s, actions) <==> NeverOrphans(s, actions)
    decreases |actions|
  {
    if actions == [] {
    } else {
      RegistrationLostExactly(s, actions[0]);
      if !Orphans(s, actions[0]) {
        StepKeepsInv(s, actions[0]);
        AlwaysRegisteredExactly(Apply(s, actions[0]), actions[1..]);
      } else {
        assert !Registered(Apply(s, actions[0]));
      }
    }
  }

  // ----- joins -----

  predicate Answered(s: State, t: Thread) {
    t.Joinable? && Live(s, t.worker) ==> t.worker in s.raised
  }

  /** The handles the controller is about to wait for belong to workers that have finished or been told to. */
  ghost predicate JoinsAnswered(s: State) {
    && (s.pc.StartErase? || s.pc.StartJoin? ==> JoinReady(s, s.pc.stale))
    && (s.pc.StopTake? ==> Answered(s, ThreadOf(s.store, s.pc.name)))
    && (s.pc.StopAllTake? ==> forall n | n in s.store.threads :: Answered(s, s.store.threads[n]))
    && (s.pc.StopErase? || s.pc.StopJoin? || s.pc.StopAllJoin? ==> forall t | t in InHand(s.pc) :: Answered(s, t))
  }

  lemma TakeKeepsJoinsAnswered(s: State, a: Action)
    requires Inv(s) && Registered(s) && JoinsAnswered(s) && Enabled(s, a)
    requires a.TakeAll? || (a.Advance? && (s.pc.StartTake? || s.pc.StopTake?))
    ensures JoinsAnswered(Apply(s, a))
  {
    var s' := Apply(s, a);
    if a.TakeAll? {
      var hand := InHand(s'.pc);
      forall t | t in hand ensures Answered(s', t) {
        var i :| 0 <= i < |hand| && hand[i] == t;
        assert t == s.store.threads[a.keys[i]];
      }
    } else {
      var t := ThreadOf(s.store, s.pc.name);
      assert InHand(s'.pc) == [t];
      assert s.pc.StartTake? ==> Starting(s.pc, s.pc.name);
      assert t.Joinable? && Live(s, t.worker) ==> IsRegistered(s, t.worker);
    }
  }

  lemma RequestKeepsJoinsAnswered(s: State)
    requires Inv(s) && Registered(s) && Enabled(s, Advance) && (s.pc.StopRequest? || s.pc.StopAllRequest?)
    ensures JoinsAnswered(Apply(s, Advance))
  {
    var s' := Apply(s, Advance);
    forall n | n in s.store.threads && (s.pc.StopRequest? ==> n == s.pc.name && n in s.store.active)
      ensures Answered(s', s.store.threads[n])
    {
      var t := s.store.threads[n];
      if Live(s, t.worker) { assert IsRegistered(s, t.worker) && s.store.flags[n] in s.store.flags.Values; }
    }
  }

  lemma WorkerKeepsJoinsAnswered(s: State, a: Action)
    requires JoinsAnswered(s) && Enabled(s, a) && (a.Publish? || a.Leave? || a.Finish?)
    ensures JoinsAnswered(Apply(s, a))
  {
    var s' := Apply(s, a);
    assert s'.raised == s.raised && s'.pc == s.pc && s'.store.threads == s.store.threads;
    assert forall w: nat :: (Live(s', w) ==> Live(s, w)) && (InPhase(s, w, Finished) ==> InPhase(s', w, Finished));
    assert forall t :: Answered(s, t) ==> Answered(s', t);
  }

  lemma QuietKeepsJoinsAnswered(s: State, a: Action)
    requires JoinsAnswered(s) && Enabled(s, a) && !a.TakeAll? && !a.Publish? && !a.Leave? && !a.Finish?
    requires !(a.Advance? && (s.pc.StartTake? || s.pc.StopTake? || s.pc.StopRequest? || s.pc.StopAllRequest?))
    ensures JoinsAnswered(Apply(s, a))
  {
    var s' := Apply(s, a);
    assert s.raised == s'.raised && !s'.pc.StopTake? && !s'.pc.StopAllTake?;
    if s'.pc.StopErase? || s'.pc.StopJoin? || s'.pc.StopAllJoin? {
      assert s'.workers == s.workers;
      assert forall t | t in InHand(s'.pc) :: t in InHand(s.pc);
    }
  }

  lemma StepKeepsJoinsAnswered(s: State, a: Action)
    requires Inv(s) && Registered(s) && JoinsAnswered(s) && Enabled(s, a)
    ensures JoinsAnswered(Apply(s, a))
  {
    if a.TakeAll? || (a.Advance? && (s.pc.StartTake? || s.pc.StopTake?)) {
      TakeKeepsJoinsAnswered(s, a);
    } else if a.Advance? && (s.pc.StopRequest? || s.pc.StopAllRequest?) {
      RequestKeepsJoinsAnswered(s);
    } else if a.Publish? || a.Leave? || a.Finish? {
      WorkerKeepsJoinsAnswered(s, a);
    } else {
      QuietKeepsJoinsAnswered(s, a);
    }
  }

  ghost predicate AlwaysAnswered(s: State, actions: seq<Action>)
    requires IsRun(s, actions)
    decreases |actions|
  {
    JoinsAnswered(s) && (actions != [] ==> AlwaysAnswered(Apply(s, actions[0]), actions[1..]))
  }

  lemma {:induction false} RegisteredRunsAnswerJoins(s: State, actions: seq<Action>)
    requires Inv(s) && JoinsAnswered(s) && IsRun(s, actions) && AlwaysRegistered(s, actions)
    ensures AlwaysAnswered(s, actions)
    decreases |actions|
  {
    if actions == [] {
    } else {
      StepKeepsInv(s, actions[0]);
      StepKeepsJoinsAnswered(s, actions[0]);
      RegisteredRunsAnswerJoins(Apply(s, actions[0]), actions[1..]);
    }
  }

  // ----- what a caller can do about it -----

  predicate Begins(s: State, a: Action, n: string) {
    a == Issue(Start(n)) || (a.NextPending? && s.pending != [] && s.pending[0] == n)
  }

  ghost predicate NoLiveWorker(s: State, n: string) {
    forall w: nat | Live(s, w) :: s.workers[w].name != n
  }

  /** A start begins only for a name whose last worker has run its final markStopped. */
  ghost predicate Careful(s: State, actions: seq<Action>)
    requires IsRun(s, actions)
    decreases |actions|
  {
    actions != [] ==>
      && (forall n | Begins(s, actions[0], n) :: NoLiveWorker(s, n))
      && Careful(Apply(s, actions[0]), actions[1..])
  }

  predicate StartingAt(pc: Pc) {
    pc.StartCheck? || pc.StartTake? || pc.StartErase? || pc.StartJoin? || pc.StartSpawn? || pc.StartFail?
  }

  lemma {:induction false} CarefulRunsNeverOrphan(s: State, actions: seq<Action>)
    requires Inv(s) && IsRun(s, actions) && Careful(s, actions)
    requires StartingAt(s.pc) ==> NoLiveWorker(s, s.pc.name)
    ensures NeverOrphans(s, actions)
    decreases |actions|
  {
    if actions == [] {
    } else {
      var a := actions[0];
      var s' := Apply(s, a);
      StepKeepsInv(s, a);
      assert StartingAt(s'.pc) ==> (StartingAt(s.pc) && s.pc.name == s'.pc.name) || Begins(s, a, s'.pc.name);
      assert StartingAt(s'.pc) ==> forall w: nat | Live(s', w) :: Live(s, w) && s'.workers[w].name == s.workers[w].name;
      CarefulRunsNeverOrphan(s', actions[1..]);
    }
  }

  /** The documented behaviour of starts and stops, for callers that never start a name twice. */
  lemma CarefulRunsAreSound(actions: seq<Action>)
    requires IsRun(INITIAL, actions) && Careful(INITIAL, actions)
    ensures AlwaysRegistered(INITIAL, actions)
    ensures AlwaysAnswered(INITIAL, actions)
  {
    CarefulRunsNeverOrphan(INITIAL, actions);
    AlwaysRegisteredExactly(INITIAL, actions);
    RegisteredRunsAnswerJoins(INITIAL, actions);
  }

  predicate BeginsNothing(actions: seq<Action>) {
    forall a | a in actions :: !a.Issue? && !a.NextPending?
  }

  lemma {:induction false} FinishedForGood(s: State, actions: seq<Action>, w: nat)
    requires IsRun(s, actions) && InPhase(s, w, Finished)
    ensures InPhase(After(s, actions), w, Finished)
    decreases |actions|
  {
    if actions == [] {
    } else {
      FinishedForGood(Apply(s, actions[0]), actions[1..], w);
    }
  }

  /**
    The other half: once a start has begun for a registered live worker, the start cannot come to its
    end with that worker still alive and registered.
   */
  lemma {:induction false} StartOverLiveWorkerOrphans(s: State, actions: seq<Action>, w: nat)
    requires Inv(s) && IsRun(s, actions) && BeginsNothing(actions) && Live(s, w)
    requires var n := s.workers[w].name;
             || (s.pc == StartCheck(n) && IsRegistered(s, w))
             || (s.pc == StartFail(n) && ThreadOf(s.store, n) == Joinable(w))
             || (s.pc == Idle && ThreadOf(s.store, n) == Joinable(w) && n !in s.store.active)
    requires After(s, actions).pc == Idle && Live(After(s, actions), w)
    ensures !Registered(After(s, actions))
    decreases |actions|
  {
    if actions == [] {
      assert !IsRegistered(s, w);
    } else {
      var a := actions[0];
      var s' := Apply(s, a);
      assert a in actions;
      StepKeepsInv(s, a);
      if a == Finish(w) {
        FinishedForGood(s', actions[1..], w);
      } else if a.Finish? && s.workers[a.worker].name == s.workers[w].name {
        OneLivePerName(s, a.worker, w);
      }
      StartOverLiveWorkerOrphans(s', actions[1..], w);
    }
  }

  // ----- active names -----

  /** Every active name has an unfinished worker. */
  ghost predicate ActiveLive(s: State) {
    forall n | n in s.store.active :: !NoLiveWorker(s, n)
  }

  /** addWorker is called for a worker that has already run its final markStopped. */
  predicate AddsLate(s: State, a: Action) {
    a.Advance? && s.pc.StartAdd? && !Live(s, s.pc.worker)
  }

  lemma AddActivates(s: State)
    requires Inv(s) && Enabled(s, Advance) && s.pc.StartAdd? && ActiveLive(s)
    ensures ActiveLive(Apply(s, Advance)) <==> Live(s, s.pc.worker)
  {
    var s' := Apply(s, Advance);
    var n, v := s.pc.name, s.pc.worker;
    assert s'.workers == s.workers && n in s'.store.active;
    assert Reserved(s.pc, n) && InHand(s.pc) == [Joinable(v)] && Joinable(v) in InHand(s.pc);
    assert forall w: nat :: Live(s', w) <==> Live(s, w);
    forall w: nat | Live(s, w) && s.workers[w].name == n ensures w == v {
      assert ThreadOf(s.store, n) == NotJoinable;
    }
  }

  lemma ControllerKeepsActive(s: State, a: Action)
    requires Enabled(s, a) && ActiveLive(s) && !a.Publish? && !a.Leave? && !a.Finish? && !(a.Advance? && s.pc.StartAdd?)
    ensures ActiveLive(Apply(s, a))
  {
    var s' := Apply(s, a);
    assert s'.store.active <= s.store.active;
    forall n | n in s'.store.active ensures !NoLiveWorker(s', n) {
      var w: nat :| Live(s, w) && s.workers[w].name == n;
      assert Live(s', w) && s'.workers[w].name == n;
    }
  }

  lemma WorkerKeepsActive(s: State, a: Action)
    requires Enabled(s, a) && ActiveLive(s) && (a.Publish? || a.Leave? || a.Finish?)
    ensures ActiveLive(Apply(s, a))
  {
    var s' := Apply(s, a);
    forall n | n in s'.store.active ensures !NoLiveWorker(s', n) {
      var w: nat :| Live(s, w) && s.workers[w].name == n;
      assert Live(s', w) && s'.workers[w].name == n;
    }
  }

  /** A step leaves a name active without an unfinished worker exactly when it is such a late addWorker. */
  lemma ActiveLostExactly(s: State, a: Action)
    requires Inv(s) && Enabled(s, a) && ActiveLive(s)
    ensures ActiveLive(Apply(s, a)) <==> !AddsLate(s, a)
  {
    hide Apply, Enabled, Inv, ActiveLive, Live;
    if a.Advance? && s.pc.StartAdd? {
      AddActivates(s);
    } else if a.Publish? || a.Leave? || a.Finish? {
      WorkerKeepsActive(s, a);
    } else {
      ControllerKeepsActive(s, a);
    }
  }

  ghost predicate AlwaysActiveLive(s: State, actions: seq<Action>)
    requires IsRun(s, actions)
    decreases |actions|
  {
    ActiveLive(s) && (actions != [] ==> AlwaysActiveLive(Apply(s, actions[0]), actions[1..]))
  }

  ghost predicate NeverAddsLate(s: State, actions: seq<Action>)
    requires IsRun(s, actions)
    decreases |actions|
  {
    actions != [] ==> !AddsLate(s, actions[0]) && NeverAddsLate(Apply(s, actions[0]), actions[1..])
  }

  /** Through a whole run, active means unfinished if and only if no addWorker comes after its worker's end. */
  lemma {:induction false} AlwaysActiveExactly(s: State, actions: seq<Action>)
    requires Inv(s) && ActiveLive(s) && IsRun(s, actions)
    ensures AlwaysActiveLive(s, actions) <==> NeverAddsLate(s, actions)
    decreases |actions|
  {
    hide Apply, Enabled, Inv, ActiveLive, AddsLate;
    if actions == [] {
    } else {
      ActiveLostExactly(s, actions[0]);
      StepKeepsInv(s, actions[0]);
      if !AddsLate(s, actions[0]) {
        AlwaysActiveExactly(Apply(s, actions[0]), actions[1..]);
      } else {
        assert !ActiveLive(Apply(s, actions[0]));
      }
    }
  }

  lemma ActiveExactlyFromStart(actions: seq<Action>)
    requires IsRun(INITIAL, actions)
    ensures AlwaysActiveLive(INITIAL, actions) <==> NeverAddsLate(INITIAL, actions)
  {
    AlwaysActiveExactly(INITIAL, actions);
  }

  // ----- stops come to an end -----

  predicate Stopping(pc: Pc) {
    pc.StopRequest? || pc.StopTake? || pc.StopErase? || pc.StopJoin? || pc.StopMark?
    || pc.StopAllRequest? || pc.StopAllTake? || pc.StopAllJoin? || pc.StopAllClear?
  }

  /** A step of the controller itself, or of a worker that has been told to stop. */
  predicate Helpful(s: State, a: Action) {
    a.Advance? || a.TakeAll? || ((a.Leave? || a.Finish?) && a.worker in s.raised)
  }

  ghost predicate OnlyHelpful(s: State, actions: seq<Action>)
    requires IsRun(s, actions)
    decreases |actions|
  {
    actions != [] ==> Helpful(s, actions[0]) && OnlyHelpful(Apply(s, actions[0]), actions[1..])
  }

  ghost predicate Sound(s: State) {
    Inv(s) && Registered(s) && JoinsAnswered(s)
  }

  /** How far a stop still has to go, apart from the handles in hand. */
  function StepsLeft(pc: Pc): nat {
    match pc
    case StopAllRequest => 7
    case StopAllTake => 6
    case StopRequest(_) => 5
    case StopTake(_) => 4
    case StopErase(_, _) => 3
    case StopJoin(_, _) => 2
    case StopAllJoin(_) => 2
    case StopMark(_) => 1
    case StopAllClear => 1
    case _ => 0
  }

  /** What the worker under the handle that is joined next still has to do. */
  function Unended(s: State): nat {
    var hand := InHand(s.pc);
    if hand == [] || !hand[0].Joinable? || hand[0].worker >= |s.workers| then 0
    else
      match s.workers[hand[0].worker].phase
      case Running => 2
      case Leaving => 1
      case Finished => 0
  }

  lemma {:induction false} Enumerate(names: set<string>) returns (keys: seq<string>)
    ensures forall i, j | 0 <= i < j < |keys| :: keys[i] != keys[j]
    ensures forall n :: n in keys <==> n in names
    decreases |names|
  {
    if names == {} {
      keys := [];
    } else {
      var n :| n in names;
      var rest := Enumerate(names - {n});
      keys := [n] + rest;
    }
  }

  ghost predicate Waits(s: State) {
    (s.pc.StopJoin? || s.pc.StopAllJoin?) && InHand(s.pc) != [] && !JoinReady(s, InHand(s.pc)[0])
  }

  /** A join that waits, waits for a worker that has been told to stop and can take its next step. */
  lemma WorkerCanEnd(s: State) returns (a: Action)
    requires Sound(s) && Waits(s) && !s.terminated
    ensures Enabled(s, a) && Helpful(s, a) && !a.Advance? && !a.TakeAll?
    ensures Apply(s, a).pc == s.pc && Unended(Apply(s, a)) < Unended(s)
  {
    var t := InHand(s.pc)[0];
    assert t in InHand(s.pc) && Live(s, t.worker) && t.worker in s.raised;
    a := if s.workers[t.worker].phase.Running? then Leave(t.worker) else Finish(t.worker);
  }

  lemma ControllerCanGoOn(s: State) returns (a: Action)
    requires Sound(s) && Stopping(s.pc) && !Waits(s)
    ensures Enabled(s, a) && Helpful(s, a) && (Stopping(Apply(s, a).pc) || Apply(s, a).pc.Idle?)
    ensures StepsLeft(Apply(s, a).pc) < StepsLeft(s.pc)
            || (StepsLeft(Apply(s, a).pc) == StepsLeft(s.pc) && |InHand(Apply(s, a).pc)| < |InHand(s.pc)|)
  {
    a := Advance;
    if s.pc.StopAllTake? {
      var keys := Enumerate(s.store.threads.Keys);
      a := TakeAll(keys);
    }
  }

  lemma HelpfulKeepsSound(s: State, a: Action)
    requires Sound(s) && Stopping(s.pc) && Enabled(s, a)
    ensures Sound(Apply(s, a))
  {
    StepKeepsInv(s, a);
    RegistrationLostExactly(s, a);
    StepKeepsJoinsAnswered(s, a);
  }

  lemma NextHelp(s: State) returns (a: Action)
    requires Sound(s) && Stopping(s.pc)
    ensures Enabled(s, a) && Helpful(s, a) && (Stopping(Apply(s, a).pc) || Apply(s, a).pc.Idle?)
    ensures var s' := Apply(s, a);
            || StepsLeft(s'.pc) < StepsLeft(s.pc)
            || (StepsLeft(s'.pc) == StepsLeft(s.pc) && |InHand(s'.pc)| < |InHand(s.pc)|)
            || (s'.pc == s.pc && Unended(s') < Unended(s))
  {
    if Waits(s) {
      a := WorkerCanEnd(s);
    } else {
      a := ControllerCanGoOn(s);
    }
  }

  /** From any sound position a pending stop can be finished by the controller and the workers told to stop. */
  lemma {:induction false} StopCompletes(s: State) returns (actions: seq<Action>)
    requires Sound(s) && (Stopping(s.pc) || s.pc.Idle?)
    ensures IsRun(s, actions) && OnlyHelpful(s, actions) && After(s, actions).pc == Idle
    decreases StepsLeft(s.pc), |InHand(s.pc)|, Unended(s)
  {
    if s.pc.Idle? {
      actions := [];
    } else {
      var a := NextHelp(s);
      HelpfulKeepsSound(s, a);
      var rest := StopCompletes(Apply(s, a));
      actions := [a] + rest;
      assert actions[1..] == rest;
    }
  }

  lemma {:induction false} SoundAtEnd(s: State, actions: seq<Action>)
    requires Inv(s) && IsRun(s, actions) && AlwaysRegistered(s, actions) && AlwaysAnswered(s, actions)
    ensures Sound(After(s, actions))
    decreases |actions|
  {
    if actions == [] {
    } else {
      StepKeepsInv(s, actions[0]);
      SoundAtEnd(Apply(s, actions[0]), actions[1..]);
    }
  }

  /** So no stop of a careful run is stuck: whatever happened before, its joins can all be served. */
  lemma CarefulStopsComplete(actions: seq<Action>) returns (more: seq<Action>)
    requires IsRun(INITIAL, actions) && Careful(INITIAL, actions) && Stopping(After(INITIAL, actions).pc)
    ensures var s := After(INITIAL, actions);
            IsRun(s, more) && OnlyHelpful(s, more) && After(s, more).pc == Idle
  {
    CarefulRunsAreSound(actions);
    SoundAtEnd(INITIAL, actions);
    more := StopCompletes(After(INITIAL, actions));
  }

  // ----- a worker that lost its flag -----

  /** No stop can reach w any more. */
  ghost predicate Unreachable(s: State, w: nat) {
    && Live(s, w) && w !in s.raised && s.pc != StartAdd(s.workers[w].name, w)
    && s.workers[w].name !in s.store.flags
  }

  lemma AddKeepsUnreachable(s: State, w: nat)
    requires Inv(s) && Enabled(s, Advance) && s.pc.StartAdd? && Unreachable(s, w)
    ensures Unreachable(Apply(s, Advance), w)
  {
    assert Reserved(s.pc, s.pc.name) && InHand(s.pc) == [Joinable(s.pc.worker)];
    assert s.pc.name != s.workers[w].name;
  }

  lemma ControllerKeepsUnreachable(s: State, w: nat)
    requires Inv(s) && Enabled(s, Advance) && !s.pc.StartAdd? && Unreachable(s, w)
    ensures Unreachable(Apply(s, Advance), w)
  {
    var s' := Apply(s, Advance);
    assert s'.workers[w] == s.workers[w];
    assert forall n | n in s'.store.flags :: n in s.store.flags;
    assert w !in s'.raised by {
      assert forall n | n in s.store.flags && s.store.flags[n] == w :: s.workers[w].name == n;
    }
  }

  lemma OutsideKeepsUnreachable(s: State, a: Action, w: nat)
    requires Inv(s) && Enabled(s, a) && !a.Advance? && Unreachable(s, w) && a != Finish(w)
    ensures Unreachable(Apply(s, a), w)
  {
    var s' := Apply(s, a);
    assert s'.raised == s.raised && s'.workers[w].name == s.workers[w].name;
  }

  lemma StepKeepsUnreachable(s: State, a: Action, w: nat)
    requires Inv(s) && Enabled(s, a) && Unreachable(s, w) && a != Finish(w)
    ensures Unreachable(Apply(s, a), w)
  {
    hide Apply, Inv, Unreachable, Enabled;
    if !a.Advance? {
      OutsideKeepsUnreachable(s, a, w);
    } else if s.pc.StartAdd? {
      AddKeepsUnreachable(s, w);
    } else {
      ControllerKeepsUnreachable(s, w);
    }
  }

  /** Whatever is issued afterwards, its flag stays down for as long as it has not ended by itself. */
  lemma {:induction false} UnreachableUntilItEnds(s: State, actions: seq<Action>, w: nat)
    requires Inv(s) && IsRun(s, actions) && Unreachable(s, w) && Finish(w) !in actions
    ensures Unreachable(After(s, actions), w)
    decreases |actions|
  {
    if actions == [] {
    } else {
      StepKeepsInv(s, actions[0]);
      StepKeepsUnreachable(s, actions[0], w);
      UnreachableUntilItEnds(Apply(s, actions[0]), actions[1..], w);
    }
  }

  // ----- two concrete runs -----

  ghost predicate Reaches(actions: seq<Action>, s: State) {
    IsRun(INITIAL, actions) && After(INITIAL, actions) == s
  }

  lemma {:induction false} AfterMore(s: State, actions: seq<Action>, a: Action)
    requires IsRun(s, actions) && Enabled(After(s, actions), a)
    ensures IsRun(s, actions + [a]) && After(s, actions + [a]) == Apply(After(s, actions), a)
    decreases |actions|
  {
    if actions == [] {
      assert (actions + [a])[1..] == [];
    } else {
      assert (actions + [a])[1..] == actions[1..] + [a];
      AfterMore(Apply(s, actions[0]), actions[1..], a);
    }
  }

  lemma Then(actions: seq<Action>, s: State, a: Action) returns (longer: seq<Action>, next: State)
    requires Reaches(actions, s) && Enabled(s, a)
    ensures Reaches(longer, next) && next == Apply(s, a) && longer == actions + [a]
  {
    AfterMore(INITIAL, actions, a);
    longer, next := actions + [a], Apply(s, a);
  }

  lemma StartReachesAdd(name: string) returns (actions: seq<Action>, s: State)
    ensures Reaches(actions, s)
    ensures s == INITIAL.(pc := StartAdd(name, 0), workers := [Worker(name, Running)])
    ensures actions == [Issue(Start(name)), Advance, Advance, Advance, Advance, Advance]
  {
    actions, s := [], INITIAL;
    actions, s := Then(actions, s, Issue(Start(name)));
    actions, s := Then(actions, s, Advance);
    actions, s := Then(actions, s, Advance);
    actions, s := Then(actions, s, Advance);
    actions, s := Then(actions, s, Advance);
    actions, s := Then(actions, s, Advance);
    assert s.store == INITIAL.store;
  }

  /**
    Starting a running device again is refused, but the refusal drops the worker's flag, and a later
    stopAll then waits for a worker that nobody has told to stop.
   */
  lemma DuplicateStartThenStopAll(name: string) returns (actions: seq<Action>, s: State)
    ensures Reaches(actions, s)
    ensures s.pc == StopAllJoin([Joinable(0)]) && s.workers == [Worker(name, Running)]
    ensures Unreachable(s, 0) && !JoinsAnswered(s) && forall a | Enabled(s, a) :: !Helpful(s, a)
  {
    actions, s := StartReachesAdd(name);
    actions, s := Then(actions, s, Advance);
    actions, s := Then(actions, s, Issue(Start(name)));
    actions, s := Then(actions, s, Advance);
    actions, s := Then(actions, s, Advance);
    actions, s := Then(actions, s, Issue(StopAll));
    actions, s := Then(actions, s, Advance);
    assert s.store.threads == map[name := Joinable(0)];
    actions, s := Then(actions, s, TakeAll([name]));
    assert s.pc.rest == [Joinable(0)];
    assert Joinable(0) in InHand(s.pc);
  }

  lemma {:induction false} CarefulIfNothingBegins(s: State, actions: seq<Action>)
    requires IsRun(s, actions) && BeginsNothing(actions)
    ensures Careful(s, actions)
    decreases |actions|
  {
    if actions == [] {
    } else {
      assert actions[0] in actions;
      CarefulIfNothingBegins(Apply(s, actions[0]), actions[1..]);
    }
  }

  /** The thread runs before addWorker does, so a device can be marked active after its worker has ended. */
  lemma ActiveAfterFinish(name: string) returns (actions: seq<Action>, s: State)
    ensures Reaches(actions, s) && Careful(INITIAL, actions)
    ensures s.pc == Idle && name in s.store.active && s.workers == [Worker(name, Finished)]
  {
    actions, s := StartReachesAdd(name);
    actions, s := Then(actions, s, Leave(0));
    actions, s := Then(actions, s, Finish(0));
    actions, s := Then(actions, s, Advance);
    assert actions[0] == Issue(Start(name));
    CarefulIfNothingBegins(Apply(INITIAL, actions[0]), actions[1..]);
  }
}
