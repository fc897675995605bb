/**
  The state shared by the controller and the workers. Every method of the class holds the store's one
  mutex for its whole body, so each is one atomic step of the protocol in
  WorkerProtocol.dfy, which uses the value-level functions below.
 */
module StatusStore {
  import opened Models

  /** A std::thread object: default-constructed or moved-from, or the handle of one worker. */
  datatype Thread = NotJoinable | Joinable(worker: nat)

  /** The four shared containers. A flag is named by the worker that polls it. */
  datatype StoreView = StoreView(
    statuses: map<string, DeviceStatus>,
    active: set<string>,
    threads: map<string, Thread>,
    flags: map<string, nat>)

  function WithWorker(v: StoreView, name: string, worker: nat): StoreView {
    v.(active := v.active + {name}, flags := v.flags[name := worker], threads := v.threads[name := Joinable(worker)])
  }

  /** markStopped and markStartFailed have the same effect. */
  function Forgotten(v: StoreView, name: string): StoreView {
    v.(active := v.active - {name}, flags := v.flags - {name})
  }

  function WithoutFlag(v: StoreView, name: string): StoreView {
    v.(flags := v.flags - {name})
  }

  function WithoutThread(v: StoreView, name: string): StoreView {
    v.(threads := v.threads - {name})
  }

  function ThreadOf(v: StoreView, name: string): Thread {
    if name in v.threads then v.threads[name] else NotJoinable
  }

  function WithoutWorkers(v: StoreView): StoreView {
    v.(active := {}, flags := map[])
  }

  function WithStatus(v: StoreView, status: DeviceStatus): StoreView {
    v.(statuses := v.statuses[status.deviceName := status])
  }

  /** keys enumerates, without repetition, the names whose handle is joinable. */
  ghost predicate ListsJoinable(threads: map<string, Thread>, keys: seq<string>) {
    && (forall i, j | 0 <= i < j < |keys| :: keys[i] != keys[j])
    && (forall i | 0 <= i < |keys| :: keys[i] in threads && threads[keys[i]].Joinable?)
    && (forall n | n in threads && threads[n].Joinable? :: n in keys)
  }

  function HandlesOf(threads: map<string, Thread>, keys: seq<string>): seq<Thread>
    requires forall k | k in keys :: k in threads
  {
    seq(|keys|, i requires 0 <= i < |keys| => threads[keys[i]])
  }

  // ----- the order of a std::map's keys -----

  predicate Before(a: string, b: string) {
    if a == "" then b != ""
    else b != "" && (a[0] < b[0] || (a[0] == b[0] && Before(a[1..], b[1..])))
  }

  predicate InOrder(names: seq<string>) {
    forall i, j | 0 <= i < j < |names| :: Before(names[i], names[j])
  }

  lemma {:induction false} BeforeTotal(a: string, b: string)
    ensures a == b || Before(a, b) || Before(b, a)
    decreases |a|
  {
    if a == "" || b == "" {
    } else {
      BeforeTotal(a[1..], b[1..]);
      assert a == [a[0]] + a[1..] && b == [b[0]] + b[1..];
    }
  }

  /** The names agree up to some place, where the first one ends or has the smaller character. */
  lemma {:induction false} BeforeExactly(a: string, b: string)
    ensures Before(a, b) <==> exists k: nat :: k <= |a| && k < |b| && a[..k] == b[..k] && (k == |a| || a[k] < b[k])
    decreases |a|
  {
    if a == "" || b == "" || a[0] != b[0] {
      assert a[..0] == b[..0] == "";
    } else {
      BeforeExactly(a[1..], b[1..]);
      forall k: nat | k < |a| && k + 1 < |b| && k + 1 <= |a|
        ensures a[1..][..k] == b[1..][..k] <==> a[..k + 1] == b[..k + 1]
      {
        assert a[..k + 1] == [a[0]] + a[1..][..k] && b[..k + 1] == [b[0]] + b[1..][..k];
      }
      if k: nat :| k <= |a| && k < |b| && a[..k] == b[..k] && (k == |a| || a[k] < b[k]) {
        var j := k - 1;
        assert j + 1 == k && a[1..][..j] == b[1..][..j];
      }
      if j: nat :| j <= |a[1..]| && j < |b[1..]| && a[1..][..j] == b[1..][..j] && (j == |a[1..]| || a[1..][j] < b[1..][j]) {
        assert a[..j + 1] == b[..j + 1];
      }
    }
  }

  lemma {:induction false} BeforeTransitive(a: string, b: string, c: string)
    requires Before(a, b) && Before(b, c)
    ensures Before(a, c)
    decreases |a|
  {
    if a == "" {
    } else if a[0] == b[0] && b[0] == c[0] {
      BeforeTransitive(a[1..], b[1..], c[1..]);
    }
  }

  /** Every set of names has a first one. */
  lemma {:induction false} LeastName(names: set<string>) returns (least: string)
    requires names != {}
    ensures least in names && forall m | m in names :: m == least || Before(least, m)
    decreases |names|
  {
    var n :| n in names;
    if names == {n} {
      least := n;
    } else {
      var rest := names - {n};
      var first := LeastName(rest);
      BeforeTotal(n, first);
      least := if Before(n, first) then n else first;
      forall m | m in names ensures m == least || Before(least, m) {
        if m != n && least == n && m != first { BeforeTransitive(n, first, m); }
      }
    }
  }

  /** The list holds the status of each of these names in turn, and these are all the names. */
  ghost predicate ListsUnder(listed: seq<DeviceStatus>, statuses: map<string, DeviceStatus>, names: seq<string>) {
    && (forall n :: n in names <==> n in statuses)
    && |listed| == |names| && (forall i | 0 <= i < |names| :: names[i] in statuses && listed[i] == statuses[names[i]])
  }

  ghost predicate ListedInOrder(listed: seq<DeviceStatus>, statuses: map<string, DeviceStatus>) {
    exists names: seq<string> :: InOrder(names) && ListsUnder(listed, statuses, names)
  }

  class AtomicBool {
    const worker: nat
    var value: bool

    constructor (worker: nat)
      ensures this.worker == worker && !value
    {
      this.worker := worker;
      value := false;
    }
  }

  class DeviceStatusStore {
    var statuses: map<string, DeviceStatus>
    var activeDevices: set<string>
    var workerThreads: map<string, Thread>
    var stopFlags: map<string, AtomicBool>

    ghost function View(): StoreView
      reads this
    {
      StoreView(statuses, activeDevices, workerThreads, map n | n in stopFlags :: stopFlags[n].worker)
    }

    constructor ()
      ensures View() == StoreView(map[], {}, map[], map[])
    {
      statuses, activeDevices, workerThreads, stopFlags := map[], {}, map[], map[];
    }

    method RequestStopAll()
      modifies stopFlags.Values
      ensures forall n | n in stopFlags :: stopFlags[n].value
    {
      var rest := stopFlags.Keys;
      while rest != {}
        invariant rest <= stopFlags.Keys
        invariant forall n | n in stopFlags.Keys - rest :: stopFlags[n].value
        decreases rest
      {
        var n :| n in rest;
        stopFlags[n].value := true;
        rest := rest - {n};
      }
    }

    /** Moves every joinable handle out, each exactly once, and empties the map. */
    method TakeAllThreads() returns (taken: seq<Thread>, ghost keys: seq<string>)
      modifies this`workerThreads
      ensures ListsJoinable(old(workerThreads), keys)
      ensures taken == HandlesOf(old(workerThreads), keys)
      ensures View() == old(View()).(threads := map[])
    {
      taken, keys := [], [];
      var rest := workerThreads.Keys;
      while rest != {}
        invariant rest <= workerThreads.Keys
        invariant forall i, j | 0 <= i < j < |keys| :: keys[i] != keys[j]
        invariant forall i | 0 <= i < |keys| :: keys[i] in workerThreads.Keys - rest && workerThreads[keys[i]].Joinable?
        invariant forall n | n in workerThreads.Keys - rest && workerThreads[n].Joinable? :: n in keys
        invariant taken == HandlesOf(workerThreads, keys)
        decreases rest
      {
        var n :| n in rest;
        rest := rest - {n};
        if workerThreads[n].Joinable? {
          taken, keys := taken + [workerThreads[n]], keys + [n];
        }
      }
      workerThreads := map[];
    }

    method ClearAllWorkers()
      modifies this`stopFlags, this`activeDevices
      ensures View() == WithoutWorkers(old(View()))
      ensures stopFlags == map[] && activeDevices == {}
    {
      stopFlags, activeDevices := map[], {};
    }

    /** The statuses in the order of their names, as the map holds them. */
    method GetStatus() returns (listed: seq<DeviceStatus>)
      ensures ListedInOrder(listed, statuses)
    {
      listed := [];
      ghost var names: seq<string> := [];
      var rest := statuses.Keys;
      while rest != {}
        invariant rest <= statuses.Keys && InOrder(names)
        invariant forall n :: n in names <==> n in statuses.Keys - rest
        invariant forall i | 0 <= i < |names| :: names[i] in statuses
        invariant forall i, m | 0 <= i < |names| && m in rest :: Before(names[i], m)
        invariant |listed| == |names| && forall i | 0 <= i < |names| :: listed[i] == statuses[names[i]]
        decreases rest
      {
        ghost var least := LeastName(rest);
        var n :| n in rest && forall m | m in rest :: m == n || Before(n, m);
        listed, names := listed + [statuses[n]], names + [n];
        rest := rest - {n};
      }
      assert ListsUnder(listed, statuses, names);
    }

    method IsActive(name: string) returns (active: bool)
      ensures active <==> name in View().active
    {
      active := name in activeDevices;
    }

    method TakeThread(name: string) returns (thread: Thread)
      modifies this`workerThreads
      ensures thread == ThreadOf(old(View()), name)
      ensures View() == WithoutThread(old(View()), name)
      ensures thread == if name in old(workerThreads) then old(workerThreads)[name] else NotJoinable
      ensures name !in workerThreads
      ensures forall n | n != name :: n in workerThreads <==> n in old(workerThreads)
      ensures forall n | n in workerThreads :: workerThreads[n] == old(workerThreads)[n]
    {
      thread := NotJoinable;
      if name in workerThreads {
        thread := workerThreads[name];
        workerThreads := workerThreads - {name};
      }
    }

    method EraseStopFlag(name: string)
      modifies this`stopFlags
      ensures View() == WithoutFlag(old(View()), name)
      ensures name !in stopFlags
      ensures forall n | n != name :: n in stopFlags <==> n in old(stopFlags)
      ensures forall n | n in stopFlags :: stopFlags[n] == old(stopFlags)[n]
    {
      stopFlags := stopFlags - {name};
    }

    /** Move-assigning over a joinable std::thread terminates the process, so the caller must rule it out. */
    method AddWorker(name: string, stopFlag: AtomicBool, thread: Thread)
      requires thread == Joinable(stopFlag.worker)
      requires !ThreadOf(View(), name).Joinable?
      modifies this`activeDevices, this`stopFlags, this`workerThreads
      ensures View() == WithWorker(old(View()), name, stopFlag.worker)
      ensures forall n :: n in activeDevices <==> n in old(activeDevices) || n == name
      ensures stopFlags == old(stopFlags)[name := stopFlag]
      ensures workerThreads == old(workerThreads)[name := thread]
    {
      activeDevices := activeDevices + {name};
      stopFlags := stopFlags[name := stopFlag];
      workerThreads := workerThreads[name := thread];
    }

    method MarkStartFailed(name: string)
      modifies this`activeDevices, this`stopFlags
      ensures View() == Forgotten(old(View()), name)
      ensures name !in activeDevices && name !in stopFlags
      ensures forall n | n != name :: n in activeDevices <==> n in old(activeDevices)
      ensures forall n | n != name :: n in stopFlags <==> n in old(stopFlags)
      ensures forall n | n in stopFlags :: stopFlags[n] == old(stopFlags)[n]
    {
      activeDevices := activeDevices - {name};
      stopFlags := stopFlags - {name};
    }

    method RequestStop(name: string) returns (active: bool)
      modifies if name in stopFlags then {stopFlags[name]} else {}
      ensures active <==> name in View().active
      ensures name in stopFlags ==> stopFlags[name].value == (active || old(stopFlags[name].value))
    {
      if name !in activeDevices {
        return false;
      }
      if name in stopFlags {
        stopFlags[name].value := true;
      }
      return true;
    }

    method MarkStopped(name: string)
      modifies this`activeDevices, this`stopFlags
      ensures View() == Forgotten(old(View()), name)
      ensures name !in activeDevices && name !in stopFlags
      ensures forall n | n != name :: n in activeDevices <==> n in old(activeDevices)
      ensures forall n | n != name :: n in stopFlags <==> n in old(stopFlags)
      ensures forall n | n in stopFlags :: stopFlags[n] == old(stopFlags)[n]
    {
      activeDevices := activeDevices - {name};
      stopFlags := stopFlags - {name};
    }

    method SetLatestStatus(status: DeviceStatus)
      modifies this`statuses
      ensures View() == WithStatus(old(View()), status)
      ensures status.deviceName in statuses && statuses[status.deviceName] == status
      ensures forall n | n != status.deviceName :: n in statuses <==> n in old(statuses)
      ensures forall n | n in statuses && n != status.deviceName :: statuses[n] == old(statuses)[n]
    {
      statuses := statuses[status.deviceName := status];
    }
  }
}
