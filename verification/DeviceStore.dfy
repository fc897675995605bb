/**
  The Device and DataPoint tables and the commands that change them. A device's data points are a
  cache of what the parser makes of its model; the invariant Coherent says how far the cache can be trusted.
 */
module DeviceStore {
  import opened Models
  import opened Strings
  import opened ModelParser

  datatype Db = Db(devices: seq<Device>, nextDeviceId: nat, points: seq<DataPoint>, nextPointId: nat)

  datatype Result = Done | Failed(error: string)

  /** A storage error, at one of the writing statements or commits of a command, counted from 0. */
  datatype Fault = NoFault | FaultAt(at: nat, message: string)

  predicate Strikes(fault: Fault, at: nat) {
    fault.FaultAt? && fault.at == at
  }

  /** The same fault, counted from n statements later on. */
  function Later(fault: Fault, n: nat): Fault {
    if fault.FaultAt? && fault.at >= n then FaultAt(fault.at - n, fault.message) else NoFault
  }

  /** Model files by model name and version. */
  type Texts = map<(string, string), string>

  // ----- statements on the tables -----

  /** Every column of the device row holds the field it is named after. */
  predicate RowHolds(d: Device, u: DeviceUpsert) {
    && d.name == u.name && d.ip == u.ip && d.port == u.port && d.sampleIntervalMs == u.sampleIntervalMs
    && d.status == u.status && d.model == u.model && d.modelVersion == u.modelVersion && d.driverPath == u.driverPath
  }

  predicate HasDevice(devices: seq<Device>, name: string) {
    exists d | d in devices :: d.name == name
  }

  function DeviceNamed(devices: seq<Device>, name: string): Option<Device> {
    if devices == [] then None else if devices[0].name == name then Some(devices[0]) else DeviceNamed(devices[1..], name)
  }

  function Made(id: nat, u: DeviceUpsert): Device {
    Device(id, u.name, u.ip, u.port, u.sampleIntervalMs, u.status, u.model, u.modelVersion, u.driverPath)
  }

  function UpdatedDevices(devices: seq<Device>, u: DeviceUpsert, target: string): seq<Device> {
    seq(|devices|, i requires 0 <= i < |devices| =>
      if devices[i].name == target then Made(devices[i].id, u) else devices[i])
  }

  function RemovedDevices(devices: seq<Device>, name: string): seq<Device> {
    if devices == [] then []
    else if devices[0].name == name then RemovedDevices(devices[1..], name)
    else [devices[0]] + RemovedDevices(devices[1..], name)
  }

  function PointsNamed(points: seq<DataPoint>, name: string): seq<DataPoint> {
    if points == [] then []
    else if points[0].deviceName == name then [points[0]] + PointsNamed(points[1..], name)
    else PointsNamed(points[1..], name)
  }

  function WithoutPoints(points: seq<DataPoint>, name: string): seq<DataPoint> {
    if points == [] then []
    else if points[0].deviceName == name then WithoutPoints(points[1..], name)
    else [points[0]] + WithoutPoints(points[1..], name)
  }

  function Renamed(p: DataPoint, oldName: string, newName: string): DataPoint {
    if p.deviceName == oldName then p.(deviceName := newName) else p
  }

  function RenamedPoints(points: seq<DataPoint>, oldName: string, newName: string): seq<DataPoint> {
    seq(|points|, i requires 0 <= i < |points| => Renamed(points[i], oldName, newName))
  }

  function RowFor(device: Device, id: nat, p: DataPoint): DataPoint {
    DataPoint(id, device.id, device.name, p.namePath, p.itemPath, p.itemName, p.itemDescription)
  }

  function RowsFor(device: Device, firstId: nat, points: seq<DataPoint>): seq<DataPoint> {
    seq(|points|, i requires 0 <= i < |points| => RowFor(device, firstId + i, points[i]))
  }

  /** UNIQUE(DName, NamePath) stands in the way of a row. */
  predicate Taken(points: seq<DataPoint>, name: string, namePath: string) {
    exists p | p in points :: p.deviceName == name && p.namePath == namePath
  }

  predicate RenameClashes(points: seq<DataPoint>, oldName: string, newName: string) {
    exists p | p in points :: p.deviceName == oldName && Taken(points, newName, p.namePath)
  }

  predicate DistinctPaths(points: seq<DataPoint>) {
    forall i, j | 0 <= i < j < |points| :: points[i].namePath != points[j].namePath
  }

  // ----- SQLiteManager on values -----

  const CONSTRAINT := "UNIQUE constraint failed: DataPoint.DName, DataPoint.NamePath"

  function Replaced(db: Db, device: Device, points: seq<DataPoint>): Db {
    db.(points := WithoutPoints(db.points, device.name) + RowsFor(device, db.nextPointId, points),
        nextPointId := db.nextPointId + |points|)
  }

  predicate Repeats(points: seq<DataPoint>, i: nat)
    requires i < |points|
  {
    exists j :: 0 <= j < i && points[j].namePath == points[i].namePath
  }

  /** The first insert from i on that meets the constraint; |points| when there is none. */
  function FirstClash(points: seq<DataPoint>, i: nat): (clash: nat)
    requires i <= |points|
    ensures i <= clash <= |points| && (clash < |points| ==> Repeats(points, clash))
    ensures forall k | i <= k < clash :: !Repeats(points, k)
    decreases |points| - i
  {
    if i == |points| || Repeats(points, i) then i else FirstClash(points, i + 1)
  }

  /** One transaction: statement 0 deletes the old rows, 1 + i inserts point i, the commit comes last. */
  function ReplaceResult(points: seq<DataPoint>, fault: Fault): Result {
    var clash := FirstClash(points, 0);
    if fault.FaultAt? && fault.at <= 1 + clash then Failed(fault.message)
    else if clash < |points| then Failed(CONSTRAINT)
    else Done
  }

  function ReplacedOrNot(db: Db, device: Device, points: seq<DataPoint>, fault: Fault): (Db, Result) {
    var r := ReplaceResult(points, fault);
    (if r.Done? then Replaced(db, device, points) else db, r)
  }

  function Created(db: Db, u: DeviceUpsert, fault: Fault): (Db, Result) {
    if HasDevice(db.devices, u.name) then (db, Failed("device already exists: " + u.name))
    else if Strikes(fault, 0) then (db, Failed(fault.message))
    else (db.(devices := db.devices + [Made(db.nextDeviceId, u)], nextDeviceId := db.nextDeviceId + 1), Done)
  }

  function Target(u: DeviceUpsert): string {
    if u.oldName != "" then u.oldName else u.name
  }

  predicate Renames(u: DeviceUpsert) {
    u.name != Target(u)
  }

  predicate Remodels(existing: Device, u: DeviceUpsert) {
    existing.model != u.model || existing.modelVersion != u.modelVersion
  }

  /** The statement that drops the points: it follows the device row and, if there is one, the rename. */
  function DropAt(u: DeviceUpsert): nat {
    if Renames(u) then 2 else 1
  }

  function MovedPoints(points: seq<DataPoint>, u: DeviceUpsert): seq<DataPoint> {
    if Renames(u) then RenamedPoints(points, Target(u), u.name) else points
  }

  /** The statements of updateDevice after the device row. */
  function Rewritten(db: Db, existing: Device, u: DeviceUpsert, fault: Fault): (Db, Result) {
    if Renames(u) && Strikes(fault, 1) then (db, Failed(fault.message))
    else if Renames(u) && RenameClashes(db.points, Target(u), u.name) then (db, Failed(CONSTRAINT))
    else
      var moved := db.(points := MovedPoints(db.points, u));
      if !Remodels(existing, u) then (moved, Done)
      else if Strikes(fault, DropAt(u)) then (moved, Failed(fault.message))
      else (moved.(points := WithoutPoints(moved.points, u.name)), Done)
  }

  /** updateDevice runs outside a transaction: what was written before a failure stays. */
  function Updated(db: Db, u: DeviceUpsert, fault: Fault): (Db, Result) {
    match DeviceNamed(db.devices, Target(u))
    case None => (db, Failed("device not found: " + Target(u)))
    case Some(existing) =>
      if Renames(u) && HasDevice(db.devices, u.name) then (db, Failed("device already exists: " + u.name))
      else if Strikes(fault, 0) then (db, Failed(fault.message))
      else Rewritten(db.(devices := UpdatedDevices(db.devices, u, Target(u))), existing, u, fault)
  }

  /** One transaction of two deletes and a commit. */
  function Deleted(db: Db, name: string, fault: Fault): (Db, Result) {
    if !HasDevice(db.devices, name) then (db, Failed("device not found: " + name))
    else if fault.FaultAt? && fault.at <= 2 then (db, Failed(fault.message))
    else (db.(points := WithoutPoints(db.points, name), devices := RemovedDevices(db.devices, name)), Done)
  }

  // ----- the commands on values -----

  function LoadModelText(texts: Texts, model: string, version: string): Option<string> {
    if model == "" then None
    else if Contains(model, "DataItem:") then Some(model)
    else if (model, version) in texts then Some(texts[(model, version)])
    else None
  }

  function ModelOf(texts: Texts, d: Device): Option<string> {
    LoadModelText(texts, d.model, d.modelVersion)
  }

  function Initialized(db: Db, texts: Texts, name: string, fault: Fault): (Db, Result) {
    match DeviceNamed(db.devices, name)
    case None => (db, Failed("device not found: " + name))
    case Some(device) =>
      match ModelOf(texts, device)
      case None =>
        (db, Failed(if device.model == "" then "model is empty" else "model definition not found: " + device.model))
      case Some(text) =>
        var points := Parse(device, text);
        if points == [] then (db, Failed("model has no DataItem: " + device.model))
        else ReplacedOrNot(db, device, points, fault)
  }

  /** The part of startDeviceCollect before the running check. */
  function Prepared(db: Db, texts: Texts, name: string, fault: Fault): (Db, Result) {
    match DeviceNamed(db.devices, name)
    case None => (db, Failed("device not found: " + name))
    case Some(device) =>
      if device.status == 0 then (db, Failed("device is offline: " + name))
      else if PointsNamed(db.points, name) != [] then (db, Done)
      else Initialized(db, texts, name, fault)
  }

  /** statusGiven: the request text mentions a status, which otherwise keeps its old value. */
  datatype DeviceCommand =
    | Create(device: DeviceUpsert)
    | Update(device: DeviceUpsert, statusGiven: bool)
    | Delete(name: string)
    | Start(name: string)

  /** The record that update_device writes. */
  function StatusKept(u: DeviceUpsert, statusGiven: bool, before: Device): DeviceUpsert {
    if statusGiven then u else u.(status := before.status)
  }

  function UpdatedThenInitialized(db: Db, texts: Texts, before: Device, u: DeviceUpsert, fault: Fault): (Db, Result) {
    var updated := Updated(db, u, fault);
    if updated.1.Failed? || !Remodels(before, u) then updated
    else Initialized(updated.0, texts, u.name, Later(fault, DropAt(u) + 1))
  }

  function Executed(db: Db, texts: Texts, c: DeviceCommand, fault: Fault): (Db, Result) {
    match c
    case Create(u) =>
      if u.name == "" then (db, Failed("device_name is empty"))
      else if u.model == "" then (db, Failed("model is empty"))
      else
        var created := Created(db, u, fault);
        if created.1.Failed? then created else Initialized(created.0, texts, u.name, Later(fault, 1))
    case Update(u, statusGiven) =>
      if u.name == "" then (db, Failed("device_name is empty"))
      else if u.model == "" then (db, Failed("model is empty"))
      else (
        match DeviceNamed(db.devices, Target(u))
        case None => (db, Failed("device not found: " + u.name))
        case Some(before) => UpdatedThenInitialized(db, texts, before, StatusKept(u, statusGiven, before), fault))
    case Delete(name) => Deleted(db, name, fault)
    case Start(name) => Prepared(db, texts, name, fault)
  }

  // ----- what the statements do to a device's points -----

  lemma {:induction false} PointsNamedMembers(points: seq<DataPoint>, name: string)
    ensures forall p :: p in PointsNamed(points, name) <==> p in points && p.deviceName == name
  {
    if points == [] {
    } else {
      PointsNamedMembers(points[1..], name);
      assert forall p :: p in points <==> p == points[0] || p in points[1..];
    }
  }

  lemma {:induction false} WithoutPointsMembers(points: seq<DataPoint>, name: string)
    ensures forall p :: p in WithoutPoints(points, name) <==> p in points && p.deviceName != name
  {
    if points == [] {
    } else {
      WithoutPointsMembers(points[1..], name);
      assert forall p :: p in points <==> p == points[0] || p in points[1..];
    }
  }

  lemma {:induction false} NamedAfterDelete(points: seq<DataPoint>, gone: string, name: string)
    ensures PointsNamed(WithoutPoints(points, gone), name) == if name == gone then [] else PointsNamed(points, name)
  {
    if points == [] {
    } else {
      NamedAfterDelete(points[1..], gone, name);
    }
  }

  lemma {:induction false} NamedAppend(a: seq<DataPoint>, b: seq<DataPoint>, name: string)
    ensures PointsNamed(a + b, name) == PointsNamed(a, name) + PointsNamed(b, name)
  {
    if a == [] {
      assert a + b == b;
    } else {
      assert (a + b)[1..] == a[1..] + b;
      NamedAppend(a[1..], b, name);
    }
  }

  lemma {:induction false} NamedAll(points: seq<DataPoint>, name: string)
    ensures (forall p | p in points :: p.deviceName == name) ==> PointsNamed(points, name) == points
    ensures (forall p | p in points :: p.deviceName != name) ==> PointsNamed(points, name) == []
  {
    if points == [] {
    } else {
      NamedAll(points[1..], name);
    }
  }

  lemma RenamedCons(p: DataPoint, rest: seq<DataPoint>, oldName: string, newName: string)
    ensures RenamedPoints([p] + rest, oldName, newName)
            == [Renamed(p, oldName, newName)] + RenamedPoints(rest, oldName, newName)
  {
    hide Renamed;
  }

  lemma NamedCons(p: DataPoint, rest: seq<DataPoint>, name: string)
    ensures PointsNamed([p] + rest, name) == (if p.deviceName == name then [p] else []) + PointsNamed(rest, name)
  {
    assert ([p] + rest)[1..] == rest;
  }

  lemma NothingBefore(points: seq<DataPoint>)
    ensures [] + points == points
  {
  }

  lemma {:induction false} NamedAfterRename(points: seq<DataPoint>, oldName: string, newName: string, name: string)
    requires oldName != newName && forall p | p in points :: p.deviceName != newName
    ensures PointsNamed(RenamedPoints(points, oldName, newName), name)
            == if name == newName then RenamedPoints(PointsNamed(points, oldName), oldName, newName)
               else if name == oldName then [] else PointsNamed(points, name)
  {
    if points == [] {
    } else {
      hide RenamedPoints, PointsNamed;
      var p, rest := points[0], points[1..];
      assert points == [p] + rest && p in points && forall q | q in rest :: q in points;
      NamedAfterRename(rest, oldName, newName, name);
      RenamedCons(p, rest, oldName, newName);
      NamedCons(Renamed(p, oldName, newName), RenamedPoints(rest, oldName, newName), name);
      NamedCons(p, rest, oldName);
      NamedCons(p, rest, name);
      RenamedCons(p, PointsNamed(rest, oldName), oldName, newName);
      NothingBefore(PointsNamed(rest, oldName));
      NothingBefore(PointsNamed(rest, name));
      NothingBefore(RenamedPoints(PointsNamed(rest, oldName), oldName, newName));
    }
  }

  lemma {:induction false} DeviceNamedFinds(devices: seq<Device>, name: string)
    ensures DeviceNamed(devices, name).Some? <==> HasDevice(devices, name)
    ensures DeviceNamed(devices, name).Some?
            ==> DeviceNamed(devices, name).value in devices && DeviceNamed(devices, name).value.name == name
  {
    if devices == [] {
    } else {
      DeviceNamedFinds(devices[1..], name);
      assert forall d :: d in devices <==> d == devices[0] || d in devices[1..];
    }
  }

  lemma {:induction false} RemovedMembers(devices: seq<Device>, name: string)
    ensures forall d :: d in RemovedDevices(devices, name) <==> d in devices && d.name != name
  {
    if devices == [] {
    } else {
      RemovedMembers(devices[1..], name);
      assert forall d :: d in devices <==> d == devices[0] || d in devices[1..];
    }
  }

  /** Names are distinct, and rows stand in the order of their ids. */
  ghost predicate DistinctDevices(devices: seq<Device>, nextId: nat) {
    && (forall i, j | 0 <= i < j < |devices| :: devices[i].name != devices[j].name && devices[i].id < devices[j].id)
    && (forall d | d in devices :: d.id < nextId)
  }

  lemma DistinctRest(devices: seq<Device>, nextId: nat)
    requires devices != [] && DistinctDevices(devices, nextId)
    ensures DistinctDevices(devices[1..], nextId)
    ensures forall d | d in devices[1..] :: devices[0].id < d.id && devices[0].name != d.name
  {
  }

  lemma DistinctCons(first: Device, rest: seq<Device>, nextId: nat)
    requires DistinctDevices(rest, nextId) && first.id < nextId
    requires forall d | d in rest :: first.id < d.id && first.name != d.name
    ensures DistinctDevices([first] + rest, nextId)
  {
    var all := [first] + rest;
    forall i, j | 0 <= i < j < |all| ensures all[i].name != all[j].name && all[i].id < all[j].id {
      assert all[j] == rest[j - 1] && (i > 0 ==> all[i] == rest[i - 1]);
    }
  }

  lemma {:induction false} RemovedDistinct(devices: seq<Device>, name: string, nextId: nat)
    requires DistinctDevices(devices, nextId)
    ensures DistinctDevices(RemovedDevices(devices, name), nextId)
  {
    if devices == [] {
    } else {
      assert devices[0] in devices && devices[0].id < nextId;
      hide DistinctDevices;
      DistinctRest(devices, nextId);
      RemovedDistinct(devices[1..], name, nextId);
      RemovedMembers(devices[1..], name);
      DistinctCons(devices[0], RemovedDevices(devices[1..], name), nextId);
    }
  }

  // ----- the invariant -----

  /** Point rows stand in the order of their ids. */
  ghost predicate OrderedById(points: seq<DataPoint>) {
    forall i, j | 0 <= i < j < |points| :: points[i].id < points[j].id
  }

  ghost predicate OrderedPoints(points: seq<DataPoint>, nextId: nat) {
    OrderedById(points) && forall p | p in points :: p.id < nextId
  }

  predicate OwnedBy(p: DataPoint, d: Device) {
    p.deviceId == d.id && p.deviceName == d.name
  }

  ghost predicate Owned(devices: seq<Device>, p: DataPoint) {
    exists d :: d in devices && OwnedBy(p, d)
  }

  /** Every point row names an existing device, by id and by name. */
  ghost predicate NoOrphans(db: Db) {
    forall p | p in db.points :: Owned(db.devices, p)
  }

  /** By device id: the name under which the device's rows were last written. */
  type Names = map<nat, string>

  /** The device's rows are absent, or what its model yields for the name they were written under, in order. */
  ghost predicate Cached(points: seq<DataPoint>, texts: Texts, names: Names, d: Device) {
    var mine := PointsNamed(points, d.name);
    mine == []
    || (d.id in names && ModelOf(texts, d).Some? && Shapes(mine) == ParsedShapes(names[d.id], ModelOf(texts, d).value))
  }

  ghost predicate Coherent(db: Db, texts: Texts, names: Names) {
    && DistinctDevices(db.devices, db.nextDeviceId) && OrderedPoints(db.points, db.nextPointId) && NoOrphans(db)
    && forall d | d in db.devices :: Cached(db.points, texts, names, d)
  }

  /** The names after a command on this device: the id counter moves exactly when point rows are written. */
  function Noted(names: Names, before: Db, after: Db, name: string): Names {
    var device := DeviceNamed(after.devices, name);
    if after.nextPointId != before.nextPointId && device.Some? then names[device.value.id := name] else names
  }

  function Subject(c: DeviceCommand): string {
    match c
    case Create(u) => u.name
    case Update(u, _) => u.name
    case Delete(name) => name
    case Start(name) => name
  }

  // ----- what the invariant means -----

  /** No row carries a name that no device has. */
  lemma UnusedNameHasNoPoints(db: Db, name: string)
    requires NoOrphans(db) && !HasDevice(db.devices, name)
    ensures PointsNamed(db.points, name) == [] && forall p | p in db.points :: p.deviceName != name
  {
    forall p | p in db.points ensures p.deviceName != name {
      assert Owned(db.devices, p);
    }
    NamedAll(db.points, name);
  }

  /**
    A device's rows are always what the parser makes of its current model, in order, in name path, item
    name and description; in the item path as well exactly when the device still has the name they were
    written under.
   */
  lemma CacheExactly(db: Db, texts: Texts, names: Names, d: Device)
    requires Coherent(db, texts, names) && d in db.devices && PointsNamed(db.points, d.name) != []
    ensures ModelOf(texts, d).Some? && d.id in names
    ensures var mine, parsed := PointsNamed(db.points, d.name), Parse(d, ModelOf(texts, d).value);
            && |mine| == |parsed|
            && (forall i | 0 <= i < |mine| ::
                  && mine[i].namePath == parsed[i].namePath && mine[i].itemName == parsed[i].itemName
                  && mine[i].itemDescription == parsed[i].itemDescription)
            && (Shapes(mine) == Shapes(parsed) <==> names[d.id] == d.name)
  {
    hide Parse, ParsedShapes, PointsNamed, LoadModelText, DistinctDevices, OrderedPoints, NoOrphans;
    assert Cached(db.points, texts, names, d);
    var mine, text := PointsNamed(db.points, d.name), ModelOf(texts, d).value;
    var parsed := Parse(d, text);
    ParsedShapesOf(d, text);
    ShapesByName(names[d.id], d.name, text);
    assert |Shapes(mine)| == |mine| > 0;
    ShapesShowName(names[d.id], d.name, text);
    forall i | 0 <= i < |mine|
      ensures mine[i].namePath == parsed[i].namePath && mine[i].itemName == parsed[i].itemName
      ensures mine[i].itemDescription == parsed[i].itemDescription
    {
      assert Shapes(mine)[i] == ShapeOf(mine[i]) && Shapes(parsed)[i] == ShapeOf(parsed[i]);
    }
  }

  lemma {:induction false} NamedInOrder(points: seq<DataPoint>, name: string)
    requires OrderedById(points)
    ensures OrderedById(PointsNamed(points, name))
  {
    if points == [] {
    } else {
      NamedInOrder(points[1..], name);
      PointsNamedMembers(points[1..], name);
      var rest := PointsNamed(points[1..], name);
      assert forall p | p in points[1..] :: points[0].id < p.id;
      assert forall i | 0 <= i < |rest| :: rest[i] in rest;
    }
  }

  lemma {:induction false} WithoutInOrder(points: seq<DataPoint>, name: string)
    requires OrderedById(points)
    ensures OrderedById(WithoutPoints(points, name))
  {
    if points == [] {
    } else {
      WithoutInOrder(points[1..], name);
      WithoutPointsMembers(points[1..], name);
      var rest := WithoutPoints(points[1..], name);
      assert forall p | p in points[1..] :: points[0].id < p.id;
      assert forall i | 0 <= i < |rest| :: rest[i] in rest;
    }
  }

  // ----- create and delete -----

  /** With any fault; a new device starts without points. */
  lemma CreateKeepsCoherent(db: Db, texts: Texts, names: Names, u: DeviceUpsert, fault: Fault)
    requires Coherent(db, texts, names)
    ensures var (db', r) := Created(db, u, fault);
            Coherent(db', texts, names) && (r.Done? ==> PointsNamed(db'.points, u.name) == [])
  {
    var db' := Created(db, u, fault).0;
    if Created(db, u, fault).1.Done? {
      UnusedNameHasNoPoints(db, u.name);
      assert forall d :: d in db'.devices <==> d in db.devices || d == Made(db.nextDeviceId, u);
      forall p | p in db'.points ensures Owned(db'.devices, p) {
        var d :| d in db.devices && OwnedBy(p, d);
        assert d in db'.devices;
      }
    }
  }

  /** A deleted device is gone with its points; the other rows are all kept, in their order. */
  lemma DeletedRows(db: Db, name: string, fault: Fault)
    requires Deleted(db, name, fault).1.Done?
    ensures var after := Deleted(db, name, fault).0;
            && (forall d :: d in after.devices <==> d in db.devices && d.name != name)
            && (forall p :: p in after.points <==> p in db.points && p.deviceName != name)
            && (OrderedById(db.points) ==> OrderedById(after.points))
            && (DistinctDevices(db.devices, db.nextDeviceId) ==> DistinctDevices(after.devices, db.nextDeviceId))
            && after.nextDeviceId == db.nextDeviceId && after.nextPointId == db.nextPointId
  {
    RemovedMembers(db.devices, name);
    WithoutPointsMembers(db.points, name);
    if OrderedById(db.points) { WithoutInOrder(db.points, name); }
    if DistinctDevices(db.devices, db.nextDeviceId) { RemovedDistinct(db.devices, name, db.nextDeviceId); }
  }

  /** So the name is free again: a create of it is accepted and makes a device without points. */
  lemma DeletedThenCreated(db: Db, name: string, fault: Fault, u: DeviceUpsert)
    requires Deleted(db, name, fault).1.Done? && u.name == name
    ensures var (after, r) := Created(Deleted(db, name, fault).0, u, NoFault);
            && r.Done? && HasDevice(after.devices, name)
            && forall p | p in after.points :: p.deviceName != name
  {
    DeletedRows(db, name, fault);
    var gone := Deleted(db, name, fault).0;
    var after := Created(gone, u, NoFault).0;
    assert !HasDevice(gone.devices, name);
    assert after.devices[|gone.devices|] in after.devices;
  }

  lemma DeleteKeepsCoherent(db: Db, texts: Texts, names: Names, name: string, fault: Fault)
    requires Coherent(db, texts, names)
    ensures Coherent(Deleted(db, name, fault).0, texts, names)
  {
    hide Shapes, ParsedShapes, LoadModelText;
    if Deleted(db, name, fault).1.Done? {
      var db' := Deleted(db, name, fault).0;
      RemovedMembers(db.devices, name);
      RemovedDistinct(db.devices, name, db.nextDeviceId);
      WithoutPointsMembers(db.points, name);
      WithoutInOrder(db.points, name);
      forall p | p in db'.points ensures Owned(db'.devices, p) {
        var d :| d in db.devices && OwnedBy(p, d);
        assert d in db'.devices;
      }
      forall d | d in db'.devices ensures Cached(db'.points, texts, names, d) {
        NamedAfterDelete(db.points, name, d.name);
      }
    }
  }

  // ----- initialisation -----

  lemma RowsForShapes(device: Device, firstId: nat, points: seq<DataPoint>)
    ensures Shapes(RowsFor(device, firstId, points)) == Shapes(points)
    ensures forall p | p in RowsFor(device, firstId, points) :: p.deviceName == device.name
  {
  }

  lemma RowsForNamed(device: Device, firstId: nat, points: seq<DataPoint>, name: string)
    ensures PointsNamed(RowsFor(device, firstId, points), name)
            == if name == device.name then RowsFor(device, firstId, points) else []
    ensures Shapes(RowsFor(device, firstId, points)) == Shapes(points)
  {
    hide RowsFor, PointsNamed, Shapes;
    RowsForShapes(device, firstId, points);
    NamedAll(RowsFor(device, firstId, points), name);
  }

  /** Reading back after a replace gives the same points in order, with the device's id and name. */
  lemma ReplacedReadsBack(db: Db, device: Device, points: seq<DataPoint>, name: string)
    ensures PointsNamed(Replaced(db, device, points).points, name)
            == if name == device.name then RowsFor(device, db.nextPointId, points) else PointsNamed(db.points, name)
  {
    var kept, rows := WithoutPoints(db.points, device.name), RowsFor(device, db.nextPointId, points);
    NamedAppend(kept, rows, name);
    NamedAfterDelete(db.points, device.name, name);
    RowsForNamed(device, db.nextPointId, points, name);
  }

  lemma ReplaceKeepsOwned(db: Db, device: Device, points: seq<DataPoint>)
    requires NoOrphans(db) && device in db.devices
    ensures NoOrphans(Replaced(db, device, points))
  {
    var db' := Replaced(db, device, points);
    var rows := RowsFor(device, db.nextPointId, points);
    WithoutPointsMembers(db.points, device.name);
    forall p | p in db'.points ensures Owned(db'.devices, p) {
      if p in rows { assert OwnedBy(p, device); } else { assert p in db.points; }
    }
  }

  lemma RowsForIds(device: Device, firstId: nat, points: seq<DataPoint>)
    ensures |RowsFor(device, firstId, points)| == |points|
    ensures forall i | 0 <= i < |points| :: RowsFor(device, firstId, points)[i].id == firstId + i
  {
  }

  lemma ReplaceKeepsOrder(db: Db, device: Device, points: seq<DataPoint>)
    requires OrderedPoints(db.points, db.nextPointId)
    ensures OrderedPoints(Replaced(db, device, points).points, Replaced(db, device, points).nextPointId)
  {
    hide WithoutPoints, RowsFor;
    WithoutInOrder(db.points, device.name);
    WithoutPointsMembers(db.points, device.name);
    RowsForIds(device, db.nextPointId, points);
    var kept := WithoutPoints(db.points, device.name);
    assert forall i | 0 <= i < |kept| :: kept[i] in kept;
  }

  lemma ReplaceKeepsCoherent(db: Db, texts: Texts, names: Names, device: Device, points: seq<DataPoint>)
    requires Coherent(db, texts, names) && device in db.devices
    requires ModelOf(texts, device).Some? && points == Parse(device, ModelOf(texts, device).value)
    ensures Coherent(Replaced(db, device, points), texts, names[device.id := device.name])
  {
    hide Parse, LoadModelText, NoOrphans, RowsFor, Shapes, ParsedShapes, OrderedPoints;
    ReplaceKeepsOwned(db, device, points);
    ReplaceKeepsOrder(db, device, points);
    forall d | d in db.devices
      ensures Cached(Replaced(db, device, points).points, texts, names[device.id := device.name], d)
    {
      ReplacedReadsBack(db, device, points, d.name);
      RowsForNamed(device, db.nextPointId, points, d.name);
      ParsedShapesOf(device, ModelOf(texts, device).value);
      if d.name == device.name { assert d == device; } else { assert d.id != device.id; }
    }
  }

  /** With any fault; what fails changes nothing, and what succeeds is noted under the current name. */
  lemma InitKeepsCoherent(db: Db, texts: Texts, names: Names, name: string, fault: Fault)
    requires Coherent(db, texts, names)
    ensures var (db', r) := Initialized(db, texts, name, fault);
            && Coherent(db', texts, Noted(names, db, db', name))
            && (r.Failed? ==> db' == db)
            && (r.Done? ==> DeviceNamed(db'.devices, name).Some? && Noted(names, db, db', name)
                            == names[DeviceNamed(db'.devices, name).value.id := name])
  {
    hide Parse, LoadModelText, Coherent, ReplaceResult, WithoutPoints, RowsFor;
    DeviceNamedFinds(db.devices, name);
    if Initialized(db, texts, name, fault).1.Done? {
      var device := DeviceNamed(db.devices, name).value;
      ReplaceKeepsCoherent(db, texts, names, device, Parse(device, ModelOf(texts, device).value));
    }
  }

  /** A start that gets past the database finds points, so its last emptiness check never fires. */
  lemma PreparedHasPoints(db: Db, texts: Texts, name: string, fault: Fault)
    requires Prepared(db, texts, name, fault).1.Done?
    ensures PointsNamed(Prepared(db, texts, name, fault).0.points, name) != []
  {
    hide Parse, LoadModelText, ReplaceResult;
    DeviceNamedFinds(db.devices, name);
    if PointsNamed(db.points, name) == [] {
      var device := DeviceNamed(db.devices, name).value;
      ReplacedReadsBack(db, device, Parse(device, ModelOf(texts, device).value), name);
    }
  }

  // ----- update -----

  lemma UpdatedHas(devices: seq<Device>, u: DeviceUpsert, d: Device)
    requires d in devices
    ensures (if d.name == Target(u) then Made(d.id, u) else d) in UpdatedDevices(devices, u, Target(u))
  {
    var i :| 0 <= i < |devices| && devices[i] == d;
    assert UpdatedDevices(devices, u, Target(u))[i] in UpdatedDevices(devices, u, Target(u));
  }

  lemma UpdatedFrom(devices: seq<Device>, u: DeviceUpsert, e: Device)
    requires e in UpdatedDevices(devices, u, Target(u)) && (Renames(u) ==> !HasDevice(devices, u.name))
    ensures (e in devices && e.name != Target(u) && e.name != u.name)
            || exists d :: d in devices && d.name == Target(u) && e == Made(d.id, u)
  {
    var i :| 0 <= i < |devices| && UpdatedDevices(devices, u, Target(u))[i] == e;
    assert devices[i] in devices;
  }

  lemma UpdatedKeepsDistinct(devices: seq<Device>, nextId: nat, u: DeviceUpsert)
    requires DistinctDevices(devices, nextId) && (Renames(u) ==> !HasDevice(devices, u.name))
    ensures DistinctDevices(UpdatedDevices(devices, u, Target(u)), nextId)
  {
    var updated := UpdatedDevices(devices, u, Target(u));
    forall i | 0 <= i < |devices| ensures devices[i] in devices && updated[i].id == devices[i].id { }
    forall e | e in updated ensures e.id < nextId {
      var i :| 0 <= i < |updated| && updated[i] == e;
    }
  }

  /** What updateDevice does to the device rows. */
  lemma UpdatedDevicesDistinct(db: Db, u: DeviceUpsert)
    requires DistinctDevices(db.devices, db.nextDeviceId) && (Renames(u) ==> !HasDevice(db.devices, u.name))
    ensures DistinctDevices(UpdatedDevices(db.devices, u, Target(u)), db.nextDeviceId)
    ensures forall d | d in db.devices ::
              (if d.name == Target(u) then Made(d.id, u) else d) in UpdatedDevices(db.devices, u, Target(u))
    ensures forall e | e in UpdatedDevices(db.devices, u, Target(u)) ::
              (e in db.devices && e.name != Target(u) && e.name != u.name)
              || exists d :: d in db.devices && d.name == Target(u) && e == Made(d.id, u)
  {
    hide UpdatedDevices, HasDevice, DistinctDevices;
    UpdatedKeepsDistinct(db.devices, db.nextDeviceId, u);
    forall d | d in db.devices
      ensures (if d.name == Target(u) then Made(d.id, u) else d) in UpdatedDevices(db.devices, u, Target(u))
    {
      UpdatedHas(db.devices, u, d);
    }
    forall e | e in UpdatedDevices(db.devices, u, Target(u))
      ensures (e in db.devices && e.name != Target(u) && e.name != u.name)
              || exists d :: d in db.devices && d.name == Target(u) && e == Made(d.id, u)
    {
      UpdatedFrom(db.devices, u, e);
    }
  }

  ghost predicate PointsFollow(before: seq<DataPoint>, after: seq<DataPoint>, target: string, name: string) {
    && |after| == |before|
    && forall i | 0 <= i < |before| ::
         after[i] == if before[i].deviceName == target then before[i].(deviceName := name) else before[i]
  }

  ghost predicate PointsDropped(before: seq<DataPoint>, after: seq<DataPoint>, target: string, name: string) {
    forall p :: p in after <==> p in before && p.deviceName != target && p.deviceName != name
  }

  /**
    The target's row holds the new fields under its old id. Its points follow the rename and are otherwise kept, or
    are dropped when the model or its version changes; all other rows stay as they are.
   */
  ghost predicate UpdatesRows(before: Db, after: Db, u: DeviceUpsert, target: string) {
    && |after.devices| == |before.devices|
    && (forall i | 0 <= i < |before.devices| ::
          if before.devices[i].name == target
          then RowHolds(after.devices[i], u) && after.devices[i].id == before.devices[i].id
          else after.devices[i] == before.devices[i])
    && after.nextDeviceId == before.nextDeviceId && after.nextPointId == before.nextPointId
    && (OrderedById(before.points) ==> OrderedById(after.points))
    && exists existing :: existing in before.devices && existing.name == target
         && if existing.model == u.model && existing.modelVersion == u.modelVersion
            then PointsFollow(before.points, after.points, target, u.name)
            else PointsDropped(before.points, after.points, target, u.name)
  }

  lemma MovedFollow(points: seq<DataPoint>, u: DeviceUpsert)
    ensures PointsFollow(points, MovedPoints(points, u), Target(u), u.name)
    ensures OrderedById(points) ==> OrderedById(MovedPoints(points, u))
  {
    if !Renames(u) {
      assert forall i | 0 <= i < |points| && points[i].deviceName == u.name ::
               points[i].(deviceName := u.name) == points[i];
    }
  }

  lemma DroppedPoints(points: seq<DataPoint>, moved: seq<DataPoint>, u: DeviceUpsert)
    requires PointsFollow(points, moved, Target(u), u.name)
    ensures PointsDropped(points, WithoutPoints(moved, u.name), Target(u), u.name)
    ensures OrderedById(moved) ==> OrderedById(WithoutPoints(moved, u.name))
  {
    WithoutPointsMembers(moved, u.name);
    if OrderedById(moved) { WithoutInOrder(moved, u.name); }
    forall p
      ensures p in WithoutPoints(moved, u.name) <==> p in points && p.deviceName != Target(u) && p.deviceName != u.name
    {
      if p in points {
        var i :| 0 <= i < |points| && points[i] == p;
        assert moved[i] in moved;
      }
      if p in moved {
        var i :| 0 <= i < |moved| && moved[i] == p;
        assert points[i] in points;
      }
    }
  }

  lemma UpdatedRows(db: Db, u: DeviceUpsert, fault: Fault)
    requires Updated(db, u, fault).1.Done?
    ensures UpdatesRows(db, Updated(db, u, fault).0, u, Target(u))
  {
    hide MovedPoints, WithoutPoints, RenameClashes, OrderedById, DeviceNamed, PointsFollow, PointsDropped, HasDevice;
    DeviceNamedFinds(db.devices, Target(u));
    var existing := DeviceNamed(db.devices, Target(u)).value;
    MovedFollow(db.points, u);
    DroppedPoints(db.points, MovedPoints(db.points, u), u);
    assert existing in db.devices && existing.name == Target(u);
  }

  lemma SameShapes(points: seq<DataPoint>, oldName: string, newName: string)
    ensures Shapes(RenamedPoints(points, oldName, newName)) == Shapes(points)
    ensures |RenamedPoints(points, oldName, newName)| == |points|
    ensures OrderedById(points) ==> OrderedById(RenamedPoints(points, oldName, newName))
  {
  }

  /** The rename inside updateDevice never meets the (DName, NamePath) constraint. */
  lemma RenameNeverClashes(db: Db, u: DeviceUpsert)
    requires NoOrphans(db) && Renames(u) && !HasDevice(db.devices, u.name)
    ensures !RenameClashes(db.points, Target(u), u.name)
    ensures HasDevice(db.devices, Target(u)) ==> Updated(db, u, NoFault).1.Done?
  {
    UnusedNameHasNoPoints(db, u.name);
    DeviceNamedFinds(db.devices, Target(u));
  }

  /** Device row and points after the rename, if there is one. */
  function Moved(db: Db, u: DeviceUpsert): Db {
    db.(devices := UpdatedDevices(db.devices, u, Target(u)), points := MovedPoints(db.points, u))
  }

  lemma MovedNamed(db: Db, u: DeviceUpsert, of: string)
    requires NoOrphans(db) && (Renames(u) ==> !HasDevice(db.devices, u.name))
    ensures var mine := PointsNamed(MovedPoints(db.points, u), of);
            && (of == u.name ==> Shapes(mine) == Shapes(PointsNamed(db.points, Target(u))))
            && (of == u.name ==> |mine| == |PointsNamed(db.points, Target(u))|)
            && (of != u.name && of != Target(u) ==> mine == PointsNamed(db.points, of))
  {
    if Renames(u) {
      UnusedNameHasNoPoints(db, u.name);
      NamedAfterRename(db.points, Target(u), u.name, of);
      SameShapes(PointsNamed(db.points, Target(u)), Target(u), u.name);
    }
  }

  lemma MovedOwned(db: Db, u: DeviceUpsert)
    requires DistinctDevices(db.devices, db.nextDeviceId) && NoOrphans(db)
    requires Renames(u) ==> !HasDevice(db.devices, u.name)
    ensures NoOrphans(Moved(db, u))
  {
    UpdatedDevicesDistinct(db, u);
    var moved := MovedPoints(db.points, u);
    forall p | p in moved ensures Owned(UpdatedDevices(db.devices, u, Target(u)), p) {
      var i :| 0 <= i < |moved| && moved[i] == p;
      assert db.points[i] in db.points;
      var d :| d in db.devices && OwnedBy(db.points[i], d);
      assert OwnedBy(p, if d.name == Target(u) then Made(d.id, u) else d);
    }
  }

  lemma MovedOrdered(db: Db, u: DeviceUpsert)
    requires OrderedPoints(db.points, db.nextPointId)
    ensures OrderedPoints(Moved(db, u).points, db.nextPointId)
  {
    SameShapes(db.points, Target(u), u.name);
    var moved := MovedPoints(db.points, u);
    forall p | p in moved ensures p.id < db.nextPointId {
      var i :| 0 <= i < |moved| && moved[i] == p;
      assert db.points[i] in db.points && db.points[i].id == p.id;
    }
  }

  ghost predicate Updatable(db: Db, u: DeviceUpsert, existing: Device) {
    && existing in db.devices && existing.name == Target(u) && (Renames(u) ==> !HasDevice(db.devices, u.name))
  }

  /** After the rename only the updated device's own cache can be at fault. */
  lemma MovedCoherent(db: Db, texts: Texts, names: Names, u: DeviceUpsert, existing: Device)
    requires Coherent(db, texts, names) && Updatable(db, u, existing)
    ensures Coherent(Moved(db, u), texts, names) <==> Cached(Moved(db, u).points, texts, names, Made(existing.id, u))
    ensures forall e | e in Moved(db, u).devices && e.name != u.name :: Cached(Moved(db, u).points, texts, names, e)
  {
    hide Shapes, ParsedShapes, LoadModelText, MovedPoints, NoOrphans, OrderedPoints;
    UpdatedDevicesDistinct(db, u);
    MovedOwned(db, u);
    MovedOrdered(db, u);
    assert Made(existing.id, u) in Moved(db, u).devices;
    forall e | e in Moved(db, u).devices && e.name != u.name ensures Cached(Moved(db, u).points, texts, names, e) {
      assert e in db.devices && Cached(db.points, texts, names, e);
      MovedNamed(db, u, e.name);
    }
    forall e | e in Moved(db, u).devices && e.name == u.name ensures e == Made(existing.id, u) {
      var d :| d in db.devices && d.name == Target(u) && e == Made(d.id, u);
      assert d == existing;
    }
  }

  /** Two texts define the same model. */
  predicate SameModel(texts: Texts, existing: Device, u: DeviceUpsert) {
    var before, after := ModelOf(texts, existing), LoadModelText(texts, u.model, u.modelVersion);
    before.Some? && after.Some? && ParsedShapes("", before.value) == ParsedShapes("", after.value)
  }

  lemma MovedCached(db: Db, texts: Texts, names: Names, u: DeviceUpsert, existing: Device)
    requires Coherent(db, texts, names) && Updatable(db, u, existing)
    ensures Cached(Moved(db, u).points, texts, names, Made(existing.id, u))
            <==> PointsNamed(db.points, Target(u)) == [] || SameModel(texts, existing, u)
  {
    hide Shapes, ParsedShapes, LoadModelText, MovedPoints, NoOrphans, OrderedPoints, PointsNamed;
    assert Cached(db.points, texts, names, existing);
    MovedNamed(db, u, u.name);
    var text := LoadModelText(texts, u.model, u.modelVersion);
    if PointsNamed(db.points, Target(u)) != [] && text.Some? {
      SameModelAnyName("", names[existing.id], ModelOf(texts, existing).value, text.value);
    }
  }

  lemma DroppedCoherent(db: Db, texts: Texts, names: Names, u: DeviceUpsert, existing: Device)
    requires Coherent(db, texts, names) && Updatable(db, u, existing)
    ensures var moved := Moved(db, u);
            Coherent(moved.(points := WithoutPoints(moved.points, u.name)), texts, names)
  {
    hide Shapes, ParsedShapes, LoadModelText, MovedPoints, DistinctDevices;
    var moved := Moved(db, u);
    UpdatedDevicesDistinct(db, u);
    MovedOwned(db, u);
    MovedOrdered(db, u);
    MovedCoherent(db, texts, names, u, existing);
    WithoutPointsMembers(moved.points, u.name);
    WithoutInOrder(moved.points, u.name);
    forall e | e in moved.devices ensures Cached(WithoutPoints(moved.points, u.name), texts, names, e) {
      NamedAfterDelete(moved.points, u.name, e.name);
    }
  }

  /** Stopped between the device row and the rename, any point of the device is orphaned. */
  lemma CutBeforeRename(db: Db, texts: Texts, names: Names, u: DeviceUpsert, existing: Device)
    requires Coherent(db, texts, names) && Updatable(db, u, existing) && Renames(u)
    ensures Coherent(db.(devices := UpdatedDevices(db.devices, u, Target(u))), texts, names)
            <==> PointsNamed(db.points, Target(u)) == []
  {
    hide Shapes, ParsedShapes, LoadModelText, OrderedPoints;
    var db' := db.(devices := UpdatedDevices(db.devices, u, Target(u)));
    var mine := PointsNamed(db.points, Target(u));
    UpdatedDevicesDistinct(db, u);
    PointsNamedMembers(db.points, Target(u));
    UnusedNameHasNoPoints(db, u.name);
    if mine != [] {
      assert mine[0] in mine && !Owned(db'.devices, mine[0]);
    } else {
      forall p | p in db'.points ensures Owned(db'.devices, p) {
        var d :| d in db.devices && OwnedBy(p, d);
        assert d in db'.devices;
      }
      assert forall e | e in db'.devices && e.name != u.name :: e in db.devices && Cached(db.points, texts, names, e);
    }
  }

  /**
    A fault tears an update when the device has points and it strikes before their rename, or after it
    but before they are dropped, unless the new model is the old one under another name.
   */
  predicate Tears(db: Db, texts: Texts, u: DeviceUpsert, fault: Fault) {
    var existing := DeviceNamed(db.devices, Target(u));
    && existing.Some? && (Renames(u) ==> !HasDevice(db.devices, u.name))
    && PointsNamed(db.points, Target(u)) != []
    && ((Renames(u) && Strikes(fault, 1))
        || (Remodels(existing.value, u) && Strikes(fault, DropAt(u)) && !SameModel(texts, existing.value, u)))
  }

  lemma CoherentParts(db: Db, texts: Texts, names: Names)
    requires Coherent(db, texts, names)
    ensures NoOrphans(db)
  {
  }

  /** An update that keeps model and version keeps the model, if the device has points at all. */
  lemma UnchangedModel(db: Db, texts: Texts, names: Names, u: DeviceUpsert, existing: Device)
    requires Coherent(db, texts, names) && Updatable(db, u, existing)
    ensures PointsNamed(db.points, Target(u)) != [] && !Remodels(existing, u) ==> SameModel(texts, existing, u)
  {
    hide LoadModelText, PointsNamed, ParsedShapes, Shapes;
    assert Cached(db.points, texts, names, existing);
  }

  /** updateDevice keeps the invariant if and only if no fault tears it. */
  lemma UpdateKeepsCoherentExactly(db: Db, texts: Texts, names: Names, u: DeviceUpsert, fault: Fault)
    requires Coherent(db, texts, names)
    ensures Coherent(Updated(db, u, fault).0, texts, names) <==> !Tears(db, texts, u, fault)
    ensures Updated(db, u, fault).0.nextPointId == db.nextPointId
    ensures Updated(db, u, fault).1.Done? ==> !Tears(db, texts, u, fault)
  {
    hide Coherent, SameModel, UpdatedDevices, MovedPoints, WithoutPoints, PointsNamed, RenameClashes;
    var found := DeviceNamed(db.devices, Target(u));
    DeviceNamedFinds(db.devices, Target(u));
    if found.Some? && (Renames(u) ==> !HasDevice(db.devices, u.name)) {
      CoherentParts(db, texts, names);
      if Renames(u) {
        RenameNeverClashes(db, u);
        CutBeforeRename(db, texts, names, u, found.value);
      }
      MovedCoherent(db, texts, names, u, found.value);
      MovedCached(db, texts, names, u, found.value);
      DroppedCoherent(db, texts, names, u, found.value);
      UnchangedModel(db, texts, names, u, found.value);
    }
  }

  // ----- commands and runs -----

  predicate CommandTears(db: Db, texts: Texts, c: DeviceCommand, fault: Fault) {
    && c.Update? && c.device.name != "" && c.device.model != ""
    && var before := DeviceNamed(db.devices, Target(c.device));
    && before.Some? && Tears(db, texts, StatusKept(c.device, c.statusGiven, before.value), fault)
  }

  lemma UpdateCommandExactly(db: Db, texts: Texts, names: Names, c: DeviceCommand, fault: Fault)
    requires Coherent(db, texts, names) && c.Update?
    ensures var db' := Executed(db, texts, c, fault).0;
            Coherent(db', texts, Noted(names, db, db', Subject(c))) <==> !CommandTears(db, texts, c, fault)
  {
    hide Coherent, Tears, Updated, Initialized;
    var before := DeviceNamed(db.devices, Target(c.device));
    if before.Some? {
      var v := StatusKept(c.device, c.statusGiven, before.value);
      UpdateKeepsCoherentExactly(db, texts, names, v, fault);
      if !Tears(db, texts, v, fault) {
        InitKeepsCoherent(Updated(db, v, fault).0, texts, names, v.name, Later(fault, DropAt(v) + 1));
      }
    }
  }

  lemma CreateCommandKeepsCoherent(db: Db, texts: Texts, names: Names, u: DeviceUpsert, fault: Fault)
    requires Coherent(db, texts, names)
    ensures var db' := Executed(db, texts, Create(u), fault).0; Coherent(db', texts, Noted(names, db, db', u.name))
  {
    hide Coherent, Initialized;
    CreateKeepsCoherent(db, texts, names, u, fault);
    InitKeepsCoherent(Created(db, u, fault).0, texts, names, u.name, Later(fault, 1));
  }

  lemma OtherCommandKeepsCoherent(db: Db, texts: Texts, names: Names, c: DeviceCommand, fault: Fault)
    requires Coherent(db, texts, names) && (c.Delete? || c.Start?)
    ensures var db' := Executed(db, texts, c, fault).0; Coherent(db', texts, Noted(names, db, db', Subject(c)))
  {
    hide Coherent, Initialized;
    DeleteKeepsCoherent(db, texts, names, Subject(c), fault);
    InitKeepsCoherent(db, texts, names, Subject(c), fault);
  }

  /** A command, whatever fault strikes it, keeps the invariant if and only if it is not a torn update. */
  lemma CommandCoherentExactly(db: Db, texts: Texts, names: Names, c: DeviceCommand, fault: Fault)
    requires Coherent(db, texts, names)
    ensures var db' := Executed(db, texts, c, fault).0;
            Coherent(db', texts, Noted(names, db, db', Subject(c))) <==> !CommandTears(db, texts, c, fault)
  {
    hide Coherent, Executed, Tears, Noted;
    match c
    case Create(u) => CreateCommandKeepsCoherent(db, texts, names, u, fault);
    case Update(_, _) => UpdateCommandExactly(db, texts, names, c, fault);
    case Delete(_) => OtherCommandKeepsCoherent(db, texts, names, c, fault);
    case Start(_) => OtherCommandKeepsCoherent(db, texts, names, c, fault);
  }

  datatype Step = Step(command: DeviceCommand, fault: Fault)

  function ExecutedAll(db: Db, texts: Texts, steps: seq<Step>): Db
    decreases |steps|
  {
    if steps == [] then db else ExecutedAll(Executed(db, texts, steps[0].command, steps[0].fault).0, texts, steps[1..])
  }

  /** The names under which rows were last written, after a run. */
  function NamesAfter(db: Db, texts: Texts, names: Names, steps: seq<Step>): Names
    decreases |steps|
  {
    if steps == [] then names
    else
      var db' := Executed(db, texts, steps[0].command, steps[0].fault).0;
      NamesAfter(db', texts, Noted(names, db, db', Subject(steps[0].command)), steps[1..])
  }

  ghost predicate AlwaysCoherent(db: Db, texts: Texts, names: Names, steps: seq<Step>)
    decreases |steps|
  {
    && Coherent(db, texts, names)
    && (steps != [] ==>
          var db' := Executed(db, texts, steps[0].command, steps[0].fault).0;
          AlwaysCoherent(db', texts, Noted(names, db, db', Subject(steps[0].command)), steps[1..]))
  }

  predicate NeverTears(db: Db, texts: Texts, steps: seq<Step>)
    decreases |steps|
  {
    steps != [] ==>
      && !CommandTears(db, texts, steps[0].command, steps[0].fault)
      && NeverTears(Executed(db, texts, steps[0].command, steps[0].fault).0, texts, steps[1..])
  }

  lemma NotCoherentNow(db: Db, texts: Texts, names: Names, steps: seq<Step>)
    requires !Coherent(db, texts, names)
    ensures !AlwaysCoherent(db, texts, names, steps)
  {
  }

  /** Over a whole run, faults included, the invariant holds throughout if and only if no update is torn. */
  lemma {:induction false} RunCoherentExactly(db: Db, texts: Texts, names: Names, steps: seq<Step>)
    requires Coherent(db, texts, names)
    ensures AlwaysCoherent(db, texts, names, steps) <==> NeverTears(db, texts, steps)
    ensures NeverTears(db, texts, steps)
            ==> Coherent(ExecutedAll(db, texts, steps), texts, NamesAfter(db, texts, names, steps))
    decreases |steps|
  {
    hide Coherent, Executed, CommandTears, Noted;
    if steps == [] {
    } else {
      var c, fault := steps[0].command, steps[0].fault;
      var db' := Executed(db, texts, c, fault).0;
      CommandCoherentExactly(db, texts, names, c, fault);
      if !CommandTears(db, texts, c, fault) {
        RunCoherentExactly(db', texts, Noted(names, db, db', Subject(c)), steps[1..]);
      } else {
        NotCoherentNow(db', texts, Noted(names, db, db', Subject(c)), steps[1..]);
      }
    }
  }

  lemma {:induction false} NoTears(db: Db, texts: Texts, steps: seq<Step>)
    requires forall i | 0 <= i < |steps| :: steps[i].command.Update? ==> steps[i].fault == NoFault
    ensures NeverTears(db, texts, steps)
    decreases |steps|
  {
    hide Executed, SameModel;
    if steps == [] {
    } else {
      NoTears(Executed(db, texts, steps[0].command, steps[0].fault).0, texts, steps[1..]);
    }
  }

  /** In particular when no storage error strikes an update. */
  lemma RunKeepsCoherent(db: Db, texts: Texts, names: Names, steps: seq<Step>)
    requires Coherent(db, texts, names)
    requires forall i | 0 <= i < |steps| :: steps[i].command.Update? ==> steps[i].fault == NoFault
    ensures Coherent(ExecutedAll(db, texts, steps), texts, NamesAfter(db, texts, names, steps))
  {
    NoTears(db, texts, steps);
    RunCoherentExactly(db, texts, names, steps);
  }

  // ----- two inputs -----

  lemma OneDevice(db: Db, texts: Texts, names: Names, existing: Device)
    requires Coherent(db, texts, names) && existing in db.devices
    ensures forall d | d in db.devices && d.name == existing.name :: d == existing
    ensures PointsNamed(db.points, existing.name) != [] ==> existing.id in names && ModelOf(texts, existing).Some?
  {
    assert Cached(db.points, texts, names, existing);
  }

  /** After a rename that keeps the model, the rows still carry the old name in their item paths. */
  lemma RenameKeepsItemPaths(db: Db, texts: Texts, names: Names, u: DeviceUpsert, existing: Device)
    requires Coherent(db, texts, names) && Updatable(db, u, existing) && Renames(u) && !Remodels(existing, u)
    requires PointsNamed(db.points, existing.name) != [] && names[existing.id] == existing.name
    ensures var db' := Updated(db, u, NoFault).0;
            var mine := PointsNamed(db'.points, u.name);
            var parsed := Parse(Made(existing.id, u), ModelOf(texts, existing).value);
            && Shapes(mine) == Shapes(PointsNamed(db.points, existing.name))
            && |mine| == |parsed| && Shapes(mine) != Shapes(parsed)
  {
    hide Parse, ParsedShapes, Shapes, LoadModelText, RenamedPoints, PointsNamed, Coherent, OrderedPoints;
    var db' := Updated(db, u, NoFault).0;
    var device := Made(existing.id, u);
    CoherentParts(db, texts, names);
    OneDevice(db, texts, names, existing);
    DeviceNamedFinds(db.devices, Target(u));
    RenameNeverClashes(db, u);
    MovedNamed(db, u, u.name);
    UpdateKeepsCoherentExactly(db, texts, names, u, NoFault);
    UpdatedHas(db.devices, u, existing);
    CacheExactly(db', texts, names, device);
  }

  const A := DeviceUpsert("", "a", "127.0.0.1", 9001, 1000, 1, "M1", "1.0", "")
  const B := A.(oldName := "a", name := "b")
  const ONE_ITEM := [Component(4, Value("C", false), [], [Item(8, Value("I", false), [])])]

  lemma OneItemParses(device: Device)
    ensures Parse(device, Join(ModelLines(ONE_ITEM)))
            == [DataPoint(0, device.id, device.name, "/C/I", "/DV:" + device.name + "/CP:C/DT:I", "I", "")]
  {
    hide Parse, Join, ModelLines;
    assert [] + ModelLines(ONE_ITEM) == ModelLines(ONE_ITEM);
    PrintedModelParses(device, [], ONE_ITEM);
    assert PointsOf(device, ONE_ITEM) == [PointOf(device, "C", Item(8, Value("I", false), []))] by {
      assert ONE_ITEM[1..] == [];
    }
    assert "/" + "C" + "/" + "I" == "/C/I";
    assert "/DV:" + device.name + "/CP:" + "C" + "/DT:" + "I" == "/DV:" + device.name + "/CP:C/DT:I";
  }

  const ONE_MODEL: Texts := map[("M1", "1.0") := Join(ModelLines(ONE_ITEM))]
  const ROW_A := DataPoint(1, 1, "a", "/C/I", "/DV:a/CP:C/DT:I", "I", "")
  const CREATED_A := Db([Made(1, A)], 2, [ROW_A], 2)

  lemma OneItemModel(u: DeviceUpsert)
    requires u.model == "M1" && u.modelVersion == "1.0"
    ensures ModelOf(ONE_MODEL, Made(1, u)) == Some(Join(ModelLines(ONE_ITEM)))
  {
    hide Join, ModelLines;
    assert !Contains("M1", "DataItem:");
  }

  /** Created as a, with the one point of its model. */
  lemma CreatedDevice()
    ensures Executed(Db([], 1, [], 1), ONE_MODEL, Create(A), NoFault) == (CREATED_A, Done)
  {
    hide Parse, Join, ModelLines, ModelOf, FirstClash;
    OneItemModel(A);
    OneItemParses(Made(1, A));
    assert "/DV:" + "a" + "/CP:C/DT:I" == "/DV:a/CP:C/DT:I";
    var db := Db([Made(1, A)], 2, [], 1);
    assert Created(Db([], 1, [], 1), A, NoFault) == (db, Done) by {
      assert [] + [Made(1, A)] == [Made(1, A)];
    }
    var points := Parse(Made(1, A), Join(ModelLines(ONE_ITEM)));
    assert FirstClash(points, 0) == 1;
    assert RowsFor(Made(1, A), 1, points) == [ROW_A];
    assert Replaced(db, Made(1, A), points) == CREATED_A;
  }

  /** Renamed to b, its row still says /DV:a, where the parser would now say /DV:b. */
  lemma RenamedDevice()
    ensures Executed(CREATED_A, ONE_MODEL, Update(B, true), NoFault)
            == (CREATED_A.(devices := [Made(1, B)], points := [ROW_A.(deviceName := "b")]), Done)
    ensures var parsed := Parse(Made(1, B), Join(ModelLines(ONE_ITEM)));
            parsed == [DataPoint(0, 1, "b", "/C/I", "/DV:b/CP:C/DT:I", "I", "")] && parsed[0].itemPath != ROW_A.itemPath
  {
    hide Parse, Join, ModelLines;
    OneItemParses(Made(1, B));
    assert "/DV:" + "b" + "/CP:C/DT:I" == "/DV:b/CP:C/DT:I";
    assert "/DV:b/CP:C/DT:I"[4] != "/DV:a/CP:C/DT:I"[4];
    assert UpdatedDevices([Made(1, A)], B, "a") == [Made(1, B)];
    assert RenamedPoints([ROW_A], "a", "b") == [ROW_A.(deviceName := "b")];
  }

  /** A storage error before the rename leaves the row behind under a name that no device has. */
  lemma TornRename(message: string)
    ensures Executed(CREATED_A, ONE_MODEL, Update(B, true), FaultAt(1, message))
            == (CREATED_A.(devices := [Made(1, B)]), Failed(message))
    ensures !NoOrphans(CREATED_A.(devices := [Made(1, B)]))
  {
    hide Join, ModelLines;
    assert UpdatedDevices([Made(1, A)], B, "a") == [Made(1, B)];
    assert forall d | d in [Made(1, B)] :: !OwnedBy(ROW_A, d);
    assert ROW_A in [ROW_A];
  }

  // ----- the tables in place -----

  lemma ReplaceMeaning(points: seq<DataPoint>, fault: Fault)
    ensures FirstClash(points, 0) == |points| <==> DistinctPaths(points)
    ensures !(fault.FaultAt? && fault.at <= |points| + 1) ==>
              (ReplaceResult(points, fault).Done? <==> DistinctPaths(points))
  {
    if FirstClash(points, 0) == |points| {
      forall i, j | 0 <= i < j < |points| ensures points[i].namePath != points[j].namePath {
        assert !Repeats(points, j);
      }
    }
  }

  /** The last rows hold the new points, one each, for the device and with the next ids. */
  ghost predicate EndsInRows(after: seq<DataPoint>, device: Device, newPoints: seq<DataPoint>, firstId: nat) {
    var k := |after| - |newPoints|;
    && k >= 0
    && forall i | 0 <= i < |newPoints| ::
         && after[k + i].id == firstId + i && after[k + i].deviceId == device.id && after[k + i].deviceName == device.name
         && after[k + i].namePath == newPoints[i].namePath && after[k + i].itemPath == newPoints[i].itemPath
         && after[k + i].itemName == newPoints[i].itemName
         && after[k + i].itemDescription == newPoints[i].itemDescription
  }

  /** The device's old rows are gone, the others are kept in their order, and the new rows follow. */
  ghost predicate ReplacesRows(before: seq<DataPoint>, after: seq<DataPoint>, device: Device,
                               newPoints: seq<DataPoint>, firstId: nat) {
    && EndsInRows(after, device, newPoints, firstId)
    && (forall p :: p in after[..|after| - |newPoints|] <==> p in before && p.deviceName != device.name)
    && (OrderedById(before) ==> OrderedById(after[..|after| - |newPoints|]))
  }

  lemma WithoutPointsKept(points: seq<DataPoint>, name: string)
    ensures forall p :: p in WithoutPoints(points, name) <==> p in points && p.deviceName != name
    ensures OrderedById(points) ==> OrderedById(WithoutPoints(points, name))
  {
    hide OrderedById, WithoutPoints;
    WithoutPointsMembers(points, name);
    if OrderedById(points) { WithoutInOrder(points, name); }
  }

  lemma NewRows(kept: seq<DataPoint>, device: Device, firstId: nat, newPoints: seq<DataPoint>)
    ensures EndsInRows(kept + RowsFor(device, firstId, newPoints), device, newPoints, firstId)
    ensures |RowsFor(device, firstId, newPoints)| == |newPoints|
  {
  }

  lemma ReplacedRows(db: Db, device: Device, newPoints: seq<DataPoint>)
    ensures ReplacesRows(db.points, Replaced(db, device, newPoints).points, device, newPoints, db.nextPointId)
  {
    hide WithoutPoints, RowsFor, OrderedById, EndsInRows;
    var kept, rows := WithoutPoints(db.points, device.name), RowsFor(device, db.nextPointId, newPoints);
    WithoutPointsKept(db.points, device.name);
    NewRows(kept, device, db.nextPointId, newPoints);
    assert (kept + rows)[..|kept|] == kept;
  }

  lemma TakenExactly(kept: seq<DataPoint>, device: Device, firstId: nat, newPoints: seq<DataPoint>, i: nat)
    requires i < |newPoints| && forall p | p in kept :: p.deviceName != device.name
    ensures Taken(kept + RowsFor(device, firstId, newPoints[..i]), device.name, newPoints[i].namePath)
            <==> Repeats(newPoints, i)
  {
    var rows := RowsFor(device, firstId, newPoints[..i]);
    if j :| 0 <= j < i && newPoints[j].namePath == newPoints[i].namePath {
      assert rows[j] in kept + rows;
    }
  }

  class SQLiteManager {
    var devices: seq<Device>
    var nextDeviceId: nat
    var points: seq<DataPoint>
    var nextPointId: nat

    ghost function Contents(): Db
      reads this
    {
      Db(devices, nextDeviceId, points, nextPointId)
    }

    constructor ()
      ensures Contents() == Db([], 1, [], 1)
    {
      devices, nextDeviceId, points, nextPointId := [], 1, [], 1;
    }

    method GetDeviceByName(name: string) returns (device: Option<Device>)
      ensures device == DeviceNamed(devices, name)
      ensures device.Some? <==> HasDevice(devices, name)
      ensures device.Some? ==> device.value in devices && device.value.name == name
    {
      DeviceNamedFinds(devices, name);
      var i := 0;
      while i < |devices| && devices[i].name != name
        invariant i <= |devices| && DeviceNamed(devices, name) == DeviceNamed(devices[i..], name)
      {
        i := i + 1;
      }
      device := if i < |devices| then Some(devices[i]) else None;
    }

    /** The device's rows in the order of their ids, in which the table keeps them. */
    method GetDataPointsByDeviceName(name: string) returns (found: seq<DataPoint>)
      ensures found == PointsNamed(points, name) && (OrderedById(points) ==> OrderedById(found))
      ensures forall p :: p in found <==> p in points && p.deviceName == name
    {
      if OrderedById(points) { NamedInOrder(points, name); }
      PointsNamedMembers(points, name);
      found := [];
      var i := 0;
      while i < |points|
        invariant i <= |points| && PointsNamed(points, name) == found + PointsNamed(points[i..], name)
      {
        if points[i].deviceName == name { found := found + [points[i]]; }
        i := i + 1;
      }
    }

    method DeleteDataPointsByDeviceName(name: string)
      modifies this`points
      ensures points == WithoutPoints(old(points), name)
      ensures forall p :: p in points <==> p in old(points) && p.deviceName != name
      ensures OrderedById(old(points)) ==> OrderedById(points)
    {
      hide OrderedById;
      var kept: seq<DataPoint> := [];
      var i := 0;
      while i < |points|
        invariant i <= |points| && points == old(points)
        invariant WithoutPoints(points, name) == kept + WithoutPoints(points[i..], name)
      {
        if points[i].deviceName != name { kept := kept + [points[i]]; }
        i := i + 1;
      }
      WithoutPointsMembers(points, name);
      if OrderedById(points) { WithoutInOrder(points, name); }
      points := kept;
    }

    method CreateDevice(u: DeviceUpsert, fault: Fault) returns (r: Result)
      modifies this`devices, this`nextDeviceId
      ensures (Contents(), r) == Created(old(Contents()), u, fault)
      ensures r.Done? <==> (forall d | d in old(devices) :: d.name != u.name) && !(fault.FaultAt? && fault.at == 0)
      ensures r.Failed? ==> Contents() == old(Contents())
      ensures r.Failed? ==> r.error == if HasDevice(old(devices), u.name) then "device already exists: " + u.name
                                       else fault.message
      ensures r.Done? ==>
                && |devices| == |old(devices)| + 1 && devices[..|old(devices)|] == old(devices)
                && RowHolds(devices[|old(devices)|], u) && devices[|old(devices)|].id == old(nextDeviceId)
                && nextDeviceId == old(nextDeviceId) + 1
    {
      if HasDevice(devices, u.name) {
        return Failed("device already exists: " + u.name);
      }
      if Strikes(fault, 0) {
        return Failed(fault.message);
      }
      devices, nextDeviceId := devices + [Made(nextDeviceId, u)], nextDeviceId + 1;
      r := Done;
    }

    /** Each statement commits by itself, so a storage error leaves the earlier ones in place. */
    method UpdateDevice(u: DeviceUpsert, fault: Fault) returns (r: Result)
      modifies this`devices, this`points
      ensures (Contents(), r) == Updated(old(Contents()), u, fault)
      ensures var target := if u.oldName != "" then u.oldName else u.name;
              && (!HasDevice(old(devices), target) ==> r == Failed("device not found: " + target))
              && (HasDevice(old(devices), target) && u.name != target && HasDevice(old(devices), u.name) ==>
                    r == Failed("device already exists: " + u.name))
              && (r.Done? ==> UpdatesRows(old(Contents()), Contents(), u, target))
    {
      hide RenameClashes, UpdatesRows, RowHolds;
      DeviceNamedFinds(devices, Target(u));
      if Updated(Contents(), u, fault).1.Done? { UpdatedRows(Contents(), u, fault); }
      var target := if u.oldName != "" then u.oldName else u.name;
      var existing := GetDeviceByName(target);
      if existing.None? {
        return Failed("device not found: " + target);
      }
      if u.name != target && HasDevice(devices, u.name) {
        return Failed("device already exists: " + u.name);
      }
      if Strikes(fault, 0) {
        return Failed(fault.message);
      }
      devices := UpdatedDevices(devices, u, target);
      if u.name != target {
        if Strikes(fault, 1) {
          return Failed(fault.message);
        }
        if RenameClashes(points, target, u.name) {
          return Failed(CONSTRAINT);
        }
        points := RenamedPoints(points, target, u.name);
      }
      if existing.value.model != u.model || existing.value.modelVersion != u.modelVersion {
        if Strikes(fault, if u.name != target then 2 else 1) {
          return Failed(fault.message);
        }
        DeleteDataPointsByDeviceName(u.name);
      }
      r := Done;
    }

    /** One transaction; any storage error leaves everything as it was. */
    method DeleteDevice(name: string, fault: Fault) returns (r: Result)
      modifies this`devices, this`points
      ensures (Contents(), r) == Deleted(old(Contents()), name, fault)
      ensures r.Done? <==> (exists d :: d in old(devices) && d.name == name) && !(fault.FaultAt? && fault.at <= 2)
      ensures r.Failed? ==> r.error == if HasDevice(old(devices), name) then fault.message else "device not found: " + name
      ensures r.Done? ==>
                && (forall d :: d in devices <==> d in old(devices) && d.name != name)
                && (forall p :: p in points <==> p in old(points) && p.deviceName != name)
                && (OrderedById(old(points)) ==> OrderedById(points))
                && (DistinctDevices(old(devices), nextDeviceId) ==> DistinctDevices(devices, nextDeviceId))
      ensures r.Failed? ==> Contents() == old(Contents())
    {
      if Deleted(Contents(), name, fault).1.Done? { DeletedRows(Contents(), name, fault); }
      if !HasDevice(devices, name) {
        return Failed("device not found: " + name);
      }
      var savedDevices, savedPoints := devices, points;
      if Strikes(fault, 0) {
        return Failed(fault.message);
      }
      DeleteDataPointsByDeviceName(name);
      if Strikes(fault, 1) {
        points := savedPoints;
        return Failed(fault.message);
      }
      devices := RemovedDevices(devices, name);
      if Strikes(fault, 2) {
        devices, points := savedDevices, savedPoints;
        return Failed(fault.message);
      }
      r := Done;
    }

    /**
      All or nothing. A storage error can strike at the delete, at the insert of any row, or at the
      commit; without one, the replace succeeds exactly when the name paths are distinct.
     */
    method ReplaceDataPointsForDevice(device: Device, newPoints: seq<DataPoint>, fault: Fault) returns (r: Result)
      modifies this`points, this`nextPointId
      ensures (Contents(), r) == ReplacedOrNot(old(Contents()), device, newPoints, fault)
      ensures !(fault.FaultAt? && fault.at <= |newPoints| + 1) ==> (r.Done? <==> DistinctPaths(newPoints))
      ensures r.Failed? ==> Contents() == old(Contents())
      ensures fault.NoFault? && r.Failed? ==>
                r.error == "UNIQUE constraint failed: DataPoint.DName, DataPoint.NamePath"
      ensures r.Done? ==> ReplacesRows(old(points), points, device, newPoints, old(nextPointId))
      ensures r.Done? ==> nextPointId == old(nextPointId) + |newPoints|
    {
      hide FirstClash, ReplacesRows, OrderedById, WithoutPoints, EndsInRows;
      ReplaceMeaning(newPoints, fault);
      var savedPoints, savedNext := points, nextPointId;
      if Strikes(fault, 0) {
        return Failed(fault.message);
      }
      DeleteDataPointsByDeviceName(device.name);
      ghost var kept := points;
      var i := 0;
      while i < |newPoints|
        invariant i <= FirstClash(newPoints, 0) && !(fault.FaultAt? && fault.at <= i)
        invariant points == kept + RowsFor(device, savedNext, newPoints[..i]) && nextPointId == savedNext + i
      {
        TakenExactly(kept, device, savedNext, newPoints, i);
        if Strikes(fault, 1 + i) {
          points, nextPointId := savedPoints, savedNext;
          return Failed(fault.message);
        }
        if Taken(points, device.name, newPoints[i].namePath) {
          points, nextPointId := savedPoints, savedNext;
          return Failed(CONSTRAINT);
        }
        points, nextPointId := points + [RowFor(device, nextPointId, newPoints[i])], nextPointId + 1;
        i := i + 1;
        assert newPoints[..i] == newPoints[..i - 1] + [newPoints[i - 1]];
      }
      assert newPoints[..i] == newPoints;
      if Strikes(fault, 1 + i) {
        points, nextPointId := savedPoints, savedNext;
        return Failed(fault.message);
      }
      ReplacedRows(old(Contents()), device, newPoints);
      r := Done;
    }
  }
}
