/** The command handlers, sequencing the store's operations and filling in the reply. */
module CommandProcessing {
  import opened Models
  import opened Strings
  import opened ModelParser
  import opened DeviceStore

  function Reply(r: Result, msg: string, mid: string): CommandResult {
    match r
    case Done => CommandResult(200, msg, mid)
    case Failed(error) => CommandResult(500, error, mid)
  }

  /** A reply that reports an error over unchanged tables. */
  ghost predicate Refuses(before: Db, after: Db, result: CommandResult, error: string, mid: string) {
    after == before && result == CommandResult(500, error, mid)
  }

  /** The text a device's points are parsed from: its model field itself, or the file of its model and version. */
  ghost predicate IsModelText(texts: Texts, device: Device, text: string) {
    || (Contains(device.model, "DataItem:") && text == device.model)
    || (!Contains(device.model, "DataItem:") && (device.model, device.modelVersion) in texts
        && text == texts[(device.model, device.modelVersion)])
  }

  /** A model that is empty, that is not found, or that has no items is refused with its own text. */
  ghost predicate RefusesModel(before: Db, after: Db, texts: Texts, device: Device, result: CommandResult, mid: string) {
    && (device.model == "" ==> Refuses(before, after, result, "model is empty", mid))
    && ((device.model != "" && forall text :: !IsModelText(texts, device, text)) ==>
          Refuses(before, after, result, "model definition not found: " + device.model, mid))
    && forall text | device.model != "" && IsModelText(texts, device, text) && Parse(device, text) == [] ::
         Refuses(before, after, result, "model has no DataItem: " + device.model, mid)
  }

  /** The device's rows are replaced by those that its model text yields, of which there is at least one. */
  ghost predicate Initializes(before: Db, after: Db, texts: Texts, device: Device, text: string) {
    && IsModelText(texts, device, text) && Parse(device, text) != []
    && after.devices == before.devices && after.nextDeviceId == before.nextDeviceId
    && ReplacesRows(before.points, after.points, device, Parse(device, text), before.nextPointId)
  }

  lemma InitializedHasPoints(before: Db, after: Db, texts: Texts, device: Device, text: string)
    requires Initializes(before, after, texts, device, text)
    ensures exists p :: p in after.points && p.deviceName == device.name
  {
    var k := |after.points| - |Parse(device, text)|;
    var first := Parse(device, text)[0];
    assert after.points[k].namePath == first.namePath && after.points[k] in after.points;
  }

  /** The target's row holds the new fields; a status that is not given is the one from before. */
  ghost predicate RowsUpdated(before: seq<Device>, after: seq<Device>, u: DeviceUpsert, statusGiven: bool) {
    var target := if u.oldName != "" then u.oldName else u.name;
    && |after| == |before|
    && exists was :: was in before && was.name == target
         && forall i | 0 <= i < |before| ::
              if before[i].name == target
              then after[i].id == before[i].id
                   && RowHolds(after[i], if statusGiven then u else u.(status := was.status))
              else after[i] == before[i]
  }

  lemma RowsUpdatedBy(before: Db, after: Db, u: DeviceUpsert, statusGiven: bool, existing: Device)
    requires existing in before.devices && existing.name == (if u.oldName != "" then u.oldName else u.name)
    requires UpdatesRows(before, after, if statusGiven then u else u.(status := existing.status), existing.name)
    ensures RowsUpdated(before.devices, after.devices, u, statusGiven)
  {
  }

  class CommandProcessor {
    const db: SQLiteManager
    const texts: Texts

    constructor (db: SQLiteManager, texts: Texts)
      ensures this.db == db && this.texts == texts
    {
      this.db, this.texts := db, texts;
    }

    method InitDataPointsByDevice(name: string, mid: string, fault: Fault) returns (result: CommandResult)
      modifies db
      ensures var (after, r) := Initialized(old(db.Contents()), texts, name, fault);
              db.Contents() == after && result == Reply(r, "DataPoint initialized for device: " + name, mid)
      ensures DeviceNamed(old(db.devices), name).None? ==>
                Refuses(old(db.Contents()), db.Contents(), result, "device not found: " + name, mid)
      ensures DeviceNamed(old(db.devices), name).Some? ==>
                RefusesModel(old(db.Contents()), db.Contents(), texts, DeviceNamed(old(db.devices), name).value, result, mid)
      ensures db.devices == old(db.devices) && db.nextDeviceId == old(db.nextDeviceId)
      ensures result.Ok() || (result.code == 500 && result.mid == mid && db.Contents() == old(db.Contents()))
      ensures result.Ok() ==>
                && result.msg == "DataPoint initialized for device: " + name && DeviceNamed(db.devices, name).Some?
                && exists text :: Initializes(old(db.Contents()), db.Contents(), texts,
                                              DeviceNamed(db.devices, name).value, text)
    {
      var found := db.GetDeviceByName(name);
      if found.None? {
        return CommandResult(500, "device not found: " + name, mid);
      }
      var device := found.value;
      var text := LoadModelText(texts, device.model, device.modelVersion);
      if text.None? {
        return CommandResult(
            500, if device.model == "" then "model is empty" else "model definition not found: " + device.model, mid);
      }
      assert IsModelText(texts, device, text.value);
      var points := ParseDataItems(device, text.value);
      if points == [] {
        return CommandResult(500, "model has no DataItem: " + device.model, mid);
      }
      var r := db.ReplaceDataPointsForDevice(device, points, fault);
      if r.Failed? {
        return CommandResult(500, r.error, mid);
      }
      assert Initializes(old(db.Contents()), db.Contents(), texts, device, text.value);
      result := CommandResult(200, "DataPoint initialized for device: " + name, mid);
    }

    method HandleCreateDevice(u: DeviceUpsert, mid: string, fault: Fault) returns (result: CommandResult)
      modifies db
      ensures var (after, r) := Executed(old(db.Contents()), texts, Create(u), fault);
              db.Contents() == after && result == Reply(r, "device created: " + u.name, mid)
      ensures result.mid == mid
      ensures u.name == "" ==> Refuses(old(db.Contents()), db.Contents(), result, "device_name is empty", mid)
      ensures u.name != "" && u.model == "" ==> Refuses(old(db.Contents()), db.Contents(), result, "model is empty", mid)
      ensures u.name != "" && u.model != "" && HasDevice(old(db.devices), u.name) ==>
                Refuses(old(db.Contents()), db.Contents(), result, "device already exists: " + u.name, mid)
      ensures u.name != "" && u.model != "" && !HasDevice(old(db.devices), u.name) && !Strikes(fault, 0) ==>
                && |db.devices| == |old(db.devices)| + 1 && db.devices[..|old(db.devices)|] == old(db.devices)
                && RowHolds(db.devices[|old(db.devices)|], u) && db.devices[|old(db.devices)|].id == old(db.nextDeviceId)
      ensures result.Ok() ==>
                && result.msg == "device created: " + u.name
                && exists p :: p in db.points && p.deviceName == u.name
    {
      hide Initialized, Initializes, RowHolds, DeviceNamed, RefusesModel;
      if u.name == "" {
        return CommandResult(500, "device_name is empty", mid);
      }
      if u.model == "" {
        return CommandResult(500, "model is empty", mid);
      }
      if HasDevice(db.devices, u.name) {
        return CommandResult(500, "device already exists: " + u.name, mid);
      }
      var created := db.CreateDevice(u, fault);
      if created.Failed? {
        return CommandResult(500, created.error, mid);
      }
      ghost var made := db.Contents();
      var init := InitDataPointsByDevice(u.name, mid, Later(fault, 1));
      if !init.Ok() {
        return init;
      }
      ghost var device := DeviceNamed(db.devices, u.name).value;
      DeviceNamedFinds(db.devices, u.name);
      ghost var text :| Initializes(made, db.Contents(), texts, device, text);
      InitializedHasPoints(made, db.Contents(), texts, device, text);
      result := CommandResult(200, "device created: " + u.name, mid);
    }

    method HandleDeleteDevice(name: string, mid: string, fault: Fault) returns (result: CommandResult)
      modifies db
      ensures var (after, r) := Executed(old(db.Contents()), texts, Delete(name), fault);
              db.Contents() == after && result == Reply(r, "device deleted: " + name, mid)
      ensures !HasDevice(old(db.devices), name) ==>
                Refuses(old(db.Contents()), db.Contents(), result, "device not found: " + name, mid)
      ensures HasDevice(old(db.devices), name) && fault.NoFault? ==>
                result == CommandResult(200, "device deleted: " + name, mid)
      ensures result.Ok() ==> !HasDevice(db.devices, name) && forall p | p in db.points :: p.deviceName != name
    {
      if !HasDevice(db.devices, name) {
        return CommandResult(500, "device not found: " + name, mid);
      }
      var r := db.DeleteDevice(name, fault);
      if r.Failed? {
        return CommandResult(500, r.error, mid);
      }
      result := CommandResult(200, "device deleted: " + name, mid);
    }

    method HandleUpdateDevice(u: DeviceUpsert, statusGiven: bool, mid: string, fault: Fault)
      returns (result: CommandResult)
      modifies db
      ensures var (after, r) := Executed(old(db.Contents()), texts, Update(u, statusGiven), fault);
              db.Contents() == after && result == Reply(r, "device updated: " + u.name, mid)
      ensures result.mid == mid
      ensures u.name == "" ==> Refuses(old(db.Contents()), db.Contents(), result, "device_name is empty", mid)
      ensures u.name != "" && u.model == "" ==> Refuses(old(db.Contents()), db.Contents(), result, "model is empty", mid)
      ensures u.name != "" && u.model != "" && !HasDevice(old(db.devices), if u.oldName != "" then u.oldName else u.name)
              ==> Refuses(old(db.Contents()), db.Contents(), result, "device not found: " + u.name, mid)
      ensures result.Ok() ==>
                result.msg == "device updated: " + u.name
                && RowsUpdated(old(db.devices), db.devices, u, statusGiven)
      ensures var target := if u.oldName != "" then u.oldName else u.name;
              var before := DeviceNamed(old(db.devices), target);
              (result.Ok() && before.Some?
               && (before.value.model != u.model || before.value.modelVersion != u.modelVersion))
              ==> DeviceNamed(db.devices, u.name).Some?
                  && exists updated, text :: Initializes(updated, db.Contents(), texts,
                                                         DeviceNamed(db.devices, u.name).value, text)
    {
      hide Updated, Initialized, DeviceNamed, HasDevice, UpdatesRows, RowsUpdated, Initializes, RowHolds, RefusesModel;
      hide Prepared, Created, Deleted, IsModelText, Parse, DropAt, Later, OrderedById;
      if u.name == "" {
        return CommandResult(500, "device_name is empty", mid);
      }
      if u.model == "" {
        return CommandResult(500, "model is empty", mid);
      }
      var before := db.GetDeviceByName(if u.oldName == "" then u.name else u.oldName);
      if before.None? {
        return CommandResult(500, "device not found: " + u.name, mid);
      }
      var v := u;
      if !statusGiven {
        v := v.(status := before.value.status);
      }
      var r := db.UpdateDevice(v, fault);
      if r.Failed? {
        return CommandResult(500, r.error, mid);
      }
      RowsUpdatedBy(old(db.Contents()), db.Contents(), u, statusGiven, before.value);
      if before.value.model != v.model || before.value.modelVersion != v.modelVersion {
        var init := InitDataPointsByDevice(v.name, mid, Later(fault, DropAt(v) + 1));
        if !init.Ok() {
          return init;
        }
      }
      result := CommandResult(200, "device updated: " + u.name, mid);
    }

    lemma PreparedOrNot(before: Db, name: string, fault: Fault)
      ensures var (after, r) := Prepared(before, texts, name, fault); r.Done? ==> PointsNamed(after.points, name) != []
    {
      if Prepared(before, texts, name, fault).1.Done? { PreparedHasPoints(before, texts, name, fault); }
    }

    /** The database half of startDeviceCollect; ready tells whether it goes on to the running check. */
    method PrepareStart(name: string, fault: Fault) returns (ready: bool, error: string)
      modifies db
      ensures var (after, r) := Executed(old(db.Contents()), texts, Start(name), fault);
              db.Contents() == after && (ready <==> r.Done?) && (r.Failed? ==> error == r.error)
      ensures ready ==> PointsNamed(db.points, name) != []
      ensures DeviceNamed(old(db.devices), name).None? ==> !ready && error == "device not found: " + name
      ensures DeviceNamed(old(db.devices), name).Some? && DeviceNamed(old(db.devices), name).value.status == 0 ==>
                !ready && error == "device is offline: " + name && db.Contents() == old(db.Contents())
      ensures (DeviceNamed(old(db.devices), name).Some? && DeviceNamed(old(db.devices), name).value.status != 0
               && PointsNamed(old(db.points), name) != []) ==> ready && db.Contents() == old(db.Contents())
      ensures db.devices == old(db.devices)
    {
      hide RefusesModel, Initializes;
      PreparedOrNot(db.Contents(), name, fault);
      ready, error := false, "";
      var found := db.GetDeviceByName(name);
      if found.None? {
        return false, "device not found: " + name;
      }
      if found.value.status == 0 {
        return false, "device is offline: " + name;
      }
      var points := db.GetDataPointsByDeviceName(name);
      if points == [] {
        var init := InitDataPointsByDevice(name, "", fault);
        if !init.Ok() {
          return false, init.msg;
        }
        points := db.GetDataPointsByDeviceName(name);
      }
      if points == [] {
        return false, "device has no configured data points: " + name;
      }
      ready := true;
    }
  }
}
