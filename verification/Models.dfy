/** The records that travel between the parts of the service. */
module Models {
  datatype Option<+T> = None | Some(value: T) {
    function GetOr(default: T): T {
      if Some? then value else default
    }
  }

  datatype Device = Device(
    id: nat,
    name: string,
    ip: string,
    port: int,
    sampleIntervalMs: int,
    status: int,
    model: string,
    modelVersion: string,
    driverPath: string)

  datatype DeviceUpsert = DeviceUpsert(
    oldName: string,
    name: string,
    ip: string,
    port: int,
    sampleIntervalMs: int,
    status: int,
    model: string,
    modelVersion: string,
    driverPath: string)

  datatype DataPoint = DataPoint(
    id: nat,
    deviceId: nat,
    deviceName: string,
    namePath: string,
    itemPath: string,
    itemName: string,
    itemDescription: string)

  /** Times are ordered values; floating-point rounding is not modelled. */
  datatype ResourceRecord = ResourceRecord(
    deviceName: string,
    dataItemNamePath: string,
    data: string,
    devTime: real,
    svrTime: real,
    dataItemPath: string,
    dataItemName: string,
    dataItemDescription: string)

  datatype DeviceStatus = DeviceStatus(
    deviceName: string,
    connected: bool,
    machineConnected: bool,
    failCount: nat,
    lastSuccessTime: real,
    error: string)

  datatype CommandResult = CommandResult(code: int, msg: string, mid: string) {
    predicate Ok() { code == 200 }
  }
}
