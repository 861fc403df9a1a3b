/** A core module: the sensors behind one BLE address, and the handles found on it. */
module CoreModules {
  import opened Types
  import opened AttServer

  const MAX_SENSOR_ADDR: nat := 6

  type address = a: seq<byte> | |a| == MAX_SENSOR_ADDR witness [0, 0, 0, 0, 0, 0]

  datatype Sensor = Sensor(addr: address, data: Value, code: DataCode)

  /** What discovery has found so far; `discovered` counts the characteristics recognised. */
  datatype Gatt = Gatt(readHandle: handle, writeHandle: handle, discovered: nat)

  class CoreModule {
    var sen: seq<Sensor>
    var readHandle: handle
    var writeHandle: handle
    var discovered: nat

    /** A module as the configuration loader leaves it: everything but the addresses is zero. */
    constructor (addrs: seq<address>)
      ensures |sen| == |addrs|
      ensures forall i :: 0 <= i < |addrs| ==> sen[i] == Sensor(addrs[i], Number(0.0), Ok)
      ensures Found() == Gatt(0, 0, 0)
    {
      sen := seq(|addrs|, i requires 0 <= i < |addrs| => Sensor(addrs[i], Number(0.0), Ok));
      readHandle, writeHandle, discovered := 0, 0, 0;
    }

    function Found(): Gatt
      reads this
    {
      Gatt(readHandle, writeHandle, discovered)
    }
  }
}
