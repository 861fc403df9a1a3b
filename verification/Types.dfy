/** Values shared by the acquisition side and the upload side of the gateway. */
module Types {

  datatype Option<+T> = None | Some(value: T)

  /** One octet of a buffer. */
  type byte = n: nat | n < 256

  predicate OccursAt<T(==)>(s: seq<T>, part: seq<T>, i: int) {
    0 <= i <= |s| - |part| && s[i..i + |part|] == part
  }

  /** What strstr looks for. */
  predicate Occurs<T(==)>(s: seq<T>, part: seq<T>) {
    exists i :: 0 <= i <= |s| && OccursAt(s, part, i)
  }

  /** The outcome of reading one sensor. */
  datatype DataCode =
    | Ok
    | BleConnTimeout
    | BleReadErr
    | BleWriteErr
    | BleInternalCmdNoResponse
    | BleInternalAddrError
    | Rs485Tsys01NoResponse
    | Rs485Tsys01ReadErr
    | Rs485Tsys01WriteErr
    | Rs485Tsys01AddressVerifyErr
    | UnknownProbeDefinition

  /** A sensor value: a plain number, or the four raw octets of an IEEE-754 float, never interpreted here. */
  datatype Value = Number(r: real) | Float32(octets: seq<byte>)

  const ERROR_DATA_VALUE := Number(999.0)

  /** A data point on its way from a sensor to the cloud. */
  datatype Reading = Reading(id: seq<byte>, data: Value, code: DataCode, timestamp: int)
}
