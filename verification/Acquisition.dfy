/** One acquisition round over the sensors of a module. */
module Acquisition {
  import opened Types
  import opened AttServer
  import opened Link
  import opened CoreModules
  import opened Discovery
  import opened Exchange
  import opened Codec

  const PROBE_TSYS01: seq<byte> := [0x30, 0x32]
  const PROBE_12CH: seq<byte> := [0x30, 0x33]
  const READ_OK: byte := 0x41

  type packet = p: seq<byte> | |p| == MAX_BLE_PACKET_LEN witness Zeros(MAX_BLE_PACKET_LEN)

  /** What a round works on: the module, its link, and the response buffer, which outlives every exchange. */
  datatype World = World(found: Gatt, sen: seq<Sensor>, link: LinkState, resp: packet)

  /** The response laid over the buffer: octets beyond a short response are those of earlier ones. */
  function Overlay(payload: seq<byte>, resp: packet): packet
    requires |payload| <= MAX_BLE_PACKET_LEN
  {
    payload + resp[|payload|..]
  }

  /** The probe's answer, of which the length is never looked at. */
  function Decoded(sen: Sensor, resp: packet): Sensor {
    if resp[2] == READ_OK then sen.(data := Float32(resp[9..13]), code := Ok)
    else sen.(data := ERROR_DATA_VALUE, code := Rs485Tsys01NoResponse)
  }

  function ReadProbe(peer: Peer, w: World, i: nat): World
    requires i < |w.sen|
  {
    var sen := w.sen[i];
    var e := Send(peer, w.link, Frame(sen.addr), w.found.readHandle, w.found.writeHandle);
    if e.code != Ok then w.(sen := w.sen[i := sen.(data := ERROR_DATA_VALUE, code := e.code)], link := e.link)
    else
      var resp := Overlay(e.payload, w.resp);
      w.(sen := w.sen[i := Decoded(sen, resp)], link := e.link, resp := resp)
  }

  /** Discovery is tried again before a sensor only while nothing at all has been found. */
  function Searched(peer: Peer, w: World): World {
    if w.found.discovered == 0 then
      var r := Discover(peer, w.link, w.found, 1);
      w.(found := r.found, link := r.link)
    else w
  }

  /** The turn of the i-th sensor. */
  function Turn(peer: Peer, before: World, i: nat): (after: World)
    requires i < |before.sen|
    ensures |after.sen| == |before.sen|
  {
    var w := Searched(peer, before);
    if w.found.discovered != 2 then w
    else if w.sen[i].addr[..2] == PROBE_TSYS01 then ReadProbe(peer, w, i)
    else if w.sen[i].addr[..2] == PROBE_12CH then w
    else w.(sen := w.sen[i := w.sen[i].(data := ERROR_DATA_VALUE, code := UnknownProbeDefinition)])
  }

  /** The world after `k` steps, of which the i-th is `step(_, i)`. */
  function Steps(step: (World, nat) -> World, w: World, k: nat): World {
    if k == 0 then w else step(Steps(step, w, k - 1), k - 1)
  }

  function Turns(peer: Peer): (World, nat) -> World {
    (w: World, i: nat) => if i < |w.sen| then Turn(peer, w, i) else w
  }

  /** The world after the turns of the first `k` sensors. */
  function After(peer: Peer, w: World, k: nat): World {
    Steps(Turns(peer), w, k)
  }

  function TimedOut(sen: seq<Sensor>): (r: seq<Sensor>)
    ensures |r| == |sen|
    ensures forall i :: 0 <= i < |r| ==> r[i] == sen[i].(data := ERROR_DATA_VALUE, code := BleConnTimeout)
  {
    seq(|sen|, i requires 0 <= i < |sen| => sen[i].(data := ERROR_DATA_VALUE, code := BleConnTimeout))
  }

  function SetOpen(w: World, open: bool): World {
    w.(link := w.link.(open := open))
  }

  /** A whole round: every sensor has its turn if the module could be connected. */
  function Round(peer: Peer, w: World, connected: bool): World {
    if connected then SetOpen(After(peer, SetOpen(w, true), |w.sen|), false)
    else SetOpen(w.(sen := TimedOut(w.sen)), false)
  }

  // ---------- The program ----------

  ghost function WorldOf(cm: CoreModule, sock: Socket, resp: array<byte>): World
    requires resp.Length == MAX_BLE_PACKET_LEN
    reads cm, sock, resp
  {
    World(cm.Found(), cm.sen, sock.state, resp[..])
  }

  method ProcessBleRespTempProbe(sen: Sensor, bleResp: array<byte>) returns (code: DataCode, data: Value)
    requires bleResp.Length == MAX_BLE_PACKET_LEN
    ensures code in {Ok, Rs485Tsys01NoResponse}
    ensures code == Ok ==> Decoded(sen, bleResp[..]) == sen.(data := data, code := Ok)
    ensures code != Ok ==> Decoded(sen, bleResp[..]) == sen.(data := ERROR_DATA_VALUE, code := code) && data == sen.data
  {
    if bleResp[2] == 0x41 {
      return Ok, Float32(bleResp[9..9 + 4]);
    } else {
      return Rs485Tsys01NoResponse, sen.data;
    }
  }

  method ReadTsys01(cm: CoreModule, sock: Socket, i: nat, bleCmd: array<byte>, bleResp: array<byte>)
    requires i < |cm.sen| && bleCmd.Length == bleResp.Length == MAX_BLE_PACKET_LEN && bleCmd != bleResp
    modifies cm`sen, sock, bleCmd, bleResp
    ensures WorldOf(cm, sock, bleResp) == ReadProbe(sock.peer, old(WorldOf(cm, sock, bleResp)), i)
  {
    ghost var w := WorldOf(cm, sock, bleResp);
    var cmdLength := GetBleCmdTempProbe(cm.sen[i].addr, bleCmd);
    var code, respLength := SendBleCmdWithResponse(bleCmd[..cmdLength], bleResp, cm, sock);
    var sen := cm.sen[i].(code := code);
    if sen.code == Ok {
      var decoded, data := ProcessBleRespTempProbe(sen, bleResp);
      sen := sen.(code := decoded, data := data);
    }
    if sen.code != Ok {
      sen := sen.(data := ERROR_DATA_VALUE);
    }
    cm.sen := cm.sen[i := sen];
  }

  method MarkTimedOut(cm: CoreModule)
    modifies cm`sen
    ensures cm.sen == TimedOut(old(cm.sen))
  {
    ghost var sen := cm.sen;
    var i := 0;
    while i < |cm.sen|
      invariant |cm.sen| == |sen| && i <= |sen|
      invariant forall j :: 0 <= j < |sen| ==> cm.sen[j] == if j < i then TimedOut(sen)[j] else sen[j]
    {
      cm.sen := cm.sen[i := cm.sen[i].(data := ERROR_DATA_VALUE, code := BleConnTimeout)];
      i := i + 1;
    }
  }

  /** `connected` is the outcome of connecting; the round then does what Round says, whatever the link does. */
  method BleDataAcq(cm: CoreModule, sock: Socket, connected: bool, bleCmd: array<byte>, bleResp: array<byte>)
    returns (rc: int)
    requires bleCmd.Length == bleResp.Length == MAX_BLE_PACKET_LEN && bleCmd != bleResp
    modifies cm, sock, bleCmd, bleResp
    ensures WorldOf(cm, sock, bleResp) == Round(sock.peer, old(WorldOf(cm, sock, bleResp)), connected)
    ensures rc == if connected then 0 else -1
  {
    hide Turn;
    ghost var w := WorldOf(cm, sock, bleResp);
    if connected {
      sock.state := sock.state.(open := true);
      var i := 0;
      while i < |cm.sen|
        invariant |cm.sen| == |w.sen| && i <= |w.sen|
        invariant WorldOf(cm, sock, bleResp) == After(sock.peer, SetOpen(w, true), i)
      {
        SensorTurn(cm, sock, i, bleCmd, bleResp);
        i := i + 1;
      }
    } else {
      MarkTimedOut(cm);
      sock.Close();
      return -1;
    }
    sock.Close();
    rc := 0;
  }

  method SensorTurn(cm: CoreModule, sock: Socket, i: nat, bleCmd: array<byte>, bleResp: array<byte>)
    requires i < |cm.sen| && bleCmd.Length == bleResp.Length == MAX_BLE_PACKET_LEN && bleCmd != bleResp
    modifies cm, sock, bleCmd, bleResp
    ensures WorldOf(cm, sock, bleResp) == Turn(sock.peer, old(WorldOf(cm, sock, bleResp)), i)
  {
    if cm.discovered == 0 {
      var code := DicoverChar(cm, sock);
    }
    if cm.discovered == 2 {
      if cm.sen[i].addr[..2] == PROBE_TSYS01 {
        ReadTsys01(cm, sock, i, bleCmd, bleResp);
      } else if cm.sen[i].addr[..2] == PROBE_12CH {
      } else {
        cm.sen := cm.sen[i := cm.sen[i].(data := ERROR_DATA_VALUE, code := UnknownProbeDefinition)];
      }
    }
  }
}
