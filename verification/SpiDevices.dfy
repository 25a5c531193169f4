/**
 The SPI device object: pin lookup, pairing with a remote, and the data side of a transfer. The
 methods here run without interleaving; the SpiProtocol module has the threads.
 */
module SpiDevices {
  import opened Board
  import opened Pins
  import opened SpiProtocol

  type Buffer = array<bv8>
  type Buffer? = array?<bv8>

  // dst after a memcpy of n bytes from src.
  function Overlay(dst: seq<bv8>, src: seq<bv8>, n: nat): seq<bv8>
    requires n <= |src| && n <= |dst|
  {
    src[..n] + dst[n..]
  }

  method Memcpy(dst: Buffer, src: Buffer, n: nat)
    requires n <= src.Length && n <= dst.Length && dst != src
    modifies dst
    ensures dst[..] == Overlay(old(dst[..]), old(src[..]), n)
  {
    for k := 0 to n
      invariant forall i :: 0 <= i < k ==> dst[i] == old(src[i])
      invariant forall i :: k <= i < dst.Length ==> dst[i] == old(dst[i])
    {
      dst[k] := src[k];
    }
  }

  class SpiDevice {
    const spiIndex: nat
    const isMaster: bool
    const mosi: Pin
    const miso: Pin
    const clk: Pin
    const csn: Pin
    const irq: HwIrq
    const controller: IrqController
    var remote: SpiDevice?
    var currentRx: Buffer?
    var currentTx: Buffer?
    var currentXferSize: nat
    var isListening: bool
    // 0 is the null function pointer
    var slaveCallback: nat
    var slaveCallbackCtx: nat

    constructor (controller: IrqController, spiIndex: nat, isMaster: bool,
                 mosi: nat, miso: nat, clk: nat, csn: nat, ghost side: Side)
      ensures this.spiIndex == spiIndex && this.isMaster == isMaster && this.controller == controller
      ensures fresh(this.mosi) && fresh(this.miso) && fresh(this.clk) && fresh(this.csn)
      ensures fresh(irq) && !irq.isEnabled
      ensures this.mosi.pinIdx == mosi && this.miso.pinIdx == miso && this.clk.pinIdx == clk && this.csn.pinIdx == csn
      ensures forall p :: p in PinList() ==> p.side == side && p.spi && p.controller == null && p.connected == [] && !p.level
      ensures NoDup(PinList())
      ensures currentRx == null && currentTx == null && currentXferSize == 0 && !isListening
      ensures slaveCallback == 0 && slaveCallbackCtx == 0
    {
      this.controller, this.spiIndex, this.isMaster := controller, spiIndex, isMaster;
      this.mosi := new Pin.Gpio(mosi, side, true);
      this.miso := new Pin.Gpio(miso, side, true);
      this.clk := new Pin.Gpio(clk, side, true);
      this.csn := new Pin.Gpio(csn, side, true);
      irq := new HwIrq();
      currentRx, currentTx, currentXferSize, isListening := null, null, 0, false;
      slaveCallback, slaveCallbackCtx := 0, 0;
    }

    ghost function PinList(): seq<Pin> { [mosi, miso, clk, csn] }

    function GetPin(pinIdx: nat): (p: Pin?)
      ensures p != null ==> p in PinList() && p.pinIdx == pinIdx
      ensures p == null ==> forall q :: q in PinList() ==> q.pinIdx != pinIdx
    {
      if mosi.pinIdx == pinIdx then mosi
      else if miso.pinIdx == pinIdx then miso
      else if clk.pinIdx == pinIdx then clk
      else if csn.pinIdx == pinIdx then csn
      else null
    }

    // Both devices' data and clock pins are connected, as far as this side's pins know.
    predicate WiredTo(other: SpiDevice)
      reads mosi, miso, clk
    {
      other.mosi in mosi.connected && other.miso in miso.connected && other.clk in clk.connected
    }

    method SetRemote(other: SpiDevice) returns (ok: bool)
      modifies this`remote
      ensures ok == WiredTo(other)
      ensures remote == (if ok then other else old(remote))
    {
      var k := mosi.Find(other.mosi);
      if k == |mosi.connected| {
        assert mosi.connected[..k] == mosi.connected;
        return false;
      }
      k := miso.Find(other.miso);
      if k == |miso.connected| {
        assert miso.connected[..k] == miso.connected;
        return false;
      }
      k := clk.Find(other.clk);
      if k == |clk.connected| {
        assert clk.connected[..k] == clk.connected;
        return false;
      }
      remote := other;
      return true;
    }

    // ---------------------------------------------------------------- transfers

    // The bytes that a transfer of the given request moves.
    function Count(size: nat): nat
      reads this
    {
      Min(size, currentXferSize)
    }

    // What memcpy needs: the buffers of a copy that takes place are not null, hold the bytes to be
    // moved and do not overlap. Other buffers may be null or shared: the slave may use one buffer
    // for both directions, and so may the master.
    ghost predicate CanExchange(txbuf: Buffer?, rxbuf: Buffer?, size: nat)
      reads this
    {
      var n := Count(size);
      && (n > 0 && currentTx != null ==>
            rxbuf != null && n <= currentTx.Length && n <= rxbuf.Length && currentTx != rxbuf)
      && (n > 0 && currentRx != null ==>
            txbuf != null && n <= currentRx.Length && n <= txbuf.Length && currentRx != txbuf)
    }

    // What a transfer leaves in the master's rx buffer, unless it is the slave's too.
    ghost function MasterGets(txbuf: Buffer?, rxbuf: Buffer, size: nat): seq<bv8>
      requires CanExchange(txbuf, rxbuf, size)
      reads this, rxbuf, if currentTx == null then {} else {currentTx}
    {
      MasterReceives(rxbuf[..], Bytes(currentTx), currentTx != null, Count(size))
    }

    // What a transfer leaves in the slave's rx buffer.
    ghost function SlaveGets(txbuf: Buffer?, rxbuf: Buffer?, size: nat): seq<bv8>
      requires CanExchange(txbuf, rxbuf, size) && currentRx != null
      reads this, currentRx, if txbuf == null then {} else {txbuf}
      reads if rxbuf == null then {} else {rxbuf}, if currentTx == null then {} else {currentTx}
    {
      SlaveReceives(currentRx[..], Bytes(txbuf), Bytes(rxbuf), Bytes(currentTx), currentTx != null,
                    txbuf == rxbuf, Count(size))
    }

    // The exchange took place with this device as the slave: see FullDuplex for the data. Its post
    // is completed, and its interrupt is raised if it is enabled.
    twostate predicate Exchanged(txbuf: Buffer?, rxbuf: Buffer?, slaveRx: Buffer?, size: nat)
      requires old(CanExchange(txbuf, rxbuf, size)) && slaveRx == old(currentRx)
      reads this, irq, controller, if rxbuf != null then {rxbuf} else {}, if slaveRx != null then {slaveRx} else {}
    {
      && (rxbuf != null && rxbuf != slaveRx ==> rxbuf[..] == old(MasterGets(txbuf, rxbuf, size)))
      && (slaveRx != null ==> slaveRx[..] == old(SlaveGets(txbuf, rxbuf, size)))
      && currentRx == null && currentTx == null && !isListening && currentXferSize == old(Count(size))
      && controller.raised == old(controller.raised) + (if irq.isEnabled then [OfDevice(irq)] else [])
    }

    // xmit_locked, on the slave's object.
    method XmitLocked(txbuf: Buffer?, rxbuf: Buffer?, size: nat)
      requires CanExchange(txbuf, rxbuf, size) && controller.Valid()
      modifies this`currentRx, this`currentTx, this`currentXferSize, this`isListening
      modifies if rxbuf != null then {rxbuf} else {}, if currentRx != null then {currentRx} else {}
      modifies controller`pending, controller`signals, controller`raised
      ensures Exchanged(txbuf, rxbuf, old(currentRx), size) && controller.Valid()
      ensures currentXferSize == (if size <= old(currentXferSize) then size else old(currentXferSize))
    {
      var n := Min(size, currentXferSize);
      if n > 0 && currentTx != null {
        Memcpy(rxbuf, currentTx, n);
      }
      assert n == 0 ==> forall d: seq<bv8>, s: seq<bv8> :: Overlay(d, s, 0) == d;
      if n > 0 && currentRx != null {
        Memcpy(currentRx, txbuf, n);
      }
      currentRx := null;
      currentTx := null;
      currentXferSize := n;
      isListening := false;
      controller.LocalRaise(OfDevice(irq));
    }

    // The fields that a transfer or a post writes.
    ghost function Post(): (Buffer?, Buffer?, nat, bool, nat, nat)
      reads this
    {
      (currentRx, currentTx, currentXferSize, isListening, slaveCallback, slaveCallbackCtx)
    }

    // sync_xfer on a master. It returns the requested size, whatever was moved: everything if the
    // remote is listening, and nothing otherwise.
    method MasterSyncXfer(txbuf: Buffer?, rxbuf: Buffer?, size: nat) returns (rc: int)
      requires isMaster && remote != null && remote != this && remote.controller.Valid()
      requires remote.isListening ==> remote.CanExchange(txbuf, rxbuf, size)
      modifies this`currentRx, this`currentTx
      modifies remote`currentRx, remote`currentTx, remote`currentXferSize, remote`isListening
      modifies if remote.isListening && rxbuf != null then {rxbuf} else {}
      modifies if remote.isListening && remote.currentRx != null then {remote.currentRx} else {}
      modifies remote.controller`pending, remote.controller`signals, remote.controller`raised
      ensures rc == ToInt(size)
      ensures currentRx == null && currentTx == null && remote.controller.Valid()
      ensures if old(remote.isListening) then remote.Exchanged(txbuf, rxbuf, old(remote.currentRx), size)
              else remote.Post() == old(remote.Post()) && remote.controller.raised == old(remote.controller.raised)
    {
      currentRx := rxbuf;
      currentTx := txbuf;
      if remote.isListening {
        remote.XmitLocked(txbuf, rxbuf, size);
      }
      currentRx := null;
      currentTx := null;
      return ToInt(size);
    }

    // async_xfer: refused if the device's interrupt is disabled; on a master whose remote is
    // listening it transfers at once and calls back unless the returned size is 0; in every other
    // case, on a master too, it posts on this device. called: the callback has been called.
    method AsyncXfer(txbuf: Buffer?, rxbuf: Buffer?, size: nat, callback: nat, ctx: nat) returns (rc: int, called: bool)
      requires remote != null && remote != this && remote.controller.Valid()
      requires isMaster && remote.isListening ==> remote.CanExchange(txbuf, rxbuf, size)
      modifies this`currentRx, this`currentTx, this`currentXferSize, this`isListening
      modifies this`slaveCallback, this`slaveCallbackCtx
      modifies remote`currentRx, remote`currentTx, remote`currentXferSize, remote`isListening
      modifies if isMaster && remote.isListening && rxbuf != null then {rxbuf} else {}
      modifies if isMaster && remote.isListening && remote.currentRx != null then {remote.currentRx} else {}
      modifies remote.controller`pending, remote.controller`signals, remote.controller`raised
      ensures remote.controller.Valid()
      ensures if !irq.isEnabled then rc == -22 && !called && Post() == old(Post())
              else if isMaster && old(remote.isListening) then
                rc == ToInt(size) && (called <==> rc != 0 && callback != 0)
                && Post() == (null, null, old(currentXferSize), old(isListening), old(slaveCallback), old(slaveCallbackCtx))
              else rc == 0 && !called && Post() == (rxbuf, txbuf, size, true, callback, ctx)
      ensures if irq.isEnabled && isMaster && old(remote.isListening)
              then remote.Exchanged(txbuf, rxbuf, old(remote.currentRx), size)
              else remote.Post() == old(remote.Post()) && remote.controller.raised == old(remote.controller.raised)
                   && (rxbuf != null ==> rxbuf[..] == old(rxbuf[..]))
                   && (remote.currentRx != null ==> remote.currentRx[..] == old(remote.currentRx[..]))
    {
      if !irq.isEnabled {
        return -EINVAL, false;
      }
      if isMaster && remote.isListening {
        rc := MasterSyncXfer(txbuf, rxbuf, size);
        called := rc != 0 && callback != 0;
        return;
      }
      currentRx := rxbuf;
      currentTx := txbuf;
      currentXferSize := size;
      isListening := true;
      slaveCallback := callback;
      slaveCallbackCtx := ctx;
      return 0, false;
    }

    // spi_irq_handler: the callback to call, 0 for none. The fields are cleared before the call.
    method SpiIrqHandler() returns (callback: nat, ctx: nat)
      modifies this`slaveCallback, this`slaveCallbackCtx
      ensures callback == old(slaveCallback) && slaveCallback == 0
      ensures callback != 0 ==> ctx == old(slaveCallbackCtx) && slaveCallbackCtx == 0
      ensures callback == 0 ==> slaveCallbackCtx == old(slaveCallbackCtx)
    {
      callback, ctx := slaveCallback, slaveCallbackCtx;
      if callback != 0 {
        slaveCallback := 0;
        slaveCallbackCtx := 0;
      }
    }
  }

  const EINVAL := 22

  ghost function Bytes(buffer: Buffer?): seq<bv8>
    reads if buffer == null then {} else {buffer}
  {
    if buffer == null then [] else buffer[..]
  }

  // The master's rx buffer after a transfer of n bytes from the slave's tx buffer, if it has one.
  function MasterReceives(rx: seq<bv8>, slaveTx: seq<bv8>, hasTx: bool, n: nat): seq<bv8>
    requires hasTx ==> n <= |rx| && n <= |slaveTx|
  {
    if hasTx then Overlay(rx, slaveTx, n) else rx
  }

  // The slave's rx buffer: the master's tx bytes, as they are after the first copy.
  function SlaveReceives(slaveRx: seq<bv8>, tx: seq<bv8>, rx: seq<bv8>, slaveTx: seq<bv8>, hasTx: bool,
                         oneBuffer: bool, n: nat): seq<bv8>
    requires n <= |slaveRx| && n <= |tx| && (hasTx ==> n <= |rx| && n <= |slaveTx|) && (oneBuffer ==> tx == rx)
  {
    Overlay(slaveRx, if oneBuffer then MasterReceives(rx, slaveTx, hasTx, n) else tx, n)
  }

  // Each side gets the first n bytes that the other had in its tx buffer, and keeps the rest of
  // its own rx buffer. Whether the slave gets the master's bytes fails exactly for a master that
  // sends and receives in one buffer, while the slave sends something else.
  lemma FullDuplex(slaveRx: seq<bv8>, tx: seq<bv8>, rx: seq<bv8>, slaveTx: seq<bv8>, hasTx: bool, oneBuffer: bool, n: nat)
    requires n <= |slaveRx| && n <= |tx| && (hasTx ==> n <= |rx| && n <= |slaveTx|) && (oneBuffer ==> tx == rx)
    ensures var m, s := MasterReceives(rx, slaveTx, hasTx, n), SlaveReceives(slaveRx, tx, rx, slaveTx, hasTx, oneBuffer, n);
            && |m| == |rx| && (hasTx ==> m[..n] == slaveTx[..n] && m[n..] == rx[n..]) && (!hasTx ==> m == rx)
            && |s| == |slaveRx| && s[n..] == slaveRx[n..]
            && (s[..n] == tx[..n] <==> (!oneBuffer || !hasTx || slaveTx[..n] == tx[..n]))
  {
    var m, s := MasterReceives(rx, slaveTx, hasTx, n), SlaveReceives(slaveRx, tx, rx, slaveTx, hasTx, oneBuffer, n);
    assert s[..n] == (if oneBuffer then m else tx)[..n];
    assert hasTx ==> m[..n] == slaveTx[..n];
  }
}
