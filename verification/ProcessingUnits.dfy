/**
 A processing unit: the pins that it owns, their lookup, and the conversion of a GPIO.
 */
module ProcessingUnits {
  import opened Board
  import opened Pins
  import opened SpiDevices

  datatype SpiConfig = NoSpi | SpiConfig(index: nat, master: bool, mosi: nat, miso: nat, clk: nat, csn: nat)

  datatype UnitConfig = UnitConfig(gpioPins: seq<nat>, spi: SpiConfig) {
    function SpiPins(): seq<nat> {
      if spi.NoSpi? then [] else [spi.mosi, spi.miso, spi.clk, spi.csn]
    }

    // All pin numbers of the unit: GPIOs, then the pins of its SPI device.
    function PinNumbers(): seq<nat> { gpioPins + SpiPins() }
  }

  // The pins are those of the configuration, as load_config makes them.
  ghost predicate Unconnected(config: UnitConfig, side: Side, pins: set<Pin>)
    reads pins
  {
    && (forall p :: p in pins ==> p.side == side && p.connected == [] && !p.level && p.controller == null)
    && (forall p :: p in pins ==> p.pinIdx in config.PinNumbers() && (p.spi <==> p.pinIdx !in config.gpioPins))
    && (forall p, q :: p in pins && q in pins && p.pinIdx == q.pinIdx ==> p == q)
    && (forall n :: n in config.PinNumbers() ==> exists p :: p in pins && p.pinIdx == n)
  }

  // The unit's SPI devices: one with the role, index and pins of the configuration, on the unit's
  // own controller, or none.
  ghost predicate SpiAsConfigured(config: UnitConfig, controller: IrqController, devs: seq<SpiDevice>) {
    var c := config.spi;
    if c.NoSpi? then devs == []
    else
      && |devs| == 1 && devs[0].controller == controller
      && devs[0].isMaster == c.master && devs[0].spiIndex == c.index
      && devs[0].mosi.pinIdx == c.mosi && devs[0].miso.pinIdx == c.miso
      && devs[0].clk.pinIdx == c.clk && devs[0].csn.pinIdx == c.csn
  }

  class ProcessingUnit {
    ghost const side: Side
    ghost const config: UnitConfig
    const controller: IrqController
    var gpios: seq<Pin>
    var gpioIrqs: seq<Pin>
    var spiDevs: seq<SpiDevice>

    // The pins that the unit owns: those of its two vectors and of its SPI devices.
    ghost var owned: set<Pin>
    ghost var spiPins: set<Pin>

    ghost predicate Vectors()
      reads this
    {
      && NoDup(gpios) && NoDup(gpioIrqs)
      && (forall p :: p in gpios ==> p in owned && p.controller == null && !p.spi)
      && (forall p :: p in gpioIrqs ==> p in owned && p.controller == controller && !p.spi)
      && (forall p :: p in spiPins ==> p in owned && p.controller == null && p.spi)
      && (forall p :: p in owned ==> p in gpios || p in gpioIrqs || p in spiPins)
    }

    ghost predicate Devices()
      reads this
    {
      && NoDup(spiDevs) && SpiAsConfigured(config, controller, spiDevs)
      && (forall d, p :: d in spiDevs && p in d.PinList() ==> p in spiPins)
      && (forall p :: p in spiPins ==> exists d :: d in spiDevs && p in d.PinList())
    }

    ghost predicate Valid()
      reads this
    {
      && Vectors() && Devices()
      && (forall p :: p in owned ==> p.side == side)
      && (forall p, q :: p in owned && q in owned && p.pinIdx == q.pinIdx ==> p == q)
    }

    // load_config: the pins of the configuration, unconnected and low.
    constructor (config: UnitConfig, ghost side: Side)
      requires NoDup(config.PinNumbers())
      ensures Valid() && this.side == side && this.config == config
      ensures fresh(controller) && controller.Valid() && controller.raised == []
      ensures fresh(owned) && fresh(spiDevs) && SpiAsConfigured(config, controller, spiDevs)
      ensures forall d :: d in spiDevs ==> !d.irq.isEnabled && !d.isListening && d.slaveCallback == 0
      ensures Unconnected(config, side, owned)
    {
      this.side, this.config := side, config;
      NumbersAreDistinct(config);
      var made := MakeGpios(config.gpioPins, side);
      var ctrl := new IrqController();
      var devs, pins := MakeSpi(config, ctrl, side);
      controller := ctrl;
      gpios, gpioIrqs, spiDevs := made, [], devs;
      spiPins := pins;
      owned := (set p | p in made) + pins;
    }

    lemma DevicePins()
      requires Valid()
      ensures NoDup(spiDevs)
      ensures forall d :: d in spiDevs ==> {d.mosi, d.miso, d.clk, d.csn} <= owned
    {
      forall d | d in spiDevs ensures {d.mosi, d.miso, d.clk, d.csn} <= owned {
        assert d.PinList()[0] in spiPins && d.PinList()[1] in spiPins;
        assert d.PinList()[2] in spiPins && d.PinList()[3] in spiPins;
      }
    }

    lemma SideOf(p: Pin)
      requires Valid() && p in owned
      ensures p.side == side
    {
    }

    lemma ControllerOf(p: Pin)
      requires Valid() && p in owned
      ensures p.controller == null || (p.controller == controller && !p.spi && p in gpioIrqs)
    {
    }

    // The first pin with the index: GPIOs, then interrupt GPIOs, then SPI pins.
    method GetPin(pinIdx: nat) returns (pin: Pin?)
      requires Valid()
      ensures pin != null ==> pin in owned && pin.pinIdx == pinIdx
      ensures pin == null ==> forall q :: q in owned ==> q.pinIdx != pinIdx
    {
      pin := FindIn(gpios, pinIdx);
      if pin != null {
        return;
      }
      pin := FindIn(gpioIrqs, pinIdx);
      if pin != null {
        return;
      }
      for i := 0 to |spiDevs|
        invariant forall d, q :: d in spiDevs[..i] && q in d.PinList() ==> q.pinIdx != pinIdx
      {
        pin := spiDevs[i].GetPin(pinIdx);
        if pin != null {
          assert spiDevs[i] in spiDevs;
          return;
        }
      }
      pin := null;
      assert spiDevs[..|spiDevs|] == spiDevs;
    }

    // Replaces the plain GPIO of this index by an interrupt GPIO, in the unit's vectors and in the
    // graph; -EINVAL, and nothing else, if there is none.
    method SetGpioIrq(pinIdx: nat, handler: nat, ghost pins: set<Pin>)
      returns (rc: int, ghost gpio: Pin?, ghost gpioIrq: Pin?)
      requires Valid() && owned <= pins && Graph(pins)
      modifies this`gpios, this`gpioIrqs, this`owned, pins`connected
      ensures Valid()
      ensures rc == 0 || rc == -22
      ensures rc == 0 <==> exists p :: p in old(owned) && p.pinIdx == pinIdx && p.controller == null && !p.spi
      ensures rc != 0 ==> gpios == old(gpios) && gpioIrqs == old(gpioIrqs) && owned == old(owned)
                          && forall p :: p in pins ==> p.connected == old(p.connected)
      ensures rc == 0 ==> gpio != null && gpioIrq != null && fresh(gpioIrq)
                          && gpio in old(gpios) && gpio in old(owned) && gpio.pinIdx == pinIdx == gpioIrq.pinIdx
                          && gpio.side == side && gpio.controller == null && !gpio.spi
      ensures rc == 0 ==> gpioIrq.side == side && gpioIrq.controller == controller && !gpioIrq.spi
                          && gpioIrq.handler == handler && !gpioIrq.level && gpioIrq.connected == old(gpio.connected)
      ensures rc == 0 ==> gpioIrqs == old(gpioIrqs) + [gpioIrq] && owned == old(owned) - {gpio} + {gpioIrq}
      ensures rc == 0 ==> exists it :: 0 <= it < |old(gpios)| && old(gpios)[it] == gpio
                                       && gpios == old(gpios)[..it] + old(gpios)[it + 1..]
      ensures rc == 0 ==> forall p :: p in pins ==>
                            p.connected == Renamed(old(p.connected), gpio, gpioIrq) && gpio !in p.connected
    {
      var it := FindIndex(gpios, pinIdx);
      if it == |gpios| {
        return -EINVAL, null, null;
      }
      gpio := gpios[it];
      gpioIrq := ConvertAt(it, handler, pins);
      return 0, gpio, gpioIrq;
    }

    method ConvertAt(it: nat, handler: nat, ghost pins: set<Pin>) returns (gpioIrq: Pin)
      requires Valid() && owned <= pins && Graph(pins) && it < |gpios|
      modifies this`gpios, this`gpioIrqs, this`owned, pins`connected
      ensures Valid()
      ensures fresh(gpioIrq) && gpioIrq.pinIdx == old(gpios[it]).pinIdx
      ensures gpioIrq.side == side && gpioIrq.controller == controller && !gpioIrq.spi
      ensures gpioIrq.handler == handler && !gpioIrq.level && gpioIrq.connected == old(gpios[it].connected)
      ensures gpioIrqs == old(gpioIrqs) + [gpioIrq] && owned == old(owned) - {old(gpios[it])} + {gpioIrq}
      ensures gpios == old(gpios[..it] + gpios[it + 1..])
      ensures forall p :: p in pins ==>
                p.connected == Renamed(old(p.connected), old(gpios[it]), gpioIrq) && old(gpios[it]) !in p.connected
    {
      var gpio := gpios[it];
      assert gpio in gpios;
      gpioIrq := new Pin.GpioIrq(controller, gpio, pins);
      gpioIrq.handler := handler;
      ReplaceInVectors(it, gpioIrq);
    }

    // push_back on the one vector and erase from the other.
    method ReplaceInVectors(it: nat, gpioIrq: Pin)
      requires Valid() && it < |gpios| && gpioIrq !in owned
      requires gpioIrq.controller == controller && !gpioIrq.spi
      requires gpioIrq.side == side && gpioIrq.pinIdx == gpios[it].pinIdx
      modifies this`gpios, this`gpioIrqs, this`owned
      ensures Valid()
      ensures gpios == old(gpios[..it] + gpios[it + 1..]) && gpioIrqs == old(gpioIrqs) + [gpioIrq]
      ensures owned == old(owned) - {old(gpios[it])} + {gpioIrq}
    {
      ghost var before, gpio := gpios, gpios[it];
      gpioIrqs := gpioIrqs + [gpioIrq];
      gpios := gpios[..it] + gpios[it + 1..];
      owned := owned - {gpio} + {gpioIrq};
      assert before == before[..it] + [gpio] + before[it + 1..];
      assert forall p :: p in gpios <==> p in before && p != gpio;
    }

    // Sets the GPIO of this index, of either kind, if there is one: the pin and its direct
    // neighbours take the value, the interrupt GPIOs among the neighbours are raised, and nothing
    // else in the whole graph changes.
    method SetGpioValue(pinIdx: nat, value: bool, ghost pins: set<Pin>, ghost controllers: set<IrqController>)
      returns (ghost pin: Pin?)
      requires Valid() && owned <= pins && Graph(pins)
      requires forall p :: p in pins && p.controller != null ==> p.controller in controllers
      requires forall c :: c in controllers ==> c.Valid()
      modifies pins`level, controllers`pending, controllers`signals, controllers`raised
      ensures pin == null <==> forall p :: p in owned && !p.spi ==> p.pinIdx != pinIdx
      ensures pin != null ==> pin in owned && !pin.spi && pin.pinIdx == pinIdx
      ensures forall p :: p in pins ==>
                p.level == (if pin != null && (p == pin || p in pin.connected) then value else old(p.level))
      ensures forall c :: c in controllers ==>
                c.Valid() && c.raised == old(c.raised) + (if pin == null then [] else RaisedOn(c, pin.connected))
    {
      pin := null;
      var found := FindIn(gpios, pinIdx);
      if found == null {
        found := FindIn(gpioIrqs, pinIdx);
      }
      if found != null {
        pin := found;
        assert Controllers(found.connected) <= controllers;
        forall c | c in controllers && c !in Controllers(found.connected) ensures RaisedOn(c, found.connected) == [] {
          RaisedOnNobody(c, found.connected);
        }
        found.SetValue(value);
      }
    }
  }

  method MakeSpi(config: UnitConfig, controller: IrqController, ghost side: Side)
    returns (devs: seq<SpiDevice>, ghost pins: set<Pin>)
    requires NoDup(config.SpiPins())
    ensures fresh(devs) && fresh(pins) && NoDup(devs) && SpiAsConfigured(config, controller, devs)
    ensures forall d :: d in devs ==> !d.irq.isEnabled && !d.isListening && d.slaveCallback == 0
    ensures forall d, p :: d in devs && p in d.PinList() ==> p in pins
    ensures forall p :: p in pins ==> exists d :: d in devs && p in d.PinList()
    ensures forall p :: p in pins ==>
              && p.pinIdx in config.SpiPins() && p.side == side && p.controller == null
              && p.spi && p.connected == [] && !p.level
    ensures forall p, q :: p in pins && q in pins && p.pinIdx == q.pinIdx ==> p == q
    ensures forall n :: n in config.SpiPins() ==> exists p :: p in pins && p.pinIdx == n
  {
    devs, pins := [], {};
    if config.spi.SpiConfig? {
      var c := config.spi;
      var spi := new SpiDevice(controller, c.index, c.master, c.mosi, c.miso, c.clk, c.csn, side);
      devs := [spi];
      pins := {spi.mosi, spi.miso, spi.clk, spi.csn};
      assert spi in devs;
      assert config.SpiPins()[0] == c.mosi && config.SpiPins()[1] == c.miso;
      assert config.SpiPins()[2] == c.clk && config.SpiPins()[3] == c.csn;
    }
  }

  method MakeGpios(numbers: seq<nat>, ghost side: Side) returns (gpios: seq<Pin>)
    requires NoDup(numbers)
    ensures fresh(gpios) && NoDup(gpios)
    ensures forall p :: p in gpios ==>
              p.pinIdx in numbers && p.side == side && p.controller == null && !p.spi && p.connected == [] && !p.level
    ensures forall p, q :: p in gpios && q in gpios && p.pinIdx == q.pinIdx ==> p == q
    ensures forall n :: n in numbers ==> exists p :: p in gpios && p.pinIdx == n
  {
    gpios := [];
    for i := 0 to |numbers|
      invariant fresh(gpios) && |gpios| == i
      invariant forall k :: 0 <= k < i ==>
                  gpios[k].pinIdx == numbers[k] && gpios[k].side == side && gpios[k].controller == null
                  && !gpios[k].spi && gpios[k].connected == [] && !gpios[k].level
    {
      var gpio := new Pin.Gpio(numbers[i], side, false);
      gpios := gpios + [gpio];
    }
    forall n | n in numbers ensures exists p :: p in gpios && p.pinIdx == n {
      var k :| 0 <= k < |numbers| && numbers[k] == n;
      assert gpios[k] in gpios;
    }
  }

  // The numbers of a configuration without repetition: no GPIO shares one with the SPI device.
  lemma NumbersAreDistinct(config: UnitConfig)
    requires NoDup(config.PinNumbers())
    ensures NoDup(config.gpioPins) && NoDup(config.SpiPins())
    ensures forall n :: n in config.PinNumbers() <==> n in config.gpioPins || n in config.SpiPins()
    ensures forall n :: !(n in config.gpioPins && n in config.SpiPins())
  {
    var all, g, s := config.PinNumbers(), config.gpioPins, config.SpiPins();
    assert forall k :: 0 <= k < |g| ==> all[k] == g[k];
    assert forall k :: 0 <= k < |s| ==> all[|g| + k] == s[k];
  }

  // The position of the first pin with the index, or the end.
  method FindIndex(pins: seq<Pin>, pinIdx: nat) returns (it: nat)
    ensures it <= |pins|
    ensures it < |pins| ==> pins[it].pinIdx == pinIdx
    ensures forall q :: q in pins[..it] ==> q.pinIdx != pinIdx
    ensures it == |pins| ==> forall q :: q in pins ==> q.pinIdx != pinIdx
  {
    it := 0;
    while it < |pins| && pins[it].pinIdx != pinIdx
      invariant it <= |pins|
      invariant forall q :: q in pins[..it] ==> q.pinIdx != pinIdx
    {
      it := it + 1;
    }
    assert pins[..|pins|] == pins;
  }

  // The loop over one vector of pins.
  method FindIn(pins: seq<Pin>, pinIdx: nat) returns (pin: Pin?)
    ensures pin != null ==> pin in pins && pin.pinIdx == pinIdx
    ensures pin == null ==> forall q :: q in pins ==> q.pinIdx != pinIdx
  {
    for i := 0 to |pins|
      invariant forall q :: q in pins[..i] ==> q.pinIdx != pinIdx
    {
      if pins[i].pinIdx == pinIdx {
        return pins[i];
      }
    }
    assert pins[..|pins|] == pins;
    return null;
  }
}
