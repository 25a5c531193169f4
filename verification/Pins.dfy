/**
 Pins and interrupt controllers as objects: the neighbour vectors, the propagation of a level, and
 the replacement of a live GPIO by an interrupt GPIO.
 */
module Pins {
  import opened Board

  // s with every a replaced by b, at the same positions.
  function Renamed<T(==)>(s: seq<T>, a: T, b: T): seq<T> {
    seq(|s|, i requires 0 <= i < |s| => if s[i] == a then b else s[i])
  }

  class HwIrq {
    var isEnabled: bool
    constructor ()
      ensures !isEnabled
    {
      isEnabled := false;
    }
  }

  // An interrupt GPIO, always enabled, or the interrupt of an SPI device.
  datatype GenericIrq = OfPin(pin: Pin) | OfDevice(hw: HwIrq) {
    predicate IsEnabled()
      reads if OfDevice? then {hw} else {}
    {
      OfDevice? ==> hw.isEnabled
    }
  }

  class IrqController {
    // the interrupts inserted by local_raise; never emptied
    var pending: set<GenericIrq>
    // the signals sent to the controller's thread so far
    var signals: nat
    // history: every accepted raise and every run of a handler, in order
    ghost var raised: seq<GenericIrq>
    ghost var handled: seq<GenericIrq>

    // What is pending is what was ever raised, with one signal for each raise.
    ghost predicate Valid()
      reads this
    {
      pending == (set r | r in raised) && signals == |raised|
    }

    constructor ()
      ensures Valid() && raised == [] && handled == []
    {
      pending, signals, raised, handled := {}, 0, [], [];
    }

    method LocalRaise(irq: GenericIrq)
      requires Valid()
      modifies this`pending, this`signals, this`raised
      ensures Valid()
      ensures raised == (if irq.IsEnabled() then old(raised) + [irq] else old(raised))
    {
      if !irq.IsEnabled() {
        return;
      }
      pending := pending + {irq};
      raised := raised + [irq];
      signals := signals + 1;
    }

    // The loop of handle when no interrupt is inserted meanwhile; the Interrupts module has the
    // interleavings. Every pending interrupt is handled once, and all stay pending.
    method Handle()
      modifies this`handled
      ensures old(handled) <= handled
      ensures multiset(handled[|old(handled)|..]) == multiset(pending)
    {
      var todo := pending;
      while todo != {}
        invariant todo <= pending && old(handled) <= handled
        invariant multiset(handled[|old(handled)|..]) == multiset(pending - todo)
        decreases todo
      {
        var irq :| irq in todo;
        ghost var before := handled[|old(handled)|..];
        ghost var finished := pending - todo;
        handled := handled + [irq];
        assert handled[|old(handled)|..] == before + [irq];
        todo := todo - {irq};
        assert pending - todo == finished + {irq};
      }
      assert pending - todo == pending;
    }
  }

  // A Gpio, or a GpioIrq if it has a controller.
  class Pin {
    const pinIdx: nat
    const controller: IrqController?
    ghost const side: Side
    ghost const spi: bool
    var handler: nat
    var connected: seq<Pin>
    var level: bool

    constructor Gpio(pinIdx: nat, ghost side: Side, ghost spi: bool)
      ensures this.pinIdx == pinIdx && controller == null && this.side == side && this.spi == spi
      ensures connected == [] && !level
    {
      this.pinIdx, this.controller, this.side, this.spi := pinIdx, null, side, spi;
      handler, connected, level := 0, [], false;
    }

    // Takes the place of gpio in the graph: the neighbour lists of all other pins are as before
    // with the new pin for the old one, and no pin of the graph refers to the old one any more.
    constructor GpioIrq(controller: IrqController, gpio: Pin, ghost pins: set<Pin>)
      requires gpio in pins && Graph(pins)
      modifies gpio.connected`connected
      ensures this.pinIdx == gpio.pinIdx && this.controller == controller
      ensures this.side == gpio.side && !this.spi && !level && handler == 0
      ensures connected == old(gpio.connected) == gpio.connected
      ensures forall p :: p in pins ==> p.connected == Renamed(old(p.connected), gpio, this)
      ensures forall p :: p in pins ==> gpio !in p.connected
    {
      this.pinIdx, this.controller, this.side, this.spi := gpio.pinIdx, controller, gpio.side, false;
      handler, connected, level := 0, [], false;
      new;
      for i := 0 to |gpio.connected|
        invariant gpio.connected == old(gpio.connected) && !level && handler == 0
        invariant connected == gpio.connected[..i]
        invariant forall p :: p in pins ==>
                    p.connected == (if p in gpio.connected[..i] then Renamed(old(p.connected), gpio, this)
                                    else old(p.connected))
      {
        var pin := gpio.connected[i];
        assert pin in pins && pin != gpio && pin !in gpio.connected[..i];
        var slot := pin.Find(gpio);
        // the search is not checked: symmetry makes it succeed
        assert slot < |pin.connected|;
        pin.connected := pin.connected[slot := this];
        assert pin.connected == Renamed(old(pin.connected), gpio, this);
        connected := connected + [pin];
        assert forall p :: p in gpio.connected[..i + 1] <==> p in gpio.connected[..i] || p == pin;
      }
      assert gpio.connected[..|gpio.connected|] == gpio.connected;
      forall p | p in pins ensures p.connected == Renamed(old(p.connected), gpio, this) {
        assert p !in gpio.connected ==> gpio !in old(p.connected);
      }
    }

    // std::find: the first position of pin, or the end.
    method Find(pin: Pin) returns (k: nat)
      ensures k <= |connected|
      ensures k < |connected| ==> connected[k] == pin
      ensures pin !in connected[..k]
    {
      k := 0;
      while k < |connected| && connected[k] != pin
        invariant k <= |connected| && pin !in connected[..k]
      {
        k := k + 1;
      }
    }

    method Connect(pin: Pin?)
      modifies this`connected
      ensures connected == (if pin == null || pin in old(connected) then old(connected) else old(connected) + [pin])
    {
      if pin == null {
        return;
      }
      var k := Find(pin);
      if k < |connected| {
        return;
      }
      assert connected[..k] == connected;
      connected := connected + [pin];
    }

    method OnChange(value: bool)
      requires controller != null ==> controller.Valid()
      modifies this`level, Controllers([this])`pending, Controllers([this])`signals, Controllers([this])`raised
      ensures level == value
      ensures controller != null ==> controller.Valid() && controller.raised == old(controller.raised) + [OfPin(this)]
    {
      level := value;
      if controller != null {
        assert controller in Controllers([this]);
        controller.LocalRaise(OfPin(this));
      }
    }

    // Each direct neighbour takes the value, and each neighbour that is an interrupt GPIO is
    // raised once per wire on its own controller; nothing else changes.
    method Change(value: bool)
      requires forall c :: c in Controllers(connected) ==> c.Valid()
      modifies connected`level
      modifies Controllers(connected)`pending, Controllers(connected)`signals, Controllers(connected)`raised
      ensures forall p :: p in connected ==> p.level == value
      ensures forall c :: c in Controllers(connected) ==>
                c.Valid() && c.raised == old(c.raised) + RaisedOn(c, connected)
    {
      for i := 0 to |connected|
        invariant forall p :: p in connected[..i] ==> p.level == value
        invariant forall c :: c in Controllers(connected) ==>
                    c.Valid() && c.raised == old(c.raised) + RaisedOn(c, connected[..i])
      {
        assert connected[..i + 1][..i] == connected[..i];
        assert forall p :: p in connected[..i + 1] <==> p in connected[..i] || p == connected[i];
        assert connected[i].controller != null ==> connected[i].controller in Controllers(connected);
        connected[i].OnChange(value);
      }
      assert connected[..|connected|] == connected;
    }

    method SetValue(value: bool)
      requires forall c :: c in Controllers(connected) ==> c.Valid()
      modifies this`level, connected`level
      modifies Controllers(connected)`pending, Controllers(connected)`signals, Controllers(connected)`raised
      ensures level == value
      ensures forall p :: p in connected ==> p.level == value
      ensures forall c :: c in Controllers(connected) ==>
                c.Valid() && c.raised == old(c.raised) + RaisedOn(c, connected)
    {
      level := value;
      Change(value);
    }
  }

  ghost function Controllers(pins: seq<Pin>): set<IrqController> {
    set p | p in pins && p.controller != null :: p.controller
  }

  // The interrupts of the pins of the list that belong to controller c, in order.
  ghost function RaisedOn(c: IrqController, pins: seq<Pin>): seq<GenericIrq> {
    if pins == [] then []
    else
      var last := pins[|pins| - 1];
      RaisedOn(c, pins[..|pins| - 1]) + (if last.controller == c then [OfPin(last)] else [])
  }

  lemma {:induction false} RaisedOnNobody(c: IrqController, pins: seq<Pin>)
    requires c !in Controllers(pins)
    ensures RaisedOn(c, pins) == []
  {
    if pins != [] {
      assert forall p :: p in pins[..|pins| - 1] ==> p in pins;
      RaisedOnNobody(c, pins[..|pins| - 1]);
    }
  }

  // The pointer graph on a set of pins: closed, symmetric, without loops and doubles.
  ghost predicate Graph(pins: set<Pin>)
    reads pins
  {
    && (forall p, q :: p in pins && q in p.connected ==> q in pins && p in q.connected && p != q)
    && (forall p :: p in pins ==> NoDup(p.connected))
  }
}
