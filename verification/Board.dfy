/**
 The wiring of a system as plain values: for each pin of the host and of the SoC its neighbours in
 connection order, its kind and its level. The classes of the Pins, SpiDevices, ProcessingUnits and
 Systems modules refine it.
 */
module Board {

  datatype Side = Host | Soc {
    function Other(): Side { if Host? then Soc else Host }
  }

  datatype PinId = PinId(side: Side, idx: nat)

  // A plain GPIO, a GPIO with an interrupt handler, or a pin of an SPI device.
  datatype Kind = Gpio | GpioIrq(handler: nat) | SpiPin

  datatype Board = Board(wires: map<PinId, seq<PinId>>, kind: map<PinId, Kind>, level: map<PinId, bool>)

  ghost predicate NoDup<T>(s: seq<T>) {
    forall i, j :: 0 <= i < j < |s| ==> s[i] != s[j]
  }

  predicate Wired(b: Board, x: PinId, y: PinId) {
    x in b.wires && y in b.wires[x]
  }

  ghost predicate Symmetric(b: Board) {
    forall x, y :: Wired(b, x, y) ==> Wired(b, y, x)
  }

  // Every wire joins a host pin and a SoC pin.
  ghost predicate AcrossOnly(b: Board) {
    forall x, y :: Wired(b, x, y) ==> x.side != y.side
  }

  ghost predicate NoDoubles(b: Board) {
    forall x :: x in b.wires ==> NoDup(b.wires[x])
  }

  ghost predicate WellWired(b: Board) {
    && b.kind.Keys == b.wires.Keys == b.level.Keys
    && Symmetric(b) && AcrossOnly(b) && NoDoubles(b)
  }

  // ---------------------------------------------------------------- operations

  // Pin::connect.
  function Append<T(==)>(s: seq<T>, y: T): seq<T> {
    if y in s then s else s + [y]
  }

  // Both directions of one wire, if both pins exist.
  function Link(b: Board, host: nat, soc: nat): Board {
    var h, s := PinId(Host, host), PinId(Soc, soc);
    if h in b.wires && s in b.wires
    then b.(wires := b.wires[s := Append(b.wires[s], h)][h := Append(b.wires[h], s)])
    else b
  }

  // set_gpio_irq succeeds on a plain GPIO only.
  predicate Convertible(b: Board, x: PinId) {
    x in b.kind && b.kind[x].Gpio?
  }

  function Convert(b: Board, x: PinId, handler: nat): Board {
    if Convertible(b, x)
    then b.(kind := b.kind[x := GpioIrq(handler)], level := b.level[x := false])
    else b
  }

  // set_gpio_value finds GPIOs of either kind, not SPI pins.
  predicate Settable(b: Board, x: PinId) {
    x in b.kind && !b.kind[x].SpiPin?
  }

  function SetValue(b: Board, x: PinId, value: bool): Board {
    if Settable(b, x)
    then b.(level := map y | y in b.level :: if y == x || Wired(b, x, y) then value else b.level[y])
    else b
  }

  // The pins that a set_gpio_value raises, in order.
  function Raises(b: Board, x: PinId): seq<PinId> {
    if Settable(b, x) && x in b.wires then IrqPins(b, b.wires[x]) else []
  }

  function IrqPins(b: Board, pins: seq<PinId>): seq<PinId> {
    if pins == [] then []
    else
      var rest := IrqPins(b, pins[..|pins| - 1]);
      var last := pins[|pins| - 1];
      if last in b.kind && b.kind[last].GpioIrq? then rest + [last] else rest
  }

  // ---------------------------------------------------------------- one step

  lemma LinkWires(b: Board, host: nat, soc: nat, x: PinId, y: PinId)
    ensures var h, s := PinId(Host, host), PinId(Soc, soc);
            Wired(Link(b, host, soc), x, y) <==>
            Wired(b, x, y) || (h in b.wires && s in b.wires && ((x == h && y == s) || (x == s && y == h)))
  {
  }

  lemma LinkKeepsWellWired(b: Board, host: nat, soc: nat)
    requires WellWired(b)
    ensures WellWired(Link(b, host, soc)) && Link(b, host, soc).wires.Keys == b.wires.Keys
  {
    var t := Link(b, host, soc);
    forall x, y | Wired(t, x, y) ensures Wired(t, y, x) && x.side != y.side {
      LinkWires(b, host, soc, x, y);
      LinkWires(b, host, soc, y, x);
    }
  }

  // Setting a pin reaches its direct neighbours and no others, on any wiring, cycles included.
  lemma SetValueIsOneHop(b: Board, x: PinId, value: bool, y: PinId)
    requires WellWired(b) && y in b.level
    ensures var t := SetValue(b, x, value);
            && t.wires == b.wires && t.kind == b.kind && t.level.Keys == b.level.Keys
            && t.level[y] == (if Settable(b, x) && (y == x || Wired(b, y, x)) then value else b.level[y])
  {
  }

  // A pin is raised exactly once if it is a wired interrupt GPIO, and not at all otherwise; all
  // raised pins are on the other side.
  lemma RaisesExactly(b: Board, x: PinId, y: PinId)
    requires WellWired(b)
    ensures NoDup(Raises(b, x))
    ensures y in Raises(b, x) <==> Settable(b, x) && Wired(b, x, y) && y in b.kind && b.kind[y].GpioIrq?
    ensures y in Raises(b, x) ==> y.side == x.side.Other()
  {
    if Settable(b, x) && x in b.wires {
      IrqPinsExactly(b, b.wires[x], y);
    }
  }

  lemma {:induction false} IrqPinsExactly(b: Board, pins: seq<PinId>, y: PinId)
    requires NoDup(pins)
    ensures NoDup(IrqPins(b, pins))
    ensures y in IrqPins(b, pins) <==> y in pins && y in b.kind && b.kind[y].GpioIrq?
  {
    if pins != [] {
      var rest, last := pins[..|pins| - 1], pins[|pins| - 1];
      IrqPinsExactly(b, rest, y);
      IrqPinsExactly(b, rest, last);
      assert y in pins <==> y in rest || y == last;
    }
  }

  // Converting both ends of a wire, or any two pins, gives the same board in either order.
  lemma ConversionsCommute(b: Board, x: PinId, hx: nat, y: PinId, hy: nat)
    requires x != y
    ensures Convert(Convert(b, x, hx), y, hy) == Convert(Convert(b, y, hy), x, hx)
    ensures Convertible(Convert(b, x, hx), y) == Convertible(b, y)
  {
    if Convertible(b, x) && Convertible(b, y) {
      assert b.kind[x := GpioIrq(hx)][y := GpioIrq(hy)] == b.kind[y := GpioIrq(hy)][x := GpioIrq(hx)];
      assert b.level[x := false][y := false] == b.level[y := false][x := false];
    }
  }

  // ---------------------------------------------------------------- whole runs

  datatype Command =
    | Connect(host: nat, soc: nat)
    | SetGpioIrq(pin: PinId, handler: nat)
    | SetGpioValue(pin: PinId, value: bool)

  function Do(b: Board, c: Command): Board {
    match c
    case Connect(host, soc) => Link(b, host, soc)
    case SetGpioIrq(pin, handler) => Convert(b, pin, handler)
    case SetGpioValue(pin, value) => SetValue(b, pin, value)
  }

  function Run(b: Board, commands: seq<Command>): Board {
    if commands == [] then b
    else Do(Run(b, commands[..|commands| - 1]), commands[|commands| - 1])
  }

  // The pins that the level changes of a run raise on the controller of one side, in order.
  function RaisedIn(b: Board, commands: seq<Command>, side: Side): seq<PinId> {
    if commands == [] then []
    else
      var before := commands[..|commands| - 1];
      RaisedIn(b, before, side) + RaisedBy(Run(b, before), commands[|commands| - 1], side)
  }

  function RaisedBy(b: Board, c: Command, side: Side): seq<PinId> {
    if c.SetGpioValue? && c.pin.side == side.Other() then Raises(b, c.pin) else []
  }

  lemma RaisedInSnoc(b: Board, commands: seq<Command>, c: Command, side: Side)
    ensures RaisedIn(b, commands + [c], side) == RaisedIn(b, commands, side) + RaisedBy(Run(b, commands), c, side)
  {
    assert (commands + [c])[..|commands|] == commands;
  }

  lemma RunSnoc(b: Board, commands: seq<Command>, c: Command)
    ensures Run(b, commands + [c]) == Do(Run(b, commands), c)
  {
    assert (commands + [c])[..|commands|] == commands;
  }

  // The wiring stays symmetric, free of doubles and of wires within one side, and the pins that
  // can be looked up stay the same, whatever is called in whatever order.
  lemma {:induction false} RunKeepsWellWired(b: Board, commands: seq<Command>)
    requires WellWired(b)
    ensures WellWired(Run(b, commands)) && Run(b, commands).wires.Keys == b.wires.Keys
  {
    if commands != [] {
      var before, c := commands[..|commands| - 1], commands[|commands| - 1];
      RunKeepsWellWired(b, before);
      match c
      case Connect(host, soc) => LinkKeepsWellWired(Run(b, before), host, soc);
      case _ => SameWires(Run(b, before), Do(Run(b, before), c));
    }
  }

  lemma SameWires(b: Board, t: Board)
    requires WellWired(b) && t.wires == b.wires && t.kind.Keys == b.kind.Keys && t.level.Keys == b.level.Keys
    ensures WellWired(t)
  {
    assert forall x, y :: Wired(t, x, y) <==> Wired(b, x, y);
  }

  // Neighbours stay in the order in which they were connected: what a pin's list was at any moment of
  // a run is the front of what it is at the end.
  lemma {:induction false} NeighboursInOrder(b: Board, commands: seq<Command>, k: nat, x: PinId)
    requires WellWired(b) && k <= |commands| && x in b.wires
    ensures x in Run(b, commands[..k]).wires && x in Run(b, commands).wires
    ensures Run(b, commands[..k]).wires[x] <= Run(b, commands).wires[x]
    decreases |commands|
  {
    RunKeepsWellWired(b, commands[..k]);
    RunKeepsWellWired(b, commands);
    if k == |commands| {
      assert commands[..k] == commands;
    } else {
      var before := commands[..|commands| - 1];
      NeighboursInOrder(b, before, k, x);
      assert before[..k] == commands[..k];
      assert Run(b, before).wires[x] <= Do(Run(b, before), commands[|commands| - 1]).wires[x];
    }
  }

  predicate Connects(b: Board, c: Command, x: PinId, y: PinId) {
    && c.Connect? && PinId(Host, c.host) in b.wires && PinId(Soc, c.soc) in b.wires
    && ((x == PinId(Host, c.host) && y == PinId(Soc, c.soc)) || (y == PinId(Host, c.host) && x == PinId(Soc, c.soc)))
  }

  // Two pins are wired after a run exactly if they were before or some connection of the run
  // names them; conversions and level changes in between make no difference.
  lemma {:induction false} RunWires(b: Board, commands: seq<Command>, x: PinId, y: PinId)
    requires WellWired(b)
    ensures Wired(Run(b, commands), x, y) <==>
            Wired(b, x, y) || exists c :: c in commands && Connects(b, c, x, y)
  {
    if commands != [] {
      var before, c := commands[..|commands| - 1], commands[|commands| - 1];
      var s := Run(b, before);
      RunWires(b, before, x, y);
      RunKeepsWellWired(b, before);
      assert commands == before + [c];
      if c.Connect? {
        LinkWires(s, c.host, c.soc, x, y);
      }
      assert Wired(Do(s, c), x, y) <==> Wired(s, x, y) || Connects(b, c, x, y);
    }
  }

  // The command writes the level of pin y: a level change of y or of a pin wired to it at that
  // moment, or a conversion of y.
  predicate Writes(b: Board, c: Command, y: PinId) {
    || (c.SetGpioValue? && Settable(b, c.pin) && (y == c.pin || Wired(b, y, c.pin)))
    || (c.SetGpioIrq? && c.pin == y && Convertible(b, y))
  }

  // After any run the level of a pin is the one written by the last command that writes it, which a
  // conversion does with false, or the level it had before the run. n is that command, or -1.
  lemma {:induction false} LevelIsLastWritten(b: Board, commands: seq<Command>, y: PinId, n: int)
    requires WellWired(b) && y in b.level && -1 <= n < |commands|
    requires n >= 0 ==> Writes(Run(b, commands[..n]), commands[n], y)
    requires forall k :: n < k < |commands| ==> !Writes(Run(b, commands[..k]), commands[k], y)
    ensures y in Run(b, commands).level
    ensures Run(b, commands).level[y] ==
            (if n == -1 then b.level[y] else commands[n].SetGpioValue? && commands[n].value)
  {
    if commands != [] {
      var before, c := commands[..|commands| - 1], commands[|commands| - 1];
      RunKeepsWellWired(b, before);
      assert Writes(Run(b, before), c, y) <==> n == |commands| - 1;
      if n < |commands| - 1 {
        assert forall k :: 0 <= k < |before| ==> before[..k] == commands[..k];
        LevelIsLastWritten(b, before, y, n);
      }
      var t := Run(b, before);
      assert y in t.level && Run(b, commands) == Do(t, c);
      if c.SetGpioValue? {
        SetValueIsOneHop(t, c.pin, c.value, y);
      }
    }
  }

  // The commands of a run that convert pin x with success.
  function Conversions(b: Board, commands: seq<Command>, x: PinId): nat {
    if commands == [] then 0
    else
      var before, c := commands[..|commands| - 1], commands[|commands| - 1];
      Conversions(b, before, x) +
      (if c.SetGpioIrq? && c.pin == x && Convertible(Run(b, before), x) then 1 else 0)
  }

  function FirstHandler(commands: seq<Command>, x: PinId): nat {
    if commands == [] then 0
    else if commands[0].SetGpioIrq? && commands[0].pin == x then commands[0].handler
    else FirstHandler(commands[1..], x)
  }

  predicate Targets(commands: seq<Command>, x: PinId) {
    exists c :: c in commands && c.SetGpioIrq? && c.pin == x
  }

  lemma {:induction false} FirstHandlerSnoc(commands: seq<Command>, c: Command, x: PinId)
    ensures FirstHandler(commands + [c], x) ==
            (if Targets(commands, x) then FirstHandler(commands, x)
             else if c.SetGpioIrq? && c.pin == x then c.handler else 0)
  {
    if commands == [] {
    } else {
      assert (commands + [c])[1..] == commands[1..] + [c];
      FirstHandlerSnoc(commands[1..], c, x);
      assert forall d :: d in commands <==> d == commands[0] || d in commands[1..];
    }
  }

  // A pin is converted at most once: a plain GPIO by the first set_gpio_irq that names it, whose
  // handler it keeps, and no other pin ever.
  lemma {:induction false} ConvertedByFirst(b: Board, commands: seq<Command>, x: PinId)
    requires WellWired(b) && x in b.kind
    ensures Conversions(b, commands, x) == (if Convertible(b, x) && Targets(commands, x) then 1 else 0)
    ensures x in Run(b, commands).kind
    ensures Run(b, commands).kind[x] ==
            (if Convertible(b, x) && Targets(commands, x) then GpioIrq(FirstHandler(commands, x)) else b.kind[x])
  {
    if commands != [] {
      var before, c := commands[..|commands| - 1], commands[|commands| - 1];
      ConvertedByFirst(b, before, x);
      assert commands == before + [c];
      FirstHandlerSnoc(before, c, x);
      assert Targets(commands, x) <==> Targets(before, x) || (c.SetGpioIrq? && c.pin == x);
    }
  }

  // ---------------------------------------------------------------- SPI devices

  datatype SpiPins = SpiPins(mosi: nat, miso: nat, clk: nat)

  // The check of set_remote, from the device d on one side to the device r on the other.
  predicate SpiWired(b: Board, side: Side, d: SpiPins, r: SpiPins) {
    && Wired(b, PinId(side, d.mosi), PinId(side.Other(), r.mosi))
    && Wired(b, PinId(side, d.miso), PinId(side.Other(), r.miso))
    && Wired(b, PinId(side, d.clk), PinId(side.Other(), r.clk))
  }

  // On every board that commands can build, the check of one device against the other succeeds in
  // both directions or in neither, and no conversion or level change alters its outcome.
  lemma SpiPairingIsMutual(b: Board, commands: seq<Command>, later: seq<Command>, host: SpiPins, soc: SpiPins)
    requires WellWired(b)
    requires forall c :: c in later ==> !c.Connect?
    ensures SpiWired(Run(b, commands), Host, host, soc) <==> SpiWired(Run(b, commands), Soc, soc, host)
    ensures SpiWired(Run(Run(b, commands), later), Host, host, soc) <==> SpiWired(Run(b, commands), Host, host, soc)
  {
    RunKeepsWellWired(b, commands);
    var t := Run(b, commands);
    forall x, y ensures Wired(Run(t, later), x, y) <==> Wired(t, x, y) {
      RunWires(t, later, x, y);
    }
  }
}
