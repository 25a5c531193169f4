/**
 The whole system: a host and a SoC with their pin graph. Every operation is proved to act on the
 pointers as the Board module says it acts on the abstract wiring.
 */
module Systems {
  import opened Board
  import opened Connections
  import opened Pins
  import opened SpiDevices
  import opened ProcessingUnits

  ghost function Id(p: Pin): PinId { PinId(p.side, p.pinIdx) }

  ghost function Ids(pins: seq<Pin>): seq<PinId> {
    seq(|pins|, i requires 0 <= i < |pins| => Id(pins[i]))
  }

  // What a pin object holds at one moment.
  datatype PinView = PinView(kind: Kind, connected: seq<Pin>, level: bool)

  ghost function KindOf(p: Pin): Kind
    reads p
  {
    if p.spi then SpiPin else if p.controller != null then Kind.GpioIrq(p.handler) else Kind.Gpio
  }

  ghost function View(p: Pin): PinView
    reads p
  {
    PinView(KindOf(p), p.connected, p.level)
  }

  // The pointer graph on a set of pins at one moment.
  type Snapshot = map<Pin, PinView>

  ghost function Snap(pins: set<Pin>): Snapshot
    reads pins
  {
    map p | p in pins :: View(p)
  }

  lemma SnapIs(pins: set<Pin>)
    ensures Snap(pins).Keys == pins
    ensures forall p :: p in pins ==> p in Snap(pins) && Snap(pins)[p] == View(p)
  {
  }

  // Pin p is as the board says.
  ghost predicate Shows(b: Board, p: Pin, v: PinView) {
    && Id(p) in b.wires && b.wires[Id(p)] == Ids(v.connected)
    && Id(p) in b.kind && b.kind[Id(p)] == v.kind
    && Id(p) in b.level && b.level[Id(p)] == v.level
  }

  // No two pins have one name.
  ghost predicate Named(pins: set<Pin>) {
    forall p, q :: p in pins && q in pins && Id(p) == Id(q) ==> p == q
  }

  // The pointer graph is the board: every pin the board names is one of its pins, and every
  // pointer stays among them.
  ghost predicate Refines(b: Board, g: Snapshot) {
    && Named(g.Keys) && b.kind.Keys == b.wires.Keys == b.level.Keys
    && (forall p :: p in g ==> Shows(b, p, g[p]))
    && (forall x :: x in b.wires ==> exists p :: p in g && Id(p) == x)
    && (forall p, q :: p in g && q in g[p].connected ==> q in g)
  }

  // A pin is in a neighbour vector exactly if the board has the wire.
  lemma WiredPointers(b: Board, g: Snapshot, p: Pin, q: Pin)
    requires Refines(b, g) && p in g && q in g
    ensures Wired(b, Id(p), Id(q)) <==> q in g[p].connected
  {
    var s := g[p].connected;
    if Wired(b, Id(p), Id(q)) {
      var k :| 0 <= k < |s| && Ids(s)[k] == Id(q);
      assert s[k] in s;
    }
    if q in s {
      var k :| 0 <= k < |s| && s[k] == q;
      assert Ids(s)[k] == Id(q);
    }
  }

  // The neighbour vectors are closed, symmetric, without loops and doubles.
  ghost predicate GoodGraph(g: Snapshot) {
    && (forall p, q :: p in g && q in g[p].connected ==> q in g && p in g[q].connected && p.side != q.side)
    && (forall p :: p in g ==> NoDup(g[p].connected))
  }

  // A well wired board makes a graph on which the conversion's unchecked search succeeds.
  lemma GraphOfBoard(b: Board, g: Snapshot)
    requires Refines(b, g) && WellWired(b)
    ensures GoodGraph(g)
  {
    forall p, q | p in g && q in g[p].connected ensures q in g && p in g[q].connected && p.side != q.side {
      WiredPointers(b, g, p, q);
      WiredPointers(b, g, q, p);
    }
    forall p | p in g ensures NoDup(g[p].connected) {
      assert NoDup(b.wires[Id(p)]);
      var s := g[p].connected;
      forall i, j | 0 <= i < j < |s| ensures s[i] != s[j] {
        assert Ids(s)[i] != Ids(s)[j];
      }
    }
  }

  lemma GraphOfSnap(pins: set<Pin>)
    requires GoodGraph(Snap(pins))
    ensures Graph(pins)
  {
    var g := Snap(pins);
    forall p, q | p in pins && q in p.connected ensures q in pins && p in q.connected && p != q {
      assert q in g[p].connected && p in g[q].connected;
    }
    forall p | p in pins ensures NoDup(p.connected) {
      assert NoDup(g[p].connected);
    }
  }

  // The names of the pins among the interrupts raised on a controller; SPI interrupts have none.
  ghost function PinNames(raised: seq<GenericIrq>): seq<PinId> {
    if raised == [] then []
    else
      var last := raised[|raised| - 1];
      PinNames(raised[..|raised| - 1]) + (if last.OfPin? then [Id(last.pin)] else [])
  }

  lemma {:induction false} PinNamesAppend(raised: seq<GenericIrq>, more: seq<GenericIrq>)
    ensures PinNames(raised + more) == PinNames(raised) + PinNames(more)
  {
    if more == [] {
      assert raised + more == raised;
    } else {
      PinNamesAppend(raised, more[..|more| - 1]);
      assert (raised + more)[..|raised + more| - 1] == raised + more[..|more| - 1];
    }
  }

  // The pins named by the two configurations.
  function PinIds(host: UnitConfig, soc: UnitConfig): set<PinId> {
    (set n | n in host.PinNumbers() :: PinId(Host, n)) + (set n | n in soc.PinNumbers() :: PinId(Soc, n))
  }

  function ConfigOf(host: UnitConfig, soc: UnitConfig, side: Side): UnitConfig { if side.Host? then host else soc }

  // The board of a configuration before its connections: no wires, all levels low.
  function InitialBoard(host: UnitConfig, soc: UnitConfig): Board {
    var ids := PinIds(host, soc);
    Board(map x | x in ids :: [],
          map x | x in ids :: if x.idx in ConfigOf(host, soc, x.side).gpioPins then Kind.Gpio else SpiPin,
          map x | x in ids :: false)
  }

  lemma PinIdsAre(host: UnitConfig, soc: UnitConfig, x: PinId)
    ensures x in PinIds(host, soc) <==> x.idx in ConfigOf(host, soc, x.side).PinNumbers()
  {
    if x.idx in ConfigOf(host, soc, x.side).PinNumbers() {
      assert x == PinId(x.side, x.idx);
    }
  }

  lemma InitialBoardIsWellWired(host: UnitConfig, soc: UnitConfig)
    ensures WellWired(InitialBoard(host, soc))
  {
    var b := InitialBoard(host, soc);
    assert forall x, y :: !Wired(b, x, y);
  }

  lemma RenamedIds(s: seq<Pin>, gpio: Pin, gpioIrq: Pin)
    requires Id(gpio) == Id(gpioIrq)
    ensures Ids(Renamed(s, gpio, gpioIrq)) == Ids(s)
  {
  }

  lemma InitialBoardIsRight(hostConfig: UnitConfig, socConfig: UnitConfig, hostPins: set<Pin>, socPins: set<Pin>)
    requires Unconnected(hostConfig, Host, hostPins) && Unconnected(socConfig, Soc, socPins)
    ensures var b := InitialBoard(hostConfig, socConfig);
            WellWired(b) && Refines(b, Snap(hostPins + socPins))
  {
    InitialBoardIsWellWired(hostConfig, socConfig);
    forall p | p in hostPins + socPins ensures Shows(InitialBoard(hostConfig, socConfig), p, View(p)) {
      PinIdsAre(hostConfig, socConfig, Id(p));
      assert Ids(p.connected) == [];
    }
    forall x | x in PinIds(hostConfig, socConfig) ensures exists p :: p in hostPins + socPins && Id(p) == x {
      PinIdsAre(hostConfig, socConfig, x);
      var p :| p in (if x.side.Host? then hostPins else socPins) && p.pinIdx == x.idx;
      assert p in hostPins + socPins && Id(p) == x;
    }
  }

  lemma {:induction false} AppendedIds(pins: set<Pin>, s: seq<Pin>, q: Pin)
    requires Named(pins) && q in pins && forall p :: p in s ==> p in pins
    ensures Ids(Append(s, q)) == Append(Ids(s), Id(q))
  {
    if q in s {
      var k :| 0 <= k < |s| && s[k] == q;
      assert Ids(s)[k] == Id(q);
    } else {
      forall k | 0 <= k < |s| ensures Ids(s)[k] != Id(q) {
        assert s[k] in pins;
      }
    }
  }

  // The interrupt GPIOs of a vector, if they all belong to one controller, are those the board
  // says are raised.
  lemma {:induction false} RaisedIds(b: Board, g: Snapshot, c: IrqController, s: seq<Pin>)
    requires forall p :: p in s ==> p in g && Shows(b, p, g[p])
    requires forall p :: p in s ==> (g[p].kind.GpioIrq? <==> p.controller == c)
    ensures PinNames(RaisedOn(c, s)) == IrqPins(b, Ids(s))
  {
    if s != [] {
      var rest, last := s[..|s| - 1], s[|s| - 1];
      assert forall p :: p in rest ==> p in s;
      RaisedIds(b, g, c, rest);
      assert [OfPin(last)][..0] == [] && RaisedOn(c, rest) + [] == RaisedOn(c, rest);
      PinNamesAppend(RaisedOn(c, rest), [OfPin(last)]);
      assert PinNames([OfPin(last)]) == [Id(last)];
      assert Ids(s)[..|s| - 1] == Ids(rest) && Ids(s)[|s| - 1] == Id(last);
      assert last in s;
    }
  }

  // The graph after connecting pins h and s.
  ghost function LinkSnap(g: Snapshot, h: Pin, s: Pin): Snapshot
    requires h in g && s in g
  {
    map p | p in g ::
      if p == h then g[p].(connected := Append(g[p].connected, s))
      else if p == s then g[p].(connected := Append(g[p].connected, h))
      else g[p]
  }

  lemma LinkShows(b: Board, g: Snapshot, h: Pin, s: Pin, p: Pin)
    requires Refines(b, g) && h in g && s in g && h.side == Host && s.side == Soc && p in g
    ensures Shows(Link(b, h.pinIdx, s.pinIdx), p, LinkSnap(g, h, s)[p])
  {
    assert Shows(b, p, g[p]) && Shows(b, h, g[h]) && Shows(b, s, g[s]);
    AppendedIds(g.Keys, g[h].connected, s);
    AppendedIds(g.Keys, g[s].connected, h);
    assert p != h ==> Id(p) != Id(h);
    assert p != s ==> Id(p) != Id(s);
  }

  // Connecting two pins in the graph is linking their names on the board.
  lemma LinkRefines(b: Board, g: Snapshot, h: Pin, s: Pin)
    requires Refines(b, g) && h in g && s in g && h.side == Host && s.side == Soc
    ensures Refines(Link(b, h.pinIdx, s.pinIdx), LinkSnap(g, h, s))
  {
    hide Shows;
    var t, g' := Link(b, h.pinIdx, s.pinIdx), LinkSnap(g, h, s);
    assert g'.Keys == g.Keys;
    assert Id(h) in b.wires && Id(s) in b.wires by {
      LinkShows(b, g, h, s, h);
      NamesExist(b, g, h);
      NamesExist(b, g, s);
    }
    assert t.wires.Keys == b.wires.Keys;
    forall p | p in g' ensures Shows(t, p, g'[p]) {
      LinkShows(b, g, h, s, p);
    }
  }

  lemma RefinesShows(b: Board, g: Snapshot, p: Pin)
    requires Refines(b, g) && p in g
    ensures Shows(b, p, g[p])
  {
  }

  lemma ShowsWires(b: Board, g: Snapshot, p: Pin)
    requires Refines(b, g) && p in g
    ensures Id(p) in b.wires && b.wires[Id(p)] == Ids(g[p].connected)
  {
    assert Shows(b, p, g[p]);
  }

  lemma NamesExist(b: Board, g: Snapshot, p: Pin)
    requires Refines(b, g) && p in g
    ensures Id(p) in b.wires && Id(p) in b.kind && b.kind[Id(p)] == g[p].kind
  {
    assert Shows(b, p, g[p]);
  }

  lemma LinkMissing(b: Board, host: nat, soc: nat)
    ensures PinId(Host, host) !in b.wires || PinId(Soc, soc) !in b.wires ==> Link(b, host, soc) == b
  {
  }

  // The two connect calls of one entry.
  method ConnectBoth(h: Pin, s: Pin, ghost pins: set<Pin>)
    requires h in pins && s in pins && h != s
    modifies h`connected, s`connected
    ensures Snap(pins) == LinkSnap(old(Snap(pins)), h, s)
  {
    s.Connect(h);
    h.Connect(s);
  }

  // set_gpio_irq, seen on the whole graph.
  method ConvertInUnit(u: ProcessingUnit, pinIdx: nat, handler: nat, ghost pins: set<Pin>)
    returns (rc: int, ghost gpio: Pin?, ghost gpioIrq: Pin?)
    requires u.Valid() && u.owned <= pins && Graph(pins)
    modifies u`gpios, u`gpioIrqs, u`owned, pins`connected
    ensures u.Valid()
    ensures rc == 0 || rc == -22
    ensures rc == 0 <==> exists p :: p in old(u.owned) && p.pinIdx == pinIdx && p.controller == null && !p.spi
    ensures rc != 0 ==> u.owned == old(u.owned) && Snap(pins) == old(Snap(pins))
    ensures rc == 0 ==> gpio != null && gpioIrq != null && gpio in old(u.owned) && gpioIrq !in pins && fresh(gpioIrq)
                        && gpio.pinIdx == pinIdx == gpioIrq.pinIdx && gpio.side == u.side == gpioIrq.side
                        && gpio.controller == null && !gpio.spi
                        && u.owned == old(u.owned) - {gpio} + {gpioIrq}
                        && Snap(pins - {gpio} + {gpioIrq}) == ConvertSnap(old(Snap(pins)), gpio, gpioIrq, handler)
  {
    hide ProcessingUnit.Vectors, ProcessingUnit.Devices, Graph;
    rc, gpio, gpioIrq := u.SetGpioIrq(pinIdx, handler, pins);
    if rc == 0 {
      ghost var g, g' := old(Snap(pins)), Snap(pins - {gpio} + {gpioIrq});
      assert g'.Keys == ConvertSnap(g, gpio, gpioIrq, handler).Keys;
      forall p | p in g' ensures g'[p] == ConvertSnap(g, gpio, gpioIrq, handler)[p] {
        if p != gpioIrq {
          assert p in pins && g[p] == old(View(p));
        }
      }
    } else {
      assert forall p :: p in pins ==> View(p) == old(View(p));
    }
  }

  // The graph after pin gpioIrq has taken the place of pin gpio.
  ghost function ConvertSnap(g: Snapshot, gpio: Pin, gpioIrq: Pin, handler: nat): Snapshot
    requires gpio in g
  {
    map p | p in g.Keys - {gpio} + {gpioIrq} ::
      if p == gpioIrq then PinView(Kind.GpioIrq(handler), g[gpio].connected, false)
      else g[p].(connected := Renamed(g[p].connected, gpio, gpioIrq))
  }

  lemma ConvertKeepsPointersInside(g: Snapshot, gpio: Pin, gpioIrq: Pin, handler: nat)
    requires GoodGraph(g) && gpio in g && gpioIrq !in g
    ensures var g' := ConvertSnap(g, gpio, gpioIrq, handler);
            forall p, q :: p in g' && q in g'[p].connected ==> q in g'
  {
    var g' := ConvertSnap(g, gpio, gpioIrq, handler);
    forall p, q | p in g' && q in g'[p].connected ensures q in g' {
      if p == gpioIrq {
        assert q in g[gpio].connected;
      } else {
        var s := g[p].connected;
        var k :| 0 <= k < |s| && Renamed(s, gpio, gpioIrq)[k] == q;
        assert s[k] in s;
      }
    }
  }

  lemma ConvertShows(b: Board, g: Snapshot, gpio: Pin, gpioIrq: Pin, handler: nat, p: Pin)
    requires Refines(b, g) && gpio in g && gpioIrq !in g && Id(gpioIrq) == Id(gpio) && g[gpio].kind.Gpio?
    requires p in ConvertSnap(g, gpio, gpioIrq, handler)
    ensures Shows(Convert(b, Id(gpio), handler), p, ConvertSnap(g, gpio, gpioIrq, handler)[p])
  {
    assert Shows(b, gpio, g[gpio]);
    if p != gpioIrq {
      assert Shows(b, p, g[p]) && Id(p) != Id(gpio);
      RenamedIds(g[p].connected, gpio, gpioIrq);
    }
  }

  // Putting a new interrupt GPIO in the place of a plain one is converting the pin's name.
  lemma ConvertRefines(b: Board, g: Snapshot, gpio: Pin, gpioIrq: Pin, handler: nat)
    requires Refines(b, g) && GoodGraph(g) && gpio in g && gpioIrq !in g && Id(gpioIrq) == Id(gpio) && g[gpio].kind.Gpio?
    ensures Refines(Convert(b, Id(gpio), handler), ConvertSnap(g, gpio, gpioIrq, handler))
  {
    hide GoodGraph, Shows;
    var t, g' := Convert(b, Id(gpio), handler), ConvertSnap(g, gpio, gpioIrq, handler);
    NamesExist(b, g, gpio);
    ConvertKeepsPointersInside(g, gpio, gpioIrq, handler);
    forall p | p in g' ensures Shows(t, p, g'[p]) {
      ConvertShows(b, g, gpio, gpioIrq, handler, p);
    }
    forall x | x in t.wires ensures exists p :: p in g' && Id(p) == x {
      var p :| p in g && Id(p) == x;
      assert Id(if p == gpio then gpioIrq else p) == x;
    }
  }

  // set_gpio_value, seen on the whole graph.
  method ValueInUnit(u: ProcessingUnit, pinIdx: nat, value: bool,
                     ghost pins: set<Pin>, ghost controllers: set<IrqController>)
    returns (ghost pin: Pin?)
    requires u.Valid() && u.owned <= pins && Graph(pins)
    requires forall p :: p in pins && p.controller != null ==> p.controller in controllers
    requires forall c :: c in controllers ==> c.Valid()
    modifies pins`level, controllers`pending, controllers`signals, controllers`raised
    ensures pin == null <==> forall p :: p in u.owned && !p.spi ==> p.pinIdx != pinIdx
    ensures pin != null ==> pin in u.owned && !pin.spi && pin.pinIdx == pinIdx
    ensures Snap(pins) == if pin == null then old(Snap(pins)) else ValueSnap(old(Snap(pins)), pin, value)
    ensures forall c :: c in controllers ==>
              c.Valid() && c.raised == old(c.raised) + (if pin == null then [] else RaisedOn(c, pin.connected))
  {
    hide ProcessingUnit.Vectors, ProcessingUnit.Devices, Graph;
    pin := u.SetGpioValue(pinIdx, value, pins, controllers);
    assert forall p :: p in pins ==>
                         View(p) == old(View(p)).(level := if pin != null && (p == pin || p in pin.connected)
                                                           then value else old(p.level));
  }

  // The graph after pin x and its neighbours have taken a value.
  ghost function ValueSnap(g: Snapshot, x: Pin, value: bool): Snapshot
    requires x in g
  {
    map p | p in g :: g[p].(level := if p == x || p in g[x].connected then value else g[p].level)
  }

  // Setting a pin in the graph is setting its name on the board.
  lemma ValueRefines(b: Board, g: Snapshot, x: Pin, value: bool)
    requires Refines(b, g) && x in g && !g[x].kind.SpiPin?
    ensures Refines(SetValue(b, Id(x), value), ValueSnap(g, x, value))
  {
    var t, g' := SetValue(b, Id(x), value), ValueSnap(g, x, value);
    assert Shows(b, x, g[x]) && g'.Keys == g.Keys;
    forall p | p in g' ensures Shows(t, p, g'[p]) {
      assert Shows(b, p, g[p]);
      WiredPointers(b, g, x, p);
    }
  }

  lemma SettableIff(b: Board, g: Snapshot, x: PinId)
    requires Refines(b, g)
    ensures Settable(b, x) <==> exists p :: p in g && Id(p) == x && !g[p].kind.SpiPin?
    ensures !Settable(b, x) ==> forall value :: SetValue(b, x, value) == b
  {
    if x in b.wires {
      var p :| p in g && Id(p) == x;
      assert Shows(b, p, g[p]);
    }
  }

  lemma ConvertibleIff(b: Board, g: Snapshot, x: PinId)
    requires Refines(b, g)
    ensures Convertible(b, x) <==> exists p :: p in g && Id(p) == x && g[p].kind.Gpio?
    ensures !Convertible(b, x) ==> forall handler :: Convert(b, x, handler) == b
  {
    if x in b.wires {
      var p :| p in g && Id(p) == x;
      assert Shows(b, p, g[p]);
    }
  }

  class System {
    const host: ProcessingUnit
    const soc: ProcessingUnit
    ghost const hostConfig: UnitConfig
    ghost const socConfig: UnitConfig
    // every call so far that may touch the graph, and the board that it leads to
    ghost var history: seq<Command>
    ghost var board: Board
    ghost var pins: set<Pin>

    ghost predicate Units()
      reads this, host, soc, host.controller, soc.controller
    {
      && host.Valid() && soc.Valid() && host.side == Host && soc.side == Soc
      && host.config == hostConfig && soc.config == socConfig
      && host != soc && host.controller != soc.controller
      && host.controller.Valid() && soc.controller.Valid()
      && pins == host.owned + soc.owned
    }

    // The refinement: the pointer graph is the board that the commands of the history make of the
    // unconnected pins of the configuration.
    ghost predicate Refined()
      reads this, host, soc, host.controller, soc.controller, pins
    {
      Units() && Refines(board, Snap(pins)) && board == Run(InitialBoard(hostConfig, socConfig), history)
    }

    // What was raised on the controller of each side: what the level changes of the history, and
    // of the command c after them, raise on the board.
    ghost predicate RaisesAfter(c: Command)
      reads this, host, soc, host.controller, soc.controller
    {
      forall side: Side :: RaisedSince(side, c)
    }

    ghost predicate RaisedSince(side: Side, c: Command)
      reads this, host, soc, host.controller, soc.controller
    {
      PinNames(UnitOf(side).controller.raised) ==
      RaisedIn(InitialBoard(hostConfig, socConfig), history, side) + RaisedBy(board, c, side)
    }

    ghost predicate RaisesKept()
      reads this, host, soc, host.controller, soc.controller
    {
      forall side: Side ::
        PinNames(UnitOf(side).controller.raised) == RaisedIn(InitialBoard(hostConfig, socConfig), history, side)
    }

    ghost predicate Valid()
      reads this, host, soc, host.controller, soc.controller, pins
    {
      Refined() && RaisesKept()
    }

    function UnitOf(side: Side): ProcessingUnit { if side.Host? then host else soc }

    constructor (hostConfig: UnitConfig, socConfig: UnitConfig)
      requires NoDup(hostConfig.PinNumbers()) && NoDup(socConfig.PinNumbers())
      ensures Valid() && fresh(pins) && fresh(host) && fresh(soc)
      ensures this.hostConfig == hostConfig && this.socConfig == socConfig && history == []
      ensures host.controller.raised == [] && soc.controller.raised == []
      ensures SpiAsConfigured(hostConfig, host.controller, host.spiDevs)
      ensures SpiAsConfigured(socConfig, soc.controller, soc.spiDevs)
      ensures forall d :: d in host.spiDevs + soc.spiDevs ==> !d.irq.isEnabled && !d.isListening && d.slaveCallback == 0
    {
      hide Refines, InitialBoard, WellWired, ProcessingUnit.Vectors, ProcessingUnit.Devices;
      var h, s, b := MakeUnits(hostConfig, socConfig);
      host, soc, board := h, s, b;
      this.hostConfig, this.socConfig, history := hostConfig, socConfig, [];
      pins := h.owned + s.owned;
    }

    // Whatever has been called, the graph is symmetric, without doubles, loops and wires within
    // one unit, and every pointer leads to a pin that a unit owns.
    lemma GraphHolds()
      requires Refined()
      ensures WellWired(board) && GoodGraph(Snap(pins)) && Graph(pins)
      ensures forall p, q :: p in pins && q in p.connected ==> q in UnitOf(p.side.Other()).owned
    {
      hide ProcessingUnit.Vectors, ProcessingUnit.Devices, Refines, WellWired;
      InitialBoardIsWellWired(hostConfig, socConfig);
      RunKeepsWellWired(InitialBoard(hostConfig, socConfig), history);
      GraphOfBoard(board, Snap(pins));
      GraphOfSnap(pins);
      assert forall p :: p in pins ==> Snap(pins)[p].connected == p.connected;
    }

    // Whatever has been called, a unit owns a pin of each configured number and no other.
    lemma OwnsConfiguredPins(side: Side, n: nat)
      requires Refined()
      ensures (exists p :: p in UnitOf(side).owned && p.pinIdx == n) <==>
              n in ConfigOf(hostConfig, socConfig, side).PinNumbers()
    {
      hide ProcessingUnit.Vectors, ProcessingUnit.Devices, WellWired;
      var x := PinId(side, n);
      InitialBoardIsWellWired(hostConfig, socConfig);
      RunKeepsWellWired(InitialBoard(hostConfig, socConfig), history);
      PinIdsAre(hostConfig, socConfig, x);
      if x in board.wires {
        var p :| p in Snap(pins) && Id(p) == x;
        assert p in UnitOf(side).owned;
      }
      if p :| p in UnitOf(side).owned && p.pinIdx == n {
        assert p in Snap(pins) && Id(p) == x;
        NamesExist(board, Snap(pins), p);
      }
    }

    // get_pin finds a pin exactly if the board has it.
    lemma FoundPin(side: Side, pin: Pin?, pinIdx: nat)
      requires Refined()
      requires pin != null ==> pin in UnitOf(side).owned && pin.pinIdx == pinIdx
      requires pin == null ==> forall q :: q in UnitOf(side).owned ==> q.pinIdx != pinIdx
      ensures pin != null ==>
                pin in pins && pin in Snap(pins) && Id(pin) == PinId(side, pinIdx) && Shows(board, pin, View(pin))
      ensures pin == null ==> PinId(side, pinIdx) !in board.wires
    {
      hide ProcessingUnit.Vectors, ProcessingUnit.Devices;
      assert pin != null ==> pin in Snap(pins);
      if PinId(side, pinIdx) in board.wires {
        var p :| p in Snap(pins) && Id(p) == PinId(side, pinIdx);
        assert p in UnitOf(side).owned;
      }
    }

    lemma NothingRaised(c: Command)
      requires RaisesKept() && !c.SetGpioValue?
      ensures RaisesAfter(c)
    {
      forall side: Side ensures RaisedSince(side, c) {
        assert RaisedBy(board, c, side) == [];
      }
    }

    // One more command in the history, once the graph and the raises are as the board says after it.
    ghost method Record(c: Command)
      requires Units() && Refines(Do(board, c), Snap(pins)) && board == Run(InitialBoard(hostConfig, socConfig), history)
      requires RaisesAfter(c)
      modifies this`board, this`history
      ensures Valid() && history == old(history) + [c] && board == Do(old(board), c)
    {
      hide Run, InitialBoard, Do, ProcessingUnit.Valid, IrqController.Valid, Refines, RaisedIn, RaisedBy, PinNames;
      RunSnoc(InitialBoard(hostConfig, socConfig), history, c);
      ghost var start := InitialBoard(hostConfig, socConfig);
      forall side: Side
        ensures PinNames(UnitOf(side).controller.raised) == RaisedIn(start, history + [c], side)
      {
        assert RaisedSince(side, c);
        RaisedInSnoc(start, history, c, side);
      }
      history := history + [c];
      board := Do(board, c);
    }

    // One entry of the connection list: both directions of the wire, if both pins exist.
    method ConnectPins(hostIdx: nat, socIdx: nat)
      requires Valid()
      modifies this`board, this`history, pins`connected
      ensures Valid() && pins == old(pins)
      ensures history == old(history) + [Command.Connect(hostIdx, socIdx)]
      ensures board == Link(old(board), hostIdx, socIdx)
    {
      hide Refines, Run, InitialBoard, Link, Shows, Snap, LinkSnap, RaisedIn, PinNames, RaisesAfter,
        ProcessingUnit.Vectors, ProcessingUnit.Devices;
      ghost var was := Snap(pins);
      var hostPin := host.GetPin(hostIdx);
      var socPin := soc.GetPin(socIdx);
      FoundPin(Host, hostPin, hostIdx);
      FoundPin(Soc, socPin, socIdx);
      if hostPin != null && socPin != null {
        ConnectBoth(hostPin, socPin, pins);
        LinkRefines(board, was, hostPin, socPin);
      }
      LinkMissing(board, hostIdx, socIdx);
      NothingRaised(Command.Connect(hostIdx, socIdx));
      Record(Command.Connect(hostIdx, socIdx));
    }

    // The connection loop of load_config. True: an entry was out of range for an int, and the
    // loop has stopped there.
    method LoadConnections(entries: seq<string>) returns (threw: bool)
      requires Valid()
      modifies this`board, this`history, pins`connected
      ensures Valid() && pins == old(pins)
      ensures history == old(history) + Commands(entries)
      ensures Loaded(board, threw) == Load(old(board), entries)
    {
      hide Valid, Parse, Link;
      for i := 0 to |entries|
        invariant Valid() && pins == old(pins)
        invariant Loaded(board, false) == Load(old(board), entries[..i])
        invariant history == old(history) + Commands(entries[..i])
        invariant forall k :: 0 <= k < i ==> !Parse(entries[k]).OutOfRange?
      {
        assert entries[..i + 1][..i] == entries[..i];
        CommandsSnoc(entries[..i], entries[i]);
        assert entries[..i] + [entries[i]] == entries[..i + 1];
        match Parse(entries[i]) {
          case NoMatch =>
          case OutOfRange =>
            LoadThrows(old(board), entries, i);
            CommandsStop(entries, i);
            return true;
          case Pins(hostIdx, socIdx) =>
            ConnectPins(hostIdx, socIdx);
        }
      }
      assert entries[..|entries|] == entries;
      return false;
    }

    // set_gpio_irq on the unit of one side.
    method SetGpioIrq(side: Side, pinIdx: nat, handler: nat) returns (rc: int)
      requires Valid()
      modifies this`board, this`history, this`pins
      modifies UnitOf(side)`gpios, UnitOf(side)`gpioIrqs, UnitOf(side)`owned, pins`connected
      ensures Valid()
      ensures history == old(history) + [Command.SetGpioIrq(PinId(side, pinIdx), handler)]
      ensures board == Convert(old(board), PinId(side, pinIdx), handler)
      ensures rc == (if Convertible(old(board), PinId(side, pinIdx)) then 0 else -22)
      ensures rc != 0 ==> pins == old(pins) && Snap(pins) == old(Snap(pins))
    {
      hide Refines, Run, InitialBoard, Convert, ConvertSnap, Snap, GoodGraph, Graph, RaisedIn, PinNames, RaisesAfter,
        ProcessingUnit.Vectors, ProcessingUnit.Devices;
      ghost var was := Snap(pins);
      assert Graph(pins) && GoodGraph(was) by {
        GraphHolds();
      }
      ghost var gpio, gpioIrq;
      SnapIs(pins);
      ConvertibleIff(board, was, PinId(side, pinIdx));
      rc, gpio, gpioIrq := ConvertInUnit(UnitOf(side), pinIdx, handler, pins);
      if rc == 0 {
        ConvertRefines(board, was, gpio, gpioIrq, handler);
      }
      ghost var before := pins;
      pins := host.owned + soc.owned;
      assert pins == if rc == 0 then before - {gpio} + {gpioIrq} else before;
      NothingRaised(Command.SetGpioIrq(PinId(side, pinIdx), handler));
      Record(Command.SetGpioIrq(PinId(side, pinIdx), handler));
    }

    lemma TwoControllers()
      requires Refined()
      ensures forall p :: p in pins && p.controller != null ==> p.controller in {host.controller, soc.controller}
    {
      hide ProcessingUnit.Vectors, ProcessingUnit.Devices, Refines, Run, InitialBoard;
      forall p | p in pins ensures p.controller != null ==> p.controller in {host.controller, soc.controller} {
        UnitOf(p.side).ControllerOf(p);
      }
    }

    ghost predicate RaisesOf(x: Pin)
      reads this, x
    {
      && Id(x) in board.wires
      && PinNames(RaisedOn(UnitOf(x.side.Other()).controller, x.connected)) == IrqPins(board, board.wires[Id(x)])
      && RaisedOn(UnitOf(x.side).controller, x.connected) == []
    }

    // The interrupt GPIOs among the neighbours of x are those that the board says are raised, all
    // on the controller of the other unit.
    lemma RaisesAre(x: Pin)
      requires Refined() && x in pins
      ensures RaisesOf(x)
    {
      hide ProcessingUnit.Vectors, ProcessingUnit.Devices, Refines, WellWired, GoodGraph, Graph, Shows, Run, InitialBoard;
      var g, other := Snap(pins), UnitOf(x.side.Other());
      GraphHolds();
      forall p | p in pins ensures p in g && g[p] == View(p) && Shows(board, p, g[p]) {
        RefinesShows(board, g, p);
      }
      forall p | p in x.connected
        ensures p in g && (g[p].kind.GpioIrq? <==> p.controller == other.controller)
        ensures p.controller != UnitOf(x.side).controller
      {
        other.ControllerOf(p);
      }
      ShowsWires(board, g, x);
      RaisedIds(board, g, other.controller, x.connected);
      RaisedOnNobody(UnitOf(x.side).controller, x.connected);
    }

    // What a level change of pin has raised on side s is what the board says, board and history
    // being still those before it.
    lemma RaisesFollow(id: PinId, value: bool, pin: Pin?, s: Side, was: seq<GenericIrq>)
      requires PinNames(was) == RaisedIn(InitialBoard(hostConfig, socConfig), history, s)
      requires pin == null <==> !Settable(board, id)
      requires pin != null ==> Id(pin) == id && RaisesOf(pin)
      requires UnitOf(s).controller.raised ==
               was + (if pin == null then [] else RaisedOn(UnitOf(s).controller, pin.connected))
      ensures RaisedSince(s, Command.SetGpioValue(id, value))
    {
      hide Settable, RaisedOn, IrqPins, RaisedIn, InitialBoard;
      PinNamesAppend(was, if pin == null then [] else RaisedOn(UnitOf(s).controller, pin.connected));
    }

    // The call on the objects, before it is recorded: the graph is as the board says after it.
    method ChangeLevel(side: Side, pinIdx: nat, value: bool) returns (ghost pin: Pin?)
      requires Refined()
      modifies pins`level
      modifies {host.controller, soc.controller}`pending, {host.controller, soc.controller}`signals,
               {host.controller, soc.controller}`raised
      ensures Units() && Refines(SetValue(board, PinId(side, pinIdx), value), Snap(pins))
      ensures pin == null <==> !Settable(board, PinId(side, pinIdx))
      ensures pin != null ==> pin in pins && Id(pin) == PinId(side, pinIdx) && pin.connected == old(pin.connected)
      ensures forall s: Side ::
                UnitOf(s).controller.raised ==
                old(UnitOf(s).controller.raised) + (if pin == null then [] else RaisedOn(UnitOf(s).controller, pin.connected))
    {
      hide Refines, Run, InitialBoard, SetValue, ValueSnap, Snap, GoodGraph, Graph, Settable, RaisedOn,
        IrqController.Valid, ProcessingUnit.Valid;
      ghost var was := Snap(pins);
      SnapIs(pins);
      SettableOwned(side, pinIdx);
      TwoControllers();
      assert Graph(pins) by {
        GraphHolds();
      }
      pin := ValueInUnit(UnitOf(side), pinIdx, value, pins, {host.controller, soc.controller});
      if pin != null {
        UnitOf(side).SideOf(pin);
        ValueRefines(board, was, pin, value);
      }
    }

    // set_gpio_value on the unit of one side. The pins that it raises are those the board says, in
    // that order, each once, on the controller of the other unit; nothing else is raised.
    method SetGpioValue(side: Side, pinIdx: nat, value: bool) returns (ghost raised: seq<GenericIrq>)
      requires Valid()
      modifies this`board, this`history, pins`level
      modifies {host.controller, soc.controller}`pending, {host.controller, soc.controller}`signals,
               {host.controller, soc.controller}`raised
      ensures Valid() && pins == old(pins)
      ensures history == old(history) + [Command.SetGpioValue(PinId(side, pinIdx), value)]
      ensures board == SetValue(old(board), PinId(side, pinIdx), value)
      ensures PinNames(raised) == Raises(old(board), PinId(side, pinIdx))
      ensures UnitOf(side.Other()).controller.raised == old(UnitOf(side.Other()).controller.raised) + raised
      ensures UnitOf(side).controller.raised == old(UnitOf(side).controller.raised)
    {
      hide Units, Refines, SetValue, Settable, RaisedOn, IrqPins, Run, InitialBoard, RaisedIn, RaisedBy, RaisedSince;
      ghost var id := PinId(side, pinIdx);
      forall x | x in pins ensures RaisesOf(x) {
        RaisesAre(x);
      }
      ghost var pin := ChangeLevel(side, pinIdx, value);
      forall s: Side ensures RaisedSince(s, Command.SetGpioValue(id, value)) {
        RaisesFollow(id, value, pin, s, old(UnitOf(s).controller.raised));
      }
      Record(Command.SetGpioValue(id, value));
      raised := if pin == null then [] else RaisedOn(UnitOf(side.Other()).controller, pin.connected);
    }

    // The pairing loops of load_config. They connect a host device and a SoC device whenever the
    // host device's check succeeds; the assertion that the SoC device's check then succeeds too
    // cannot fail. Each device ends with the last device that it is wired to.
    method PairSpi()
      requires Valid()
      modifies host.spiDevs`remote, soc.spiDevs`remote
      ensures Valid()
      ensures forall h :: h in host.spiDevs ==> h.remote == LastOf(soc.spiDevs, Partners(h, soc.spiDevs), old(h.remote))
      ensures forall s :: s in soc.spiDevs ==> s.remote == LastOf(host.spiDevs, Partners(s, host.spiDevs), old(s.remote))
      ensures forall h, s | h in host.spiDevs && s in soc.spiDevs ::
                Partners(h, soc.spiDevs) == {s} && Partners(s, host.spiDevs) == {h} ==> h.remote == s && s.remote == h
    {
      hide Valid, SpiDevice.WiredTo, LastOf, Partners;
      assert SpiFacts() by {
        SpiFactsHold();
      }
      var hs, ss := host.spiDevs, soc.spiDevs;
      PairAll(hs, ss);
      forall h, s | h in hs && s in ss && Partners(h, ss) == {s} && Partners(s, hs) == {h}
        ensures h.remote == s && s.remote == h
      {
        OnePartnerIsLinked(ss, {s}, old(h.remote), s);
        OnePartnerIsLinked(hs, {h}, old(s.remote), h);
      }
    }

    // A device is in one unit and once in its vector, and the check of one device against another
    // in the other unit is the same from both sides.
    ghost predicate SpiFacts()
      reads this, host, soc, pins
    {
      && (forall d :: d in host.spiDevs + soc.spiDevs ==> d.mosi in pins && d.miso in pins && d.clk in pins)
      && NoDup(host.spiDevs) && NoDup(soc.spiDevs)
      && (forall h, s :: h in host.spiDevs && s in soc.spiDevs ==> h != s && Agree(h, s))
    }

    lemma SpiFactsHold()
      requires Valid()
      ensures SpiFacts()
    {
      hide ProcessingUnit.Vectors, ProcessingUnit.Devices, Refines, Run, InitialBoard, WellWired, GoodGraph;
      GraphHolds();
      host.DevicePins();
      soc.DevicePins();
      forall h, s | h in host.spiDevs && s in soc.spiDevs ensures h != s && Agree(h, s) {
        assert h.mosi.side != s.mosi.side;
      }
    }

    // The check of set_remote is the one that the board makes on the pin numbers.
    lemma SpiCheckOnBoard(side: Side, d: SpiDevice, r: SpiDevice)
      requires Refined() && d in UnitOf(side).spiDevs && r in UnitOf(side.Other()).spiDevs
      ensures d.mosi in pins && d.miso in pins && d.clk in pins
      ensures d.WiredTo(r) <==>
              SpiWired(board, side, SpiPins(d.mosi.pinIdx, d.miso.pinIdx, d.clk.pinIdx),
                       SpiPins(r.mosi.pinIdx, r.miso.pinIdx, r.clk.pinIdx))
    {
      hide ProcessingUnit.Vectors, ProcessingUnit.Devices, Refines, Run, InitialBoard, Wired;
      host.DevicePins();
      soc.DevicePins();
      var g := Snap(pins);
      WiredPointers(board, g, d.mosi, r.mosi);
      WiredPointers(board, g, d.miso, r.miso);
      WiredPointers(board, g, d.clk, r.clk);
    }

    lemma SettableOwned(side: Side, pinIdx: nat)
      requires Refined()
      ensures Settable(board, PinId(side, pinIdx)) <==> exists p :: p in UnitOf(side).owned && !p.spi && p.pinIdx == pinIdx
      ensures !Settable(board, PinId(side, pinIdx)) ==> forall value :: SetValue(board, PinId(side, pinIdx), value) == board
    {
      hide ProcessingUnit.Vectors, ProcessingUnit.Devices, Refines, Run, InitialBoard, SetValue, Settable;
      var g := Snap(pins);
      SettableIff(board, g, PinId(side, pinIdx));
      if p :| p in g && Id(p) == PinId(side, pinIdx) && !g[p].kind.SpiPin? {
        assert p in UnitOf(side).owned && !p.spi;
      }
      if p :| p in UnitOf(side).owned && !p.spi && p.pinIdx == pinIdx {
        assert p in g && Id(p) == PinId(side, pinIdx) && !g[p].kind.SpiPin?;
      }
    }
  }

  // The devices of the list that d is wired to.
  ghost function Partners(d: SpiDevice, devs: seq<SpiDevice>): set<SpiDevice>
    reads d.mosi, d.miso, d.clk
  {
    set r | r in devs && d.WiredTo(r)
  }

  // The last device of the list that is a partner, or what there was before.
  ghost function LastOf(devs: seq<SpiDevice>, partners: set<SpiDevice>, before: SpiDevice?): SpiDevice? {
    if devs == [] then before
    else if devs[|devs| - 1] in partners then devs[|devs| - 1]
    else LastOf(devs[..|devs| - 1], partners, before)
  }

  // The check of h against s gives the same from both sides.
  ghost predicate Agree(h: SpiDevice, s: SpiDevice)
    reads h.mosi, h.miso, h.clk, s.mosi, s.miso, s.clk
  {
    h.WiredTo(s) <==> s.WiredTo(h)
  }

  // The wiring of two lists of devices, as pairs: the same from both sides.
  ghost predicate Pairs(hs: seq<SpiDevice>, ss: seq<SpiDevice>, wired: set<(SpiDevice, SpiDevice)>)
    reads set d | d in hs :: d.mosi, set d | d in hs :: d.miso, set d | d in hs :: d.clk
    reads set d | d in ss :: d.mosi, set d | d in ss :: d.miso, set d | d in ss :: d.clk
  {
    forall h, s :: h in hs && s in ss ==> (h.WiredTo(s) <==> (h, s) in wired) && (s.WiredTo(h) <==> (h, s) in wired)
  }

  // The inner loop: one host device against every SoC device.
  method PairOne(h: SpiDevice, ss: seq<SpiDevice>, ghost wired: set<(SpiDevice, SpiDevice)>)
    requires NoDup(ss) && h !in ss && Pairs([h], ss, wired)
    modifies h`remote, ss`remote
    ensures h.remote == LastOf(ss, SocPartners(wired, h), old(h.remote))
    ensures forall s :: s in ss ==> s.remote == (if (h, s) in wired then h else old(s.remote))
  {
    hide SpiDevice.WiredTo;
    assert h in [h];
    for j := 0 to |ss|
      invariant h.remote == LastOf(ss[..j], SocPartners(wired, h), old(h.remote))
      invariant forall k :: 0 <= k < |ss| ==>
                  ss[k].remote == (if k < j && (h, ss[k]) in wired then h else old(ss[k].remote))
    {
      assert ss[..j + 1][..j] == ss[..j];
      var s := ss[j];
      assert s in ss && forall k :: 0 <= k < |ss| && k != j ==> ss[k] != s;
      var ok := h.SetRemote(s);
      if ok {
        var asserted := s.SetRemote(h);
        assert asserted;
      }
    }
    assert ss[..|ss|] == ss;
  }

  ghost function SocPartners(wired: set<(SpiDevice, SpiDevice)>, h: SpiDevice): set<SpiDevice> {
    set p | p in wired && p.0 == h :: p.1
  }

  ghost function HostPartners(wired: set<(SpiDevice, SpiDevice)>, s: SpiDevice): set<SpiDevice> {
    set p | p in wired && p.1 == s :: p.0
  }

  // The outer loop.
  method PairLoop(hs: seq<SpiDevice>, ss: seq<SpiDevice>, ghost wired: set<(SpiDevice, SpiDevice)>)
    requires NoDup(hs) && NoDup(ss) && Pairs(hs, ss, wired)
    requires forall h :: h in hs ==> h !in ss
    modifies hs`remote, ss`remote
    ensures forall h :: h in hs ==> h.remote == LastOf(ss, SocPartners(wired, h), old(h.remote))
    ensures forall s :: s in ss ==> s.remote == LastOf(hs, HostPartners(wired, s), old(s.remote))
  {
    hide SpiDevice.WiredTo, SocPartners;
    for i := 0 to |hs|
      invariant forall k :: 0 <= k < i ==> hs[k].remote == LastOf(ss, SocPartners(wired, hs[k]), old(hs[k].remote))
      invariant forall k :: i <= k < |hs| ==> hs[k].remote == old(hs[k].remote)
      invariant forall s :: s in ss ==> s.remote == LastOf(hs[..i], HostPartners(wired, s), old(s.remote))
    {
      assert hs[..i + 1][..i] == hs[..i];
      var h := hs[i];
      assert h in hs && forall k :: 0 <= k < |hs| && k != i ==> hs[k] != h && hs[k] in hs;
      assert Pairs([h], ss, wired);
      PairOne(h, ss, wired);
      assert forall s :: (h, s) in wired <==> h in HostPartners(wired, s);
    }
    assert hs[..|hs|] == hs;
  }

  method PairAll(hs: seq<SpiDevice>, ss: seq<SpiDevice>)
    requires NoDup(hs) && NoDup(ss)
    requires forall h, s :: h in hs && s in ss ==> h != s && Agree(h, s)
    modifies hs`remote, ss`remote
    ensures forall h :: h in hs ==> h.remote == LastOf(ss, Partners(h, ss), old(h.remote))
    ensures forall s :: s in ss ==> s.remote == LastOf(hs, Partners(s, hs), old(s.remote))
  {
    hide SpiDevice.WiredTo, LastOf;
    ghost var wired := set h, s | h in hs && s in ss && h.WiredTo(s) :: (h, s);
    assert forall h, s :: h in hs && s in ss ==> Agree(h, s) && ((h, s) in wired <==> h.WiredTo(s));
    assert forall h :: h in hs ==> SocPartners(wired, h) == Partners(h, ss);
    assert forall s :: s in ss ==> HostPartners(wired, s) == Partners(s, hs);
    PairLoop(hs, ss, wired);
  }

  // With one partner in the list the link goes to it: so the links made by the pairing loops are
  // mutual when no device is wired to two others.
  lemma {:induction false} OnePartnerIsLinked(devs: seq<SpiDevice>, partners: set<SpiDevice>,
                                              before: SpiDevice?, r: SpiDevice)
    requires r in devs && partners == {r}
    ensures LastOf(devs, partners, before) == r
  {
    if devs[|devs| - 1] != r {
      OnePartnerIsLinked(devs[..|devs| - 1], partners, before, r);
    }
  }

  method MakeUnits(hostConfig: UnitConfig, socConfig: UnitConfig)
    returns (host: ProcessingUnit, soc: ProcessingUnit, ghost board: Board)
    requires NoDup(hostConfig.PinNumbers()) && NoDup(socConfig.PinNumbers())
    ensures fresh(host) && fresh(soc) && host != soc && fresh(host.owned) && fresh(soc.owned)
    ensures host.Valid() && soc.Valid() && host.side == Host && soc.side == Soc
    ensures host.controller != soc.controller && host.controller.Valid() && soc.controller.Valid()
    ensures host.controller.raised == [] && soc.controller.raised == []
    ensures host.config == hostConfig && soc.config == socConfig
    ensures SpiAsConfigured(hostConfig, host.controller, host.spiDevs)
    ensures SpiAsConfigured(socConfig, soc.controller, soc.spiDevs)
    ensures forall d :: d in host.spiDevs + soc.spiDevs ==> !d.irq.isEnabled && !d.isListening && d.slaveCallback == 0
    ensures WellWired(board) && Refines(board, Snap(host.owned + soc.owned))
    ensures board == InitialBoard(hostConfig, socConfig)
  {
    soc := new ProcessingUnit(socConfig, Soc);
    host := new ProcessingUnit(hostConfig, Host);
    board := InitialBoard(hostConfig, socConfig);
    InitialBoardIsRight(hostConfig, socConfig, host.owned, soc.owned);
  }
}
