/**
 From level changes to interrupt handlers: what the calls of set_gpio_value have raised on the
 objects of a system, and what every run of an interrupt controller then does with it.
 */
module EndToEnd {
  import opened Board
  import opened Pins
  import opened Systems
  import I = Interrupts

  lemma {:induction false} TraceGrows(states: seq<I.State>, acts: seq<I.Action>, m: nat, i: nat)
    requires I.IsRun(states, acts) && m <= i < |states|
    ensures states[m].trace <= states[i].trace
    decreases i
  {
    if m < i {
      TraceGrows(states, acts, m, i - 1);
      assert states[i - 1 + 1] == I.Next(states[i - 1], acts[i - 1]);
    }
  }

  // A thread has called local_raise for this interrupt, enabled, between positions m and i.
  predicate RaisedBetween(states: seq<I.State>, acts: seq<I.Action>, m: nat, i: nat, irq: I.Irq)
    requires |states| == |acts| + 1 && m <= i < |states|
  {
    exists n :: m <= n < i && acts[n].Insert? && acts[n].irq == irq && irq in states[n].enabled
  }

  // The handler of this interrupt has run between positions m and i.
  predicate HandledBetween(states: seq<I.State>, m: nat, i: nat, irq: I.Irq)
    requires m <= i < |states|
  {
    exists j :: |states[m].trace| <= j < |states[i].trace| && states[i].trace[j] == I.Handle(irq)
  }

  lemma RaisedThenHandled(states: seq<I.State>, acts: seq<I.Action>, m: nat, i: nat, irq: I.Irq)
    requires I.IsRun(states, acts) && m <= i < |states| && I.Quiescent(states[i])
    requires RaisedBetween(states, acts, m, i, irq)
    ensures HandledBetween(states, m, i, irq)
  {
    var n :| m <= n < i && acts[n].Insert? && acts[n].irq == irq && irq in states[n].enabled;
    assert states[n + 1] == I.Next(states[n], acts[n]);
    var k := |states[n].trace|;
    TraceGrows(states, acts, m, n);
    TraceGrows(states, acts, n + 1, i);
    assert states[i].trace[k] == I.Accept(irq);
    I.NoLostInterrupt(states, acts, i, k);
    var j :| k < j < |states[i].trace| && states[i].trace[j] == I.Handle(irq);
  }

  // ---------------------------------------------------------------- from the objects to the handlers

  // The accepted raises of a run, in order.
  function Accepts(trace: seq<I.Event>): seq<I.Irq> {
    if trace == [] then []
    else
      var rest, last := Accepts(trace[..|trace| - 1]), trace[|trace| - 1];
      if last.Accept? then rest + [last.irq] else rest
  }

  lemma {:induction false} AcceptAt(trace: seq<I.Event>, r: nat) returns (k: nat)
    requires r < |Accepts(trace)|
    ensures k < |trace| && trace[k] == I.Accept(Accepts(trace)[r]) && |Accepts(trace[..k])| == r
  {
    var rest := trace[..|trace| - 1];
    if r < |Accepts(rest)| {
      k := AcceptAt(rest, r);
      assert trace[..k] == rest[..k];
    } else {
      k := |trace| - 1;
    }
  }

  lemma {:induction false} AcceptedIn(trace: seq<I.Event>, k: nat)
    requires k < |trace| && trace[k].Accept?
    ensures trace[k].irq in Accepts(trace)
  {
    if k < |trace| - 1 {
      AcceptedIn(trace[..|trace| - 1], k);
    }
  }

  // The pin raise number q of a controller among all its raises.
  lemma {:induction false} PinRaiseAt(raised: seq<GenericIrq>, q: nat) returns (r: nat)
    requires q < |PinNames(raised)|
    ensures r < |raised| && raised[r].OfPin? && Id(raised[r].pin) == PinNames(raised)[q]
    ensures |PinNames(raised[..r])| == q
  {
    var rest := raised[..|raised| - 1];
    if q < |PinNames(rest)| {
      r := PinRaiseAt(rest, q);
      assert raised[..r] == rest[..r];
    } else {
      r := |raised| - 1;
    }
  }

  lemma {:induction false} PinNamed(raised: seq<GenericIrq>, irq: GenericIrq)
    requires irq in raised && irq.OfPin?
    ensures Id(irq.pin) in PinNames(raised)
  {
    if raised[|raised| - 1] != irq {
      PinNamed(raised[..|raised| - 1], irq);
    }
  }

  lemma {:induction false} RaisedInGrows(b: Board, commands: seq<Command>, n: nat, side: Side)
    requires n <= |commands|
    ensures RaisedIn(b, commands[..n], side) <= RaisedIn(b, commands, side)
    decreases |commands|
  {
    if n == |commands| {
      assert commands[..n] == commands;
    } else {
      var before := commands[..|commands| - 1];
      RaisedInGrows(b, before, n, side);
      assert before[..n] == commands[..n];
    }
  }

  // The run is one of this controller: its accepted raises are those that the controller object has
  // recorded, in order. at gives the address of each interrupt.
  ghost predicate RunOf(c: IrqController, at: map<GenericIrq, I.Irq>, trace: seq<I.Event>)
    reads c
  {
    var accepts := Accepts(trace);
    && |accepts| == |c.raised|
    && forall r {:trigger c.raised[r]} :: 0 <= r < |c.raised| ==> c.raised[r] in at && accepts[r] == at[c.raised[r]]
  }

  // Pin raise number q is of pin y: it was accepted at some position of the run, and its handler
  // has run since.
  ghost predicate HandledSince(c: IrqController, at: map<GenericIrq, I.Irq>, trace: seq<I.Event>, q: nat, y: PinId)
    requires RunOf(c, at, trace)
    reads c
  {
    exists r, k ::
      && 0 <= r < |c.raised| && c.raised[r].OfPin? && Id(c.raised[r].pin) == y && |PinNames(c.raised[..r])| == q
      && 0 <= k < |trace| && trace[k] == I.Accept(at[c.raised[r]]) && |Accepts(trace[..k])| == r
      && I.HandledAfter(trace, k, at[c.raised[r]])
  }

  lemma PinRaiseHandled(c: IrqController, at: map<GenericIrq, I.Irq>, states: seq<I.State>, acts: seq<I.Action>, i: nat, q: nat)
    requires I.IsRun(states, acts) && i < |states| && I.Quiescent(states[i])
    requires RunOf(c, at, states[i].trace) && q < |PinNames(c.raised)|
    ensures HandledSince(c, at, states[i].trace, q, PinNames(c.raised)[q])
  {
    var r := PinRaiseAt(c.raised, q);
    var k := AcceptAt(states[i].trace, r);
    I.NoLostInterrupt(states, acts, i, k);
  }

  // The pin raises that command number n of the history makes on the controller of one side.
  predicate RaisedByCommand(start: Board, history: seq<Command>, n: nat, side: Side, q: nat)
    requires n < |history|
  {
    |RaisedIn(start, history[..n], side)| <= q < |RaisedIn(start, history[..n + 1], side)|
  }

  // Each interrupt GPIO wired to the pin of a level change has its raise among those of that command.
  lemma CommandRaises(start: Board, history: seq<Command>, n: nat, y: PinId) returns (q: nat)
    requires WellWired(start) && n < |history| && history[n].SetGpioValue?
    requires Wired(Run(start, history[..n]), history[n].pin, y) && Settable(Run(start, history[..n]), history[n].pin)
    requires y in Run(start, history[..n]).kind && Run(start, history[..n]).kind[y].GpioIrq?
    ensures y.side == history[n].pin.side.Other() && RaisedByCommand(start, history, n, y.side, q)
    ensures q < |RaisedIn(start, history, y.side)| && RaisedIn(start, history, y.side)[q] == y
  {
    hide Run, Raises, RaisedIn, WellWired, Wired, Settable;
    var b, x := Run(start, history[..n]), history[n].pin;
    RunKeepsWellWired(start, history[..n]);
    RaisesExactly(b, x, y);
    var m :| 0 <= m < |Raises(b, x)| && Raises(b, x)[m] == y;
    q := |RaisedIn(start, history[..n], y.side)| + m;
    assert history[..n + 1] == history[..n] + [history[n]];
    RaisedInSnoc(start, history[..n], history[n], y.side);
    RaisedInGrows(start, history, n + 1, y.side);
  }

  // Every valid system has kept its raises (RaisesKept), so this holds after any calls of its methods.
  // After any history of connections, conversions and level changes, in any run of the controller
  // that accepts what the objects have raised: when it is quiescent, each level change of the
  // history, the last one or not, has made a raise for every interrupt GPIO that was wired to its
  // pin, and the handler has run since that raise.
  lemma GpioInterruptEndToEnd(sys: System, at: map<GenericIrq, I.Irq>, states: seq<I.State>, acts: seq<I.Action>,
                              i: nat, n: nat, y: PinId)
    requires sys.RaisesKept() && n < |sys.history| && sys.history[n].SetGpioValue?
    requires I.IsRun(states, acts) && i < |states| && I.Quiescent(states[i])
    requires RunOf(sys.UnitOf(sys.history[n].pin.side.Other()).controller, at, states[i].trace)
    ensures var start, x := InitialBoard(sys.hostConfig, sys.socConfig), sys.history[n].pin;
            var b, c := Run(start, sys.history[..n]), sys.UnitOf(x.side.Other()).controller;
            Settable(b, x) && Wired(b, x, y) && y in b.kind && b.kind[y].GpioIrq? ==>
              && y.side == x.side.Other()
              && exists q :: RaisedByCommand(start, sys.history, n, y.side, q) && HandledSince(c, at, states[i].trace, q, y)
  {
    hide InitialBoard, Run, RunOf, HandledSince, RaisedIn, I.IsRun;
    var start, x := InitialBoard(sys.hostConfig, sys.socConfig), sys.history[n].pin;
    var b := Run(start, sys.history[..n]);
    if Settable(b, x) && Wired(b, x, y) && y in b.kind && b.kind[y].GpioIrq? {
      InitialBoardIsWellWired(sys.hostConfig, sys.socConfig);
      var q := CommandRaises(start, sys.history, n, y);
      PinRaiseHandled(sys.UnitOf(y.side).controller, at, states, acts, i, q);
    }
  }

  // And a handler of a GPIO runs only if some level change of the history has raised it, distinct
  // interrupts having distinct addresses.
  lemma OnlyRaisedAreHandled(sys: System, at: map<GenericIrq, I.Irq>, states: seq<I.State>, acts: seq<I.Action>,
                             side: Side, i: nat, j: nat, pin: Pin)
    requires sys.RaisesKept() && I.IsRun(states, acts) && i < |states|
    requires RunOf(sys.UnitOf(side).controller, at, states[i].trace)
    requires OfPin(pin) in at && forall a, b :: a in at && b in at && at[a] == at[b] ==> a == b
    requires j < |states[i].trace| && states[i].trace[j] == I.Handle(at[OfPin(pin)])
    ensures Id(pin) in RaisedIn(InitialBoard(sys.hostConfig, sys.socConfig), sys.history, side)
  {
    hide InitialBoard, RaisedIn;
    var c := sys.UnitOf(side).controller;
    I.NothingSpurious(states, acts, i, j);
    var k :| 0 <= k < j && k < |states[i].trace| && states[i].trace[k] == I.Accept(at[OfPin(pin)]);
    AcceptedIn(states[i].trace, k);
    var r :| 0 <= r < |c.raised| && Accepts(states[i].trace)[r] == at[OfPin(pin)];
    assert c.raised[r] in c.raised;
    PinNamed(c.raised, OfPin(pin));
  }
}
