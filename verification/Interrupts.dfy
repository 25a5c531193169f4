/**
 Interrupt delivery on one IrqController as a step system: raisers on any thread, the signal, and
 the walk over the pending set, in any interleaving.

 An interrupt is named by its address, since std::set walks its elements in address order. The
 pending set is never emptied, so every walk visits every interrupt ever accepted.
 */
module Interrupts {
  import opened Counting

  type Irq = nat

  // The iterator of a walk: the last address visited (-1 before the first), and the position in
  // the trace of the start of the walk.
  datatype Walk = Idle | Walking(cursor: int, start: nat)

  datatype Event = Accept(irq: Irq) | WalkStart | Handle(irq: Irq) | WalkEnd

  datatype State = State(
    enabled: set<Irq>,
    pending: set<Irq>,
    // threads that have inserted an interrupt and not yet sent the signal: where they did so
    raising: map<nat, nat>,
    signals: nat,
    walk: Walk,
    // history
    trace: seq<Event>)

  datatype Action =
    | Enable(irq: Irq) | Disable(irq: Irq)
    // local_raise: the test and the insertion, then the signal; a queued signal may absorb it
    | Insert(thread: nat, irq: Irq) | Kill(thread: nat, merge: bool)
    // enableIrqs with something pending
    | Resignal(merge: bool)
    // signal_handler and the loop of handle
    | Deliver | Visit | Finish

  const INITIAL := State({}, {}, map[], 0, Idle, [])

  ghost predicate IsNext(pending: set<Irq>, cursor: int, irq: Irq) {
    irq in pending && irq > cursor && forall j :: j in pending && j > cursor ==> irq <= j
  }

  predicate Ahead(pending: set<Irq>, cursor: int) {
    exists j :: j in pending && j > cursor
  }

  // A set with an element ahead of the cursor has a next one.
  lemma {:induction false} NextExists(pending: set<Irq>, cursor: int)
    requires Ahead(pending, cursor)
    ensures exists irq :: IsNext(pending, cursor, irq)
  {
    var j :| j in pending && j > cursor;
    var rest := set i | i in pending && i < j;
    if Ahead(rest, cursor) {
      assert rest < pending;
      NextExists(rest, cursor);
      var irq: Irq :| IsNext(rest, cursor, irq);
      assert IsNext(pending, cursor, irq) by {
        forall i | i in pending && i > cursor ensures irq <= i {
          assert i < j ==> i in rest;
        }
      }
    } else {
      assert IsNext(pending, cursor, j) by {
        forall i | i in pending && i > cursor ensures j <= i {
          assert i < j ==> i in rest;
        }
      }
    }
  }

  ghost function NextIrq(pending: set<Irq>, cursor: int): (irq: Irq)
    requires Ahead(pending, cursor)
    ensures IsNext(pending, cursor, irq)
  {
    NextExists(pending, cursor);
    var irq: Irq :| IsNext(pending, cursor, irq);
    irq
  }

  predicate Enabled(s: State, a: Action) {
    match a
    case Insert(thread, _) => thread !in s.raising
    case Kill(thread, merge) => thread in s.raising && (merge ==> s.signals > 0)
    case Resignal(merge) => s.pending != {} && (merge ==> s.signals > 0)
    // the signal is blocked while its handler runs
    case Deliver => s.signals > 0 && s.walk.Idle?
    case Visit => s.walk.Walking? && Ahead(s.pending, s.walk.cursor)
    case Finish => s.walk.Walking? && !Ahead(s.pending, s.walk.cursor)
    case _ => true
  }

  ghost function Next(s: State, a: Action): State
    requires Enabled(s, a)
  {
    match a
    case Enable(irq) => s.(enabled := s.enabled + {irq})
    case Disable(irq) => s.(enabled := s.enabled - {irq})
    case Insert(thread, irq) =>
      if irq !in s.enabled then s
      else s.(pending := s.pending + {irq}, raising := s.raising[thread := |s.trace|], trace := s.trace + [Accept(irq)])
    case Kill(thread, merge) =>
      s.(raising := s.raising - {thread}, signals := if merge then s.signals else s.signals + 1)
    case Resignal(merge) => s.(signals := if merge then s.signals else s.signals + 1)
    case Deliver => s.(signals := s.signals - 1, walk := Walking(-1, |s.trace|), trace := s.trace + [WalkStart])
    case Visit =>
      var irq := NextIrq(s.pending, s.walk.cursor);
      s.(walk := s.walk.(cursor := irq), trace := s.trace + [Handle(irq)])
    case Finish => s.(walk := Idle, trace := s.trace + [WalkEnd])
  }

  ghost predicate IsRun(states: seq<State>, acts: seq<Action>) {
    && |states| == |acts| + 1
    && states[0] == INITIAL
    && forall i {:trigger acts[i]} :: 0 <= i < |acts| ==>
         Enabled(states[i], acts[i]) && states[i + 1] == Next(states[i], acts[i])
  }

  // ---------------------------------------------------------------- no interrupt is lost

  predicate HandledAfter(trace: seq<Event>, k: nat, irq: Irq) {
    exists j :: k < j < |trace| && trace[j] == Handle(irq)
  }

  // An accepted raise, not handled since, is in its raiser's hands, or signalled, or ahead in the
  // current walk.
  predicate OnItsWay(s: State, k: nat, irq: Irq) {
    || (exists thread :: thread in s.raising && s.raising[thread] == k)
    || s.signals > 0
    || (s.walk.Walking? && s.walk.cursor < irq)
  }

  ghost predicate NoneLost(s: State) {
    forall k: nat {:trigger s.trace[k]} :: k < |s.trace| && s.trace[k].Accept? ==>
      && s.trace[k].irq in s.pending
      && (HandledAfter(s.trace, k, s.trace[k].irq) || OnItsWay(s, k, s.trace[k].irq))
  }

  predicate AcceptedBefore(trace: seq<Event>, j: int, irq: Irq) {
    exists k :: 0 <= k < j && k < |trace| && trace[k] == Accept(irq)
  }

  ghost predicate OnlyAccepted(s: State) {
    && (forall irq :: irq in s.pending ==> AcceptedBefore(s.trace, |s.trace|, irq))
    && (forall j {:trigger s.trace[j]} :: 0 <= j < |s.trace| && s.trace[j].Handle? ==>
          AcceptedBefore(s.trace, j, s.trace[j].irq))
  }

  lemma NoneLostStep(s: State, a: Action)
    requires NoneLost(s) && Enabled(s, a)
    ensures NoneLost(Next(s, a))
  {
    var t := Next(s, a);
    forall k: nat | k < |t.trace| && t.trace[k].Accept?
      ensures t.trace[k].irq in t.pending
      ensures HandledAfter(t.trace, k, t.trace[k].irq) || OnItsWay(t, k, t.trace[k].irq)
    {
      var irq := t.trace[k].irq;
      if k < |s.trace| {
        assert t.trace[k] == s.trace[k];
        if HandledAfter(s.trace, k, irq) {
          var j :| k < j < |s.trace| && s.trace[j] == Handle(irq);
          assert t.trace[j] == Handle(irq);
        } else {
          RaiseGoesOn(s, a, k, irq);
        }
      } else {
        assert a.Insert? && t.raising[a.thread] == k;
      }
    }
  }

  lemma RaiseGoesOn(s: State, a: Action, k: nat, irq: Irq)
    requires Enabled(s, a) && irq in s.pending && k < |s.trace| && OnItsWay(s, k, irq)
    ensures HandledAfter(Next(s, a).trace, k, irq) || OnItsWay(Next(s, a), k, irq)
  {
    var t := Next(s, a);
    if a.Visit? {
      var next := NextIrq(s.pending, s.walk.cursor);
      assert t.trace[|s.trace|] == Handle(next);
    } else if thread :| thread in s.raising && s.raising[thread] == k {
      assert a.Kill? || (thread in t.raising && t.raising[thread] == k);
    }
  }

  lemma AcceptedLater(trace: seq<Event>, e: Event, j: int, irq: Irq)
    requires AcceptedBefore(trace, j, irq)
    ensures AcceptedBefore(trace + [e], j, irq) && AcceptedBefore(trace + [e], |trace| + 1, irq)
  {
    var k :| 0 <= k < j && k < |trace| && trace[k] == Accept(irq);
    assert (trace + [e])[k] == Accept(irq);
  }

  lemma OnlyAcceptedStep(s: State, a: Action)
    requires OnlyAccepted(s) && Enabled(s, a)
    ensures OnlyAccepted(Next(s, a))
  {
    var t := Next(s, a);
    if t.trace != s.trace {
      var e := t.trace[|s.trace|];
      assert t.trace == s.trace + [e];
      forall irq | irq in t.pending ensures AcceptedBefore(t.trace, |t.trace|, irq) {
        if irq in s.pending {
          AcceptedLater(s.trace, e, |s.trace|, irq);
        } else {
          assert t.trace[|s.trace|] == Accept(irq);
        }
      }
      forall j {:trigger t.trace[j]} | 0 <= j < |t.trace| && t.trace[j].Handle?
        ensures AcceptedBefore(t.trace, j, t.trace[j].irq)
      {
        if j < |s.trace| {
          assert t.trace[j] == s.trace[j];
          AcceptedLater(s.trace, e, j, s.trace[j].irq);
        } else {
          AcceptedLater(s.trace, e, |s.trace|, e.irq);
        }
      }
    }
  }

  lemma InitialInvariant()
    ensures NoneLost(INITIAL) && OnlyAccepted(INITIAL)
  {
  }

  lemma {:induction false} DeliveryInvariant(states: seq<State>, acts: seq<Action>, i: nat)
    requires IsRun(states, acts) && i < |states|
    ensures NoneLost(states[i]) && OnlyAccepted(states[i])
  {
    if i == 0 {
      InitialInvariant();
    } else {
      DeliveryInvariant(states, acts, i - 1);
      assert states[i - 1 + 1] == Next(states[i - 1], acts[i - 1]);
      NoneLostStep(states[i - 1], acts[i - 1]);
      OnlyAcceptedStep(states[i - 1], acts[i - 1]);
    }
  }

  predicate Quiescent(s: State) {
    s.raising == map[] && s.signals == 0 && s.walk.Idle?
  }

  // No lost interrupt, over every run: each accepted raise has been handled since, or is still on
  // its way; at quiescence each has been handled since.
  lemma NoLostInterrupt(states: seq<State>, acts: seq<Action>, i: nat, k: nat)
    requires IsRun(states, acts) && i < |states|
    requires k < |states[i].trace| && states[i].trace[k].Accept?
    ensures var irq := states[i].trace[k].irq;
            && (HandledAfter(states[i].trace, k, irq) || OnItsWay(states[i], k, irq))
            && (Quiescent(states[i]) ==> HandledAfter(states[i].trace, k, irq))
  {
    DeliveryInvariant(states, acts, i);
  }

  // No handler runs unless its interrupt was accepted before, however often it was raised while
  // disabled.
  lemma NothingSpurious(states: seq<State>, acts: seq<Action>, i: nat, j: nat)
    requires IsRun(states, acts) && i < |states|
    requires j < |states[i].trace| && states[i].trace[j].Handle?
    ensures AcceptedBefore(states[i].trace, j, states[i].trace[j].irq)
  {
    DeliveryInvariant(states, acts, i);
  }

  // ---------------------------------------------------------------- which raises are accepted

  // The last of the first m actions that enables or disables the irq enables it.
  predicate EnabledBy(acts: seq<Action>, m: nat, irq: Irq)
    requires m <= |acts|
  {
    m > 0 && (acts[m - 1] == Enable(irq) || (acts[m - 1] != Disable(irq) && EnabledBy(acts, m - 1, irq)))
  }

  // Action m is a raise of the irq, enabled at that moment.
  predicate RaisesEnabled(acts: seq<Action>, m: nat, irq: Irq)
    requires m < |acts|
  {
    acts[m].Insert? && acts[m].irq == irq && EnabledBy(acts, m, irq)
  }

  predicate RaisedUntil(acts: seq<Action>, i: nat, irq: Irq)
    requires i <= |acts|
  {
    exists m :: 0 <= m < i && RaisesEnabled(acts, m, irq)
  }

  lemma {:induction false} EnabledIs(states: seq<State>, acts: seq<Action>, m: nat, irq: Irq)
    requires IsRun(states, acts) && m < |states|
    ensures irq in states[m].enabled <==> EnabledBy(acts, m, irq)
  {
    if m > 0 {
      EnabledIs(states, acts, m - 1, irq);
      assert states[m - 1 + 1] == Next(states[m - 1], acts[m - 1]);
    }
  }

  // A step accepts an interrupt if and only if it is a raise of it and the last action to enable or
  // disable it has enabled it; only then does its thread owe a signal.
  lemma AcceptsExactly(states: seq<State>, acts: seq<Action>, m: nat, irq: Irq)
    requires IsRun(states, acts) && m < |acts|
    ensures states[m + 1].trace == states[m].trace + [Accept(irq)] <==> RaisesEnabled(acts, m, irq)
    ensures acts[m].Insert? ==>
              (acts[m].thread in states[m + 1].raising <==> RaisesEnabled(acts, m, acts[m].irq))
  {
    EnabledIs(states, acts, m, irq);
    if acts[m].Insert? {
      EnabledIs(states, acts, m, acts[m].irq);
    }
    assert states[m + 1] == Next(states[m], acts[m]);
    if states[m + 1].trace == states[m].trace + [Accept(irq)] {
      assert states[m + 1].trace[|states[m].trace|] == Accept(irq);
    }
  }

  // Pending are exactly the interrupts raised while enabled, and they stay pending.
  lemma {:induction false} PendingExactly(states: seq<State>, acts: seq<Action>, i: nat, irq: Irq)
    requires IsRun(states, acts) && i < |states|
    ensures irq in states[i].pending <==> RaisedUntil(acts, i, irq)
  {
    if i > 0 {
      PendingExactly(states, acts, i - 1, irq);
      assert states[i - 1 + 1] == Next(states[i - 1], acts[i - 1]);
      EnabledIs(states, acts, i - 1, irq);
      assert irq in states[i].pending <==> irq in states[i - 1].pending || RaisesEnabled(acts, i - 1, irq);
    }
  }

  lemma {:induction false} HandledArePending(states: seq<State>, acts: seq<Action>, i: nat, j: nat)
    requires IsRun(states, acts) && i < |states|
    requires j < |states[i].trace| && states[i].trace[j].Handle?
    ensures states[i].trace[j].irq in states[i].pending
    decreases i
  {
    if i > 0 {
      assert states[i - 1 + 1] == Next(states[i - 1], acts[i - 1]);
      if j < |states[i - 1].trace| {
        assert states[i].trace[j] == states[i - 1].trace[j];
        HandledArePending(states, acts, i - 1, j);
      }
    }
  }

  // An interrupt never raised while enabled is never pending and its handler never runs.
  lemma DisabledNeverHandled(states: seq<State>, acts: seq<Action>, i: nat, irq: Irq)
    requires IsRun(states, acts) && i < |states| && !RaisedUntil(acts, i, irq)
    ensures irq !in states[i].pending && Handle(irq) !in states[i].trace
  {
    PendingExactly(states, acts, i, irq);
    if Handle(irq) in states[i].trace {
      var j :| 0 <= j < |states[i].trace| && states[i].trace[j] == Handle(irq);
      HandledArePending(states, acts, i, j);
    }
  }

  // ---------------------------------------------------------------- delivery comes to an end

  function Remaining(pending: set<Irq>, cursor: int): set<Irq> {
    set j | j in pending && j > cursor
  }

  // An upper bound on the steps until the controller is quiescent, if nobody raises or resignals.
  function Todo(s: State): nat {
    var walk := |s.pending| + 2;
    |s.raising| * (walk + 1) + s.signals * walk +
    (if s.walk.Walking? then |Remaining(s.pending, s.walk.cursor)| + 1 else 0)
  }

  predicate Delivers(a: Action) {
    a.Deliver? || a.Visit? || a.Finish? || a.Kill?
  }

  // Delivery never gets stuck: in every state that is not quiescent some raiser can send its
  // signal, or the signal handler can start, go on or return, and each such step brings the
  // controller nearer to quiescence.
  lemma DeliveryGoesOn(s: State)
    ensures Quiescent(s) <==> Todo(s) == 0
    ensures !Quiescent(s) ==> exists a :: Delivers(a) && Enabled(s, a)
  {
    if s.raising != map[] {
      var thread :| thread in s.raising;
      assert |s.raising| > 0;
      assert Enabled(s, Kill(thread, false)) && Delivers(Kill(thread, false));
    } else if s.walk.Walking? {
      assert Enabled(s, Visit) || Enabled(s, Finish);
      assert Delivers(Visit) && Delivers(Finish);
    } else if s.signals > 0 {
      assert Enabled(s, Deliver) && Delivers(Deliver);
    }
  }

  lemma OneMore(n: nat, w: nat)
    ensures (n + 1) * w == n * w + w
  {
  }

  lemma KillProgresses(s: State, thread: nat, merge: bool)
    requires Enabled(s, Kill(thread, merge))
    ensures Todo(Next(s, Kill(thread, merge))) < Todo(s)
  {
    var t, walk := Next(s, Kill(thread, merge)), |s.pending| + 2;
    assert t.raising.Keys == s.raising.Keys - {thread};
    assert |t.raising| == |s.raising| - 1 by {
      assert |t.raising.Keys| == |s.raising.Keys| - 1;
    }
    OneMore(|t.raising|, walk + 1);
    OneMore(s.signals, walk);
  }

  lemma DeliverProgresses(s: State)
    requires Enabled(s, Deliver)
    ensures Todo(Next(s, Deliver)) < Todo(s)
  {
    assert Remaining(s.pending, -1) == s.pending;
    OneMore(s.signals - 1, |s.pending| + 2);
  }

  lemma VisitProgresses(s: State)
    requires Enabled(s, Visit)
    ensures Todo(Next(s, Visit)) < Todo(s)
  {
    var irq := NextIrq(s.pending, s.walk.cursor);
    assert Remaining(s.pending, irq) == Remaining(s.pending, s.walk.cursor) - {irq};
  }

  lemma DeliveryProgresses(s: State, a: Action)
    requires Enabled(s, a) && Delivers(a)
    ensures Todo(Next(s, a)) < Todo(s)
  {
    match a
    case Kill(thread, merge) => KillProgresses(s, thread, merge);
    case Deliver => DeliverProgresses(s);
    case Visit => VisitProgresses(s);
    case Finish => assert Remaining(s.pending, s.walk.cursor) == {};
  }

  // The steps of a run that deliver, counted.
  function Deliveries(acts: seq<Action>, m: nat, i: nat): nat
    requires m <= i <= |acts|
    decreases i
  {
    if m == i then 0 else Deliveries(acts, m, i - 1) + AsCount(Delivers(acts[i - 1]))
  }

  // So from any state at most Todo delivering steps lie ahead while nobody raises or resignals, and
  // after that many the controller is quiescent.
  lemma {:induction false} DeliveryEnds(states: seq<State>, acts: seq<Action>, m: nat, i: nat)
    requires IsRun(states, acts) && m <= i < |states|
    requires forall k :: m <= k < i ==> !acts[k].Insert? && !acts[k].Resignal?
    ensures Deliveries(acts, m, i) + Todo(states[i]) <= Todo(states[m])
    ensures Deliveries(acts, m, i) == Todo(states[m]) ==> Quiescent(states[i])
    decreases i
  {
    if m < i {
      DeliveryEnds(states, acts, m, i - 1);
      var s, a := states[i - 1], acts[i - 1];
      assert states[i - 1 + 1] == Next(s, a);
      if Delivers(a) {
        DeliveryProgresses(s, a);
      } else {
        assert Todo(Next(s, a)) == Todo(s);
      }
    }
    DeliveryGoesOn(states[i]);
  }

  // The signals outstanding: those sent and not merged, less those delivered.
  function Sent(acts: seq<Action>, i: nat): nat
    requires i <= |acts|
  {
    if i == 0 then 0
    else
      var a := acts[i - 1];
      Sent(acts, i - 1) + AsCount((a.Kill? || a.Resignal?) && !a.merge)
  }

  function Delivered(acts: seq<Action>, i: nat): nat
    requires i <= |acts|
  {
    if i == 0 then 0 else Delivered(acts, i - 1) + AsCount(acts[i - 1].Deliver?)
  }

  lemma {:induction false} SignalsAreConserved(states: seq<State>, acts: seq<Action>, i: nat)
    requires IsRun(states, acts) && i < |states|
    ensures states[i].signals + Delivered(acts, i) == Sent(acts, i)
  {
    if i > 0 {
      SignalsAreConserved(states, acts, i - 1);
      assert states[i - 1 + 1] == Next(states[i - 1], acts[i - 1]);
    }
  }

  lemma OnlyOneIsNext(irq: Irq)
    ensures Ahead({irq}, -1) && NextIrq({irq}, -1) == irq && !Ahead({irq}, irq)
  {
    assert irq in {irq};
  }

  ghost predicate Reachable(s: State) {
    exists states, acts :: IsRun(states, acts) && s == states[|acts|]
  }

  lemma Begin()
    ensures Reachable(INITIAL)
  {
    assert IsRun([INITIAL], []);
  }

  lemma Reach(s: State, a: Action) returns (t: State)
    requires Reachable(s) && Enabled(s, a)
    ensures t == Next(s, a) && Reachable(t)
  {
    hide Next, Enabled;
    t := Next(s, a);
    var states, acts :| IsRun(states, acts) && s == states[|acts|];
    assert IsRun(states + [t], acts + [a]);
    assert (states + [t])[|acts + [a]|] == t;
  }

  // There are runs in which an interrupt is raised, delivered and handled, once.
  lemma RaiseIsHandled(thread: nat, irq: Irq)
    ensures exists s :: Reachable(s) && Quiescent(s) && s.trace == [Accept(irq), WalkStart, Handle(irq), WalkEnd]
  {
    hide NextIrq, Ahead, Reachable;
    OnlyOneIsNext(irq);
    Begin();
    var s := Reach(INITIAL, Enable(irq));
    s := Reach(s, Insert(thread, irq));
    s := Reach(s, Kill(thread, false));
    s := Reach(s, Deliver);
    assert s.pending == {irq};
    s := Reach(s, Visit);
    s := Reach(s, Finish);
    assert s.raising == map[] && s.trace == [Accept(irq), WalkStart, Handle(irq), WalkEnd];
  }

  // ---------------------------------------------------------------- how often a handler runs

  // The runs of the irq's handler recorded from position k on.
  function Handles(trace: seq<Event>, k: nat, irq: Irq): nat {
    if |trace| <= k then 0
    else Handles(trace[..|trace| - 1], k, irq) + (if trace[|trace| - 1] == Handle(irq) then 1 else 0)
  }

  // The walks started from position k on.
  function WalkStarts(trace: seq<Event>, k: nat): nat {
    if |trace| <= k then 0
    else WalkStarts(trace[..|trace| - 1], k) + (if trace[|trace| - 1].WalkStart? then 1 else 0)
  }

  // A walk is in progress and has not reached the irq yet.
  predicate Approaching(s: State, irq: Irq) {
    s.walk.Walking? && s.walk.cursor < irq
  }

  // Nothing is handled exactly once in general: since its acceptance at position k an irq has been
  // handled once by every walk started since, whatever that walk was signalled for, and once more
  // if a walk in progress had not reached it yet. (A walk still approaching the irq owes its run.)
  lemma {:induction false} ExactHandleCount(states: seq<State>, acts: seq<Action>, m: nat, i: nat)
    requires IsRun(states, acts) && m < i < |states|
    requires acts[m].Insert? && acts[m].irq in states[m].enabled
    ensures var irq, k := acts[m].irq, |states[m].trace|;
            Handles(states[i].trace, k, irq) + AsCount(Approaching(states[i], irq))
            == WalkStarts(states[i].trace, k) + AsCount(Approaching(states[m], irq))
    ensures acts[m].irq in states[i].pending && |states[m].trace| < |states[i].trace|
    decreases i
  {
    var irq, k := acts[m].irq, |states[m].trace|;
    if i == m + 1 {
      var t := states[m + 1];
      assert t == Next(states[m], acts[m]);
      assert t.trace[..|t.trace| - 1] == states[m].trace;
    } else {
      ExactHandleCount(states, acts, m, i - 1);
      var s, t := states[i - 1], states[i - 1 + 1];
      assert t == Next(s, acts[i - 1]);
      if t.trace != s.trace {
        assert t.trace[..|t.trace| - 1] == s.trace;
      }
    }
  }

  // So at quiescence a raise accepted between two walks has run its handler exactly once if and
  // only if exactly one walk has been started since.
  lemma HandledExactlyOnce(states: seq<State>, acts: seq<Action>, m: nat, i: nat)
    requires IsRun(states, acts) && m < i < |states|
    requires acts[m].Insert? && acts[m].irq in states[m].enabled
    requires states[m].walk.Idle? && Quiescent(states[i])
    ensures var k := |states[m].trace|;
            Handles(states[i].trace, k, acts[m].irq) == 1 <==> WalkStarts(states[i].trace, k) == 1
  {
    ExactHandleCount(states, acts, m, i);
  }
}
