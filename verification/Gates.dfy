/**
 The ready gates: each processing unit's ready_mutex is locked when the unit is built, set_ready
 unlocks it and wait_ready locks it, so it works as a binary semaphore.
 */
module Gates {
  import opened Board

  // One gate: set_ready opens it, and the next return of wait_ready closes it.
  datatype Gate = Gate(open: bool)

  const CLOSED := Gate(false)

  function SetReady(g: Gate): Gate { g.(open := true) }

  function WaitReady(g: Gate): Gate
    requires g.open
  {
    g.(open := false)
  }

  // ---------------------------------------------------------------- any callers

  datatype Action = Set(unit: Side) | Pass(unit: Side)

  predicate Enabled(gates: map<Side, Gate>, a: Action) {
    a.unit in gates && (a.Pass? ==> gates[a.unit].open)
  }

  function Next(gates: map<Side, Gate>, a: Action): map<Side, Gate>
    requires Enabled(gates, a)
  {
    gates[a.unit := if a.Set? then SetReady(gates[a.unit]) else WaitReady(gates[a.unit])]
  }

  const INITIAL: map<Side, Gate> := map[Host := CLOSED, Soc := CLOSED]

  ghost predicate IsRun(states: seq<map<Side, Gate>>, acts: seq<Action>) {
    && |states| == |acts| + 1
    && states[0] == INITIAL
    && forall i {:trigger acts[i]} :: 0 <= i < |acts| ==>
         Enabled(states[i], acts[i]) && states[i + 1] == Next(states[i], acts[i])
  }

  function Count(acts: seq<Action>, a: Action): nat {
    if acts == [] then 0
    else Count(acts[..|acts| - 1], a) + (if acts[|acts| - 1] == a then 1 else 0)
  }

  // Whoever calls, in whatever order: the returns of wait_ready on a unit never exceed the
  // set_ready calls made on it before, and an open gate stands for one of those not used yet.
  lemma {:induction false} PassesNeverExceedSets(states: seq<map<Side, Gate>>, acts: seq<Action>, u: Side)
    requires IsRun(states, acts)
    ensures u in states[|acts|]
    ensures Count(acts, Pass(u)) + (if states[|acts|][u].open then 1 else 0) <= Count(acts, Set(u))
  {
    if acts != [] {
      var n := |acts| - 1;
      assert forall i :: 0 <= i < n ==> acts[..n][i] == acts[i];
      assert IsRun(states[..n + 1], acts[..n]);
      PassesNeverExceedSets(states[..n + 1], acts[..n], u);
      assert states[n + 1] == Next(states[n], acts[n]);
    }
  }

  // ---------------------------------------------------------------- the rendezvous

  // Each unit's main function sets its own unit ready and then waits for the other.
  datatype Pc = Start | Waiting | Passed

  datatype Meeting = Meeting(gates: map<Side, Gate>, pc: map<Side, Pc>)

  const BEGIN := Meeting(INITIAL, map[Host := Start, Soc := Start])

  predicate CanStep(m: Meeting, u: Side) {
    && u in m.pc
    && match m.pc[u]
       case Start => Enabled(m.gates, Set(u))
       case Waiting => Enabled(m.gates, Pass(u.Other()))
       case Passed => false
  }

  function StepOf(m: Meeting, u: Side): Meeting
    requires CanStep(m, u)
  {
    if m.pc[u].Start?
    then Meeting(Next(m.gates, Set(u)), m.pc[u := Waiting])
    else Meeting(Next(m.gates, Pass(u.Other())), m.pc[u := Passed])
  }

  ghost predicate IsMeeting(states: seq<Meeting>, who: seq<Side>) {
    && |states| == |who| + 1
    && states[0] == BEGIN
    && forall i {:trigger who[i]} :: 0 <= i < |who| ==>
         CanStep(states[i], who[i]) && states[i + 1] == StepOf(states[i], who[i])
  }

  ghost predicate MeetingInv(m: Meeting) {
    && m.gates.Keys == m.pc.Keys == {Host, Soc}
    && forall u: Side :: u in m.pc ==>
         (m.gates[u].open <==> !m.pc[u].Start? && !m.pc[u.Other()].Passed?)
         && (m.pc[u].Passed? ==> !m.pc[u.Other()].Start?)
  }

  lemma MeetingStep(m: Meeting, u: Side)
    requires MeetingInv(m) && CanStep(m, u)
    ensures MeetingInv(StepOf(m, u)) && Todo(StepOf(m, u)) < Todo(m)
  {
    assert u.Other() != u && u.Other().Other() == u;
  }

  function PcTodo(pc: Pc): nat { if pc.Start? then 2 else if pc.Waiting? then 1 else 0 }

  function Todo(m: Meeting): nat {
    (if Host in m.pc then PcTodo(m.pc[Host]) else 0) + (if Soc in m.pc then PcTodo(m.pc[Soc]) else 0)
  }

  lemma {:induction false} MeetingAlways(states: seq<Meeting>, who: seq<Side>, i: nat)
    requires IsMeeting(states, who) && i < |states|
    ensures MeetingInv(states[i]) && Todo(states[i]) + i <= 4
  {
    if i > 0 {
      MeetingAlways(states, who, i - 1);
      assert states[i - 1 + 1] == StepOf(states[i - 1], who[i - 1]);
      MeetingStep(states[i - 1], who[i - 1]);
    }
  }

  // In every interleaving: neither unit passes before both are ready, a state in which nobody can
  // step has both units through, and there are at most four steps, so both always get through.
  lemma Rendezvous(states: seq<Meeting>, who: seq<Side>, i: nat)
    requires IsMeeting(states, who) && i < |states|
    ensures Host in states[i].pc && Soc in states[i].pc
    ensures states[i].pc[Host].Passed? || states[i].pc[Soc].Passed?
            ==> !states[i].pc[Host].Start? && !states[i].pc[Soc].Start?
    ensures (forall u :: !CanStep(states[i], u)) <==> states[i].pc[Host].Passed? && states[i].pc[Soc].Passed?
    ensures i <= 4
  {
    MeetingAlways(states, who, i);
    var m := states[i];
    if !m.pc[Host].Passed? || !m.pc[Soc].Passed? {
      assert CanStep(m, Host) || CanStep(m, Soc);
    }
  }
}
