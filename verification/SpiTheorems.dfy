/**
 What the SPI protocol guarantees over whole runs, in every interleaving. Statements about polite
 runs assume that the slave posts only after its previous post was served (Polite); the others
 hold of all runs.
 */
module SpiTheorems {
  import opened SpiProtocol
  import opened SpiInvariant

  // ---------------------------------------------------------------- handoff without a shared lock

  predicate SamePost(d: Device, e: Device) {
    d.rx == e.rx && d.tx == e.tx && d.size == e.size && d.listening == e.listening
  }

  // While the master's thread is in the copy part of xmit_locked, the fields it reads are those
  // of one fully published post, its memcpy arguments are that post's buffers, and the slave's
  // thread is not writing them.
  lemma HandoffOwnsOnePost(states: seq<State>, acts: seq<Action>, i: nat)
    requires IsRun(states, acts, true) && i < |states|
    requires 1 <= Stage(states[i].mt.pc) <= 7
    ensures var s := states[i];
            && s.log != [] && Last(s.log).Posted? && s.slave.listening
            && s.slave.rx == Last(s.log).post.rx
            && s.slave.tx == Last(s.log).post.tx
            && s.slave.size == Last(s.log).post.size
            && !(1 <= Progress(s.st.pc) <= 5)
            && (s.mt.pc.at.OutCopy? ==> s.mt.pc.at.src == Last(s.log).post.tx != NULL)
            && (s.mt.pc.at.InCopy? ==> s.mt.pc.at.dst == Last(s.log).post.rx != NULL)
  {
    InvAlways(states, acts, i);
  }

  // A slave that listens keeps its post until the master's thread takes it: no step of the
  // slave's thread changes the posted fields.
  lemma ListeningSlaveLeavesPost(states: seq<State>, acts: seq<Action>, i: nat)
    requires IsRun(states, acts, true) && i < |acts|
    requires states[i].slave.listening && !acts[i].MasterStep?
    ensures SamePost(states[i].slave, states[i + 1].slave)
    ensures states[i].log == states[i + 1].log
  {
    InvAlways(states, acts, i);
    assert Step(states[i], acts[i], states[i + 1]);
  }

  // The master's thread changes the posted fields only inside xmit_locked, while the slave
  // listens; once is_listening is cleared it touches none of them.
  lemma MasterTouchesOnlyListeners(states: seq<State>, acts: seq<Action>, i: nat)
    requires IsRun(states, acts, true) && i < |acts| && acts[i].MasterStep?
    requires !states[i].slave.listening
    ensures SamePost(states[i].slave, states[i + 1].slave)
    ensures states[i].log == states[i + 1].log
  {
    InvAlways(states, acts, i);
    assert Step(states[i], acts[i], states[i + 1]);
  }

  // ---------------------------------------------------------------- every post is served once

  // The runs of xmit_locked that completed post number j, counted in the actions of the run.
  ghost function Completions(states: seq<State>, acts: seq<Action>, j: nat, upTo: nat): nat
    requires |states| == |acts| + 1 && upTo <= |acts|
  {
    if upTo == 0 then 0
    else
      Completions(states, acts, j, upTo - 1) +
      (if acts[upTo - 1].MasterStep? && states[upTo - 1].mt.pc == MXmit(StopListening)
          && j == |states[upTo - 1].log| - 1 then 1 else 0)
  }

  // The log changes in two ways only: a new post at the end, or the last post served.
  lemma LogStep(s: State, a: Action)
    requires Enabled(s, a)
    ensures var t := Next(s, a);
            if a.SlaveStep? && s.st.pc.SListen? then t.log == s.log + [Posted(s.st.post)]
            else if a.MasterStep? && s.mt.pc == MXmit(StopListening) then t.log == Serve(s.log, s.mt)
            else t.log == s.log
  {
  }

  function ServedCount(log: seq<Entry>, j: nat): nat {
    if j < |log| && log[j].Served? then 1 else 0
  }

  lemma ServedCountStep(s: State, a: Action, j: nat)
    requires Ownership(s) && Enabled(s, a)
    ensures ServedCount(Next(s, a).log, j) == ServedCount(s.log, j) +
            (if a.MasterStep? && s.mt.pc == MXmit(StopListening) && j == |s.log| - 1 then 1 else 0)
  {
    LogStep(s, a);
  }

  // Exactly one xmit_locked completes each served post, and none an outstanding one.
  lemma {:induction false} ServedExactlyOnce(states: seq<State>, acts: seq<Action>, j: nat, i: nat)
    requires IsRun(states, acts, true) && i < |states|
    ensures Completions(states, acts, j, i) == ServedCount(states[i].log, j)
  {
    if i > 0 {
      ServedExactlyOnce(states, acts, j, i - 1);
      InvAlways(states, acts, i - 1);
      assert Step(states[i - 1], acts[i - 1], states[i - 1 + 1]);
      ServedCountStep(states[i - 1], acts[i - 1], j);
    }
  }

  // Every post except an outstanding last one is served, and its transfer moved the minimum of
  // the two sizes between the buffers of that post and those of one master call.
  lemma AllButLastServed(states: seq<State>, acts: seq<Action>, j: nat, i: nat)
    requires IsRun(states, acts, true) && i < |states| && j < |states[i].log|
    ensures var e := states[i].log[j];
            || (j == |states[i].log| - 1 && states[i].slave.listening)
            || (&& Faithful(e) && e.count == (if e.call.size <= e.post.size then e.call.size else e.post.size))
  {
    InvAlways(states, acts, i);
  }

  // What a transfer has recorded for a post no later step of any thread changes.
  lemma {:induction false} ServedIsFinal(states: seq<State>, acts: seq<Action>, j: nat, i: nat, k: nat)
    requires IsRun(states, acts, true) && i <= k < |states|
    requires j < |states[i].log| && states[i].log[j].Served?
    ensures j < |states[k].log| && states[k].log[j] == states[i].log[j]
  {
    if i < k {
      ServedIsFinal(states, acts, j, i, k - 1);
      InvAlways(states, acts, k - 1);
      assert Step(states[k - 1], acts[k - 1], states[k - 1 + 1]);
      LogStep(states[k - 1], acts[k - 1]);
    }
  }

  // Once its post is served, and until it prepares the next one, the slave holds no buffer address,
  // and its size field is the count that was moved.
  lemma ServedSlaveHoldsNoBuffer(states: seq<State>, acts: seq<Action>, i: nat)
    requires IsRun(states, acts, true) && i < |states|
    requires !states[i].slave.listening && !(1 <= Progress(states[i].st.pc) <= 5)
    ensures states[i].slave.rx == NULL && states[i].slave.tx == NULL
    ensures states[i].log != [] ==>
              Last(states[i].log).Served? && states[i].slave.size == Last(states[i].log).count
  {
    InvAlways(states, acts, i);
  }

  // ---------------------------------------------------------------- the slave's sync_xfer

  // When the slave's sync_xfer returns, exactly one xmit_locked has completed its post, and the
  // value returned is the minimum of the two sizes, whatever the master has called since.
  lemma SyncReturnsMinimum(states: seq<State>, acts: seq<Action>, i: nat)
    requires IsRun(states, acts, true) && i < |acts|
    requires acts[i].SlaveStep? && states[i].st.pc.SReturn?
    ensures var s, t := states[i], states[i + 1];
            && s.log != [] && s.st.post == Last(s.log).post && Faithful(Last(s.log))
            && Completions(states, acts, |s.log| - 1, i) == 1
            && var asked, posted := Last(s.log).call.size, s.st.post.size;
            t.returned == s.returned + [Return(|s.log| - 1, ToInt(if asked <= posted then asked else posted))]
  {
    InvAlways(states, acts, i);
    assert Step(states[i], acts[i], states[i + 1]);
    ServedExactlyOnce(states, acts, |states[i].log| - 1, i);
  }

  // The value is the count itself for transfers that an int can hold.
  lemma ToIntExact(n: nat)
    ensures ToInt(n) == n <==> n < 0x8000_0000
    ensures 0x8000_0000 <= n < 0x1_0000_0000 ==> ToInt(n) == n - 0x1_0000_0000
    ensures ToInt(n + 0x1_0000_0000) == ToInt(n)
  {
  }

  // A sync_xfer that has returned may be followed at once by another transfer: the slave's code
  // meets the hypothesis Polite without looking at is_listening.
  lemma SyncReturnIsPolite(states: seq<State>, acts: seq<Action>, i: nat, next: Call)
    requires IsRun(states, acts, true) && i < |acts|
    requires acts[i].SlaveStep? && states[i].st.pc.SReturn?
    ensures Enabled(states[i + 1], SlaveBegin(next)) && Polite(states[i + 1], SlaveBegin(next))
  {
    InvAlways(states, acts, i);
    assert Step(states[i], acts[i], states[i + 1]);
  }

  // ---------------------------------------------------------------- all runs, polite or not

  // The master's thread holds the slave's mutex.
  predicate Holds(pc: MasterPc) {
    !(pc.MIdle? || pc.MAsyncTest? || pc.MLock? || pc.MReturn? || pc == MPost(PLock))
  }

  // An asynchronous master call that has seen is_listening and not yet tested it again.
  predicate BetweenTests(mt: MasterThread) {
    !mt.call.sync && (mt.pc.MLock? || mt.pc.MRx? || mt.pc.MTx? || mt.pc.MTest?)
  }

  // What the master's thread relies on, whatever the slave's code does.
  predicate MasterInv(s: State) {
    var n := Stage(s.mt.pc);
    && (s.sync.slaveLock <==> Holds(s.mt.pc))
    && (2 <= n <= 11 ==> s.mt.count <= s.mt.call.size)
    && (n == 4 || n == 7 ==> s.mt.pc.at.moved <= s.mt.count)
    && (BetweenTests(s.mt) || 1 <= n <= 11 ==> s.slave.listening)
  }

  lemma MasterInvCopies(s: State)
    requires MasterInv(s) && 1 <= Stage(s.mt.pc) <= 7
    ensures MasterInv(XmitNext(s, s.mt.pc.at))
  {
  }

  lemma MasterInvCompletes(s: State)
    requires MasterInv(s) && 8 <= Stage(s.mt.pc)
    ensures MasterInv(XmitNext(s, s.mt.pc.at))
  {
  }

  lemma MasterInvPosts(s: State)
    requires MasterInv(s) && MasterCanStep(s) && s.mt.pc.MPost?
    ensures MasterInv(PostNext(s, s.mt.pc.field))
  {
    match s.mt.pc.field
    case PLock =>
    case PUnlock =>
    case _ =>
  }

  lemma MasterInvCalls(s: State)
    requires MasterInv(s) && MasterCanStep(s) && !s.mt.pc.MXmit? && !s.mt.pc.MPost?
    ensures MasterInv(CallNext(s))
  {
  }

  lemma MasterInvMasterStep(s: State)
    requires MasterInv(s) && MasterCanStep(s)
    ensures MasterInv(MasterNext(s))
  {
    if s.mt.pc.MPost? {
      MasterInvPosts(s);
    } else if !s.mt.pc.MXmit? {
      MasterInvCalls(s);
    } else if Stage(s.mt.pc) <= 7 {
      MasterInvCopies(s);
    } else {
      MasterInvCompletes(s);
    }
  }

  lemma MasterInvSlaveStep(s: State)
    requires MasterInv(s) && SlaveCanStep(s)
    ensures MasterInv(SlaveNext(s))
  {
  }

  lemma MasterInvStep(s: State, a: Action)
    requires MasterInv(s) && Enabled(s, a)
    ensures MasterInv(Next(s, a))
  {
    match a {
      case MasterStep => MasterInvMasterStep(s);
      case SlaveStep => MasterInvSlaveStep(s);
      case _ =>
    }
  }

  lemma {:induction false} MasterInvAlways(states: seq<State>, acts: seq<Action>, polite: bool, i: nat)
    requires IsRun(states, acts, polite) && i < |states|
    ensures MasterInv(states[i])
  {
    if i > 0 {
      MasterInvAlways(states, acts, polite, i - 1);
      assert Step(states[i - 1], acts[i - 1], states[i - 1 + 1]);
      MasterInvStep(states[i - 1], acts[i - 1]);
    }
  }
}
