/**
 Who can block in the SPI protocol. The master's thread always can go on and returns after a
 bounded number of its own steps. The slave's synchronous transfer returns only if its thread is
 already waiting when the signal is sent, and at most once in the life of a device.
 */
module SpiBlocking {
  import opened SpiProtocol
  import opened SpiInvariant
  import opened SpiTheorems

  // ---------------------------------------------------------------- the master never blocks

  // An upper bound on the steps that the master's thread still takes in its current call.
  function Rank(mt: MasterThread): nat
  {
    var c := mt.call.size;
    match mt.pc
    case MIdle => 0
    case MReturn => 1
    case MUnlock => 2
    case MClearTx => 3
    case MClearRx => 4
    case MXmit(at) => (
      match at
      case Raise => 5
      case Signal => 6
      case StopListening => 7
      case StoreSize => 8
      case ClearTx => 9
      case ClearRx => 10
      case InCopy(_, moved) => 11 + Left(mt.count, moved)
      case InArg => 12 + mt.count
      case InTest => 13 + mt.count
      case OutCopy(_, moved) => 14 + mt.count + Left(mt.count, moved)
      case OutArg => 15 + 2 * mt.count
      case OutTest => 16 + 2 * mt.count
      case Minimum => 17 + 2 * c)
    case MTest => 18 + 2 * c
    case MTx => 19 + 2 * c
    case MRx => 20 + 2 * c
    case MLock => 21 + 2 * c
    case MAsyncTest => 22 + 2 * c
    case MPost(field) => (
      match field
      case PLock => 8
      case PRx => 7
      case PTx => 6
      case PSize => 5
      case PListen => 4
      case PCallback => 3
      case PContext => 2
      case PUnlock => 1)
  }

  function Left(count: nat, moved: nat): nat {
    if moved <= count then count - moved else 0
  }

  lemma RankDecreasesInCopies(s: State)
    requires MasterInv(s) && 1 <= Stage(s.mt.pc) <= 7
    ensures Rank(XmitNext(s, s.mt.pc.at).mt) < Rank(s.mt)
  {
    match s.mt.pc.at
    case Minimum =>
    case OutCopy(_, _) =>
    case InCopy(_, _) =>
    case _ =>
  }

  lemma RankDecreasesAfterCopies(s: State)
    requires MasterInv(s) && 8 <= Stage(s.mt.pc)
    ensures Rank(XmitNext(s, s.mt.pc.at).mt) < Rank(s.mt)
  {
  }

  lemma RankDecreasesInPost(s: State)
    requires s.mt.pc.MPost?
    ensures Rank(PostNext(s, s.mt.pc.field).mt) < Rank(s.mt)
  {
  }

  lemma RankDecreasesInCall(s: State)
    requires MasterCanStep(s) && !s.mt.pc.MXmit? && !s.mt.pc.MPost?
    ensures Rank(CallNext(s).mt) < Rank(s.mt)
  {
  }

  lemma RankDecreases(s: State)
    requires MasterInv(s) && MasterCanStep(s)
    ensures Rank(MasterNext(s).mt) < Rank(s.mt)
  {
    hide Rank, XmitNext, PostNext, CallNext, MasterInv;
    if s.mt.pc.MPost? {
      RankDecreasesInPost(s);
    } else if !s.mt.pc.MXmit? {
      RankDecreasesInCall(s);
    } else if Stage(s.mt.pc) <= 7 {
      RankDecreasesInCopies(s);
    } else {
      RankDecreasesAfterCopies(s);
    }
  }

  lemma OthersLeaveMaster(s: State, a: Action)
    requires Enabled(s, a) && !a.MasterStep? && !a.MasterBegin?
    ensures Next(s, a).mt == s.mt
  {
  }

  // In every reachable state the master's thread can take its next step, if it is in a call.
  lemma MasterNeverBlocks(states: seq<State>, acts: seq<Action>, polite: bool, i: nat)
    requires IsRun(states, acts, polite) && i < |states|
    ensures states[i].mt.pc.MIdle? || Enabled(states[i], MasterStep)
  {
    MasterInvAlways(states, acts, polite, i);
  }

  // The steps of the master's thread from position i up to position k.
  ghost function MasterSteps(acts: seq<Action>, i: nat, k: nat): nat
    requires i <= k <= |acts|
    decreases k
  {
    if i == k then 0 else MasterSteps(acts, i, k - 1) + (if acts[k - 1].MasterStep? then 1 else 0)
  }

  // A master call of n bytes takes at most 22 + 2n steps of its own, whatever the slave's thread
  // does in between: during one call the steps taken never exceed the rank at its start.
  lemma {:induction false} MasterReturnsInBoundedSteps(states: seq<State>, acts: seq<Action>, polite: bool, i: nat, k: nat)
    requires IsRun(states, acts, polite) && i <= k < |states|
    requires forall m :: i <= m < k ==> !acts[m].MasterBegin?
    ensures MasterSteps(acts, i, k) + Rank(states[k].mt) <= Rank(states[i].mt) <= 22 + 2 * states[i].mt.call.size
    decreases k
  {
    MasterInvAlways(states, acts, polite, i);
    if i < k {
      MasterReturnsInBoundedSteps(states, acts, polite, i, k - 1);
      MasterInvAlways(states, acts, polite, k - 1);
      assert Step(states[k - 1], acts[k - 1], states[k - 1 + 1]);
      if acts[k - 1].MasterStep? {
        RankDecreases(states[k - 1]);
      } else {
        OthersLeaveMaster(states[k - 1], acts[k - 1]);
      }
    }
  }

  // A listening slave that async_xfer has seen is still listening when sync_xfer tests again, so
  // the immediate path of async_xfer always transfers.
  lemma AsyncTestSticks(states: seq<State>, acts: seq<Action>, polite: bool, i: nat)
    requires IsRun(states, acts, polite) && i < |acts| && acts[i].MasterStep?
    requires states[i].mt.pc.MTest? && !states[i].mt.call.sync
    ensures states[i + 1].mt.pc == MXmit(Minimum)
  {
    MasterInvAlways(states, acts, polite, i);
    assert Step(states[i], acts[i], states[i + 1]);
  }

  // A master's async_xfer without a listener posts on its own device; nothing ever serves it.
  lemma {:induction false} MasterPostNeverServed(states: seq<State>, acts: seq<Action>, polite: bool, i: nat, k: nat)
    requires IsRun(states, acts, polite) && i <= k < |states| && states[i].master.listening
    ensures states[k].master.listening
    decreases k
  {
    if i < k {
      MasterPostNeverServed(states, acts, polite, i, k - 1);
      assert Step(states[k - 1], acts[k - 1], states[k - 1 + 1]);
      MasterListensOn(states[k - 1], acts[k - 1]);
    }
  }

  lemma MasterListensOn(s: State, a: Action)
    requires Enabled(s, a) && s.master.listening
    ensures Next(s, a).master.listening
  {
  }

  // ---------------------------------------------------------------- the slave can wait for ever

  // cond_mutex is held from the return of a wait onwards, since it is never unlocked; a signal to
  // nobody leaves nothing behind.
  predicate CondInv(s: State) {
    && |s.returned| <= 1
    && (s.sync.condMutex <==> s.st.pc.SWait? || s.st.pc.SReturn? || s.returned != [])
    && (s.returned != [] ==> !s.st.pc.SWait? && !s.st.pc.SBlocked? && !s.st.pc.SReturn?)
    && (s.sync.woken ==> s.st.pc.SBlocked?)
  }

  lemma CondInvSlaveStep(s: State)
    requires CondInv(s) && SlaveCanStep(s)
    ensures CondInv(SlaveNext(s))
  {
  }

  lemma XmitLeavesCond(s: State, at: XmitPc)
    ensures var t := XmitNext(s, at);
            t.st == s.st && t.returned == s.returned && t.sync.condMutex == s.sync.condMutex
  {
  }

  lemma MasterLeavesCond(s: State)
    requires MasterCanStep(s)
    ensures var t := MasterNext(s);
            t.st == s.st && t.returned == s.returned && t.sync.condMutex == s.sync.condMutex
  {
    if s.mt.pc.MXmit? {
      XmitLeavesCond(s, s.mt.pc.at);
    } else if s.mt.pc.MPost? {
      var t := PostNext(s, s.mt.pc.field);
      assert t.st == s.st && t.returned == s.returned && t.sync.condMutex == s.sync.condMutex;
    } else {
      var t := CallNext(s);
      assert t.st == s.st && t.returned == s.returned && t.sync.condMutex == s.sync.condMutex;
    }
  }

  lemma CondInvStep(s: State, a: Action)
    requires CondInv(s) && Enabled(s, a)
    ensures CondInv(Next(s, a))
  {
    match a {
      case SlaveStep => CondInvSlaveStep(s);
      case MasterStep => MasterLeavesCond(s);
      case _ =>
    }
  }

  lemma {:induction false} CondInvAlways(states: seq<State>, acts: seq<Action>, polite: bool, i: nat)
    requires IsRun(states, acts, polite) && i < |states|
    ensures CondInv(states[i])
  {
    if i > 0 {
      CondInvAlways(states, acts, polite, i - 1);
      assert Step(states[i - 1], acts[i - 1], states[i - 1 + 1]);
      CondInvStep(states[i - 1], acts[i - 1]);
    }
  }

  // At most one sync_xfer of the slave ever returns: a later one stops for good at cond_mutex.
  lemma SyncReturnsAtMostOnce(states: seq<State>, acts: seq<Action>, polite: bool, i: nat)
    requires IsRun(states, acts, polite) && i < |states|
    ensures |states[i].returned| <= 1
    ensures |states[i].returned| == 1 && states[i].st.pc.SCondLock? ==> !Enabled(states[i], SlaveStep)
  {
    CondInvAlways(states, acts, polite, i);
  }

  // The slave's sync_xfer has been served and the signal for it is gone.
  predicate Doomed(s: State) {
    && s.st.post.sync && 8 <= Progress(s.st.pc) <= 11
    && !s.sync.woken
    && !s.slave.listening && !(1 <= Stage(s.mt.pc) <= 12)
  }

  lemma DoomedSlaveStep(s: State)
    requires Doomed(s) && SlaveCanStep(s)
    ensures Doomed(SlaveNext(s)) && SlaveNext(s).returned == s.returned
  {
  }

  lemma DoomedMasterPosts(s: State)
    requires Doomed(s) && s.mt.pc.MPost?
    ensures Doomed(PostNext(s, s.mt.pc.field)) && PostNext(s, s.mt.pc.field).returned == s.returned
  {
  }

  lemma DoomedMasterCalls(s: State)
    requires Doomed(s) && MasterCanStep(s) && !s.mt.pc.MXmit? && !s.mt.pc.MPost?
    ensures Doomed(CallNext(s)) && CallNext(s).returned == s.returned
  {
  }

  lemma DoomedMasterStep(s: State)
    requires Doomed(s) && MasterCanStep(s)
    ensures Doomed(MasterNext(s)) && MasterNext(s).returned == s.returned
  {
    hide PostNext, CallNext;
    if s.mt.pc.MPost? {
      DoomedMasterPosts(s);
    } else if s.mt.pc.MXmit? {
      assert Doomed(XmitNext(s, Raise));
    } else {
      DoomedMasterCalls(s);
    }
  }

  lemma DoomedStep(s: State, a: Action)
    requires Doomed(s) && Enabled(s, a)
    ensures Doomed(Next(s, a)) && Next(s, a).returned == s.returned
  {
    match a {
      case SlaveStep => DoomedSlaveStep(s);
      case MasterStep => DoomedMasterStep(s);
      case _ =>
    }
  }

  lemma {:induction false} DoomedForever(states: seq<State>, acts: seq<Action>, polite: bool, i: nat, k: nat)
    requires IsRun(states, acts, polite) && i <= k < |states| && Doomed(states[i])
    ensures Doomed(states[k]) && states[k].returned == states[i].returned
    decreases k
  {
    if i < k {
      DoomedForever(states, acts, polite, i, k - 1);
      assert Step(states[k - 1], acts[k - 1], states[k - 1 + 1]);
      DoomedStep(states[k - 1], acts[k - 1]);
    }
  }

  // The liveness that the slave's sync_xfer lacks, and when it has it. Its post is served and
  // xmit_locked is about to signal: the slave's thread gets going again if and only if it is
  // already waiting at that moment; otherwise this call never returns in any continuation.
  lemma SignalDecides(states: seq<State>, acts: seq<Action>, i: nat, k: nat)
    requires IsRun(states, acts, true) && i < k < |states|
    requires acts[i].MasterStep? && states[i].mt.pc == MXmit(Signal)
    requires states[i].st.post.sync && 8 <= Progress(states[i].st.pc) <= 11
    ensures states[i].st.pc.SBlocked? <==> (states[i + 1].st.pc.SBlocked? && Enabled(states[i + 1], SlaveStep))
    ensures !states[i].st.pc.SBlocked? ==> Doomed(states[k]) && states[k].returned == states[i].returned
  {
    InvAlways(states, acts, i);
    CondInvAlways(states, acts, true, i);
    assert Step(states[i], acts[i], states[i + 1]);
    assert states[i + 1] == XmitNext(states[i], Signal);
    if !states[i].st.pc.SBlocked? {
      DoomedForever(states, acts, true, i + 1, k);
    }
  }

  // ---------------------------------------------------------------- runs that show it

  ghost predicate Reachable(s: State, polite: bool) {
    exists states, acts :: IsRun(states, acts, polite) && s == states[|acts|]
  }

  lemma Begin(polite: bool)
    ensures Reachable(INITIAL, polite)
  {
    assert IsRun([INITIAL], [], polite);
  }

  lemma Reach(s: State, polite: bool, a: Action) returns (t: State)
    requires Reachable(s, polite) && Enabled(s, a) && (polite ==> Polite(s, a))
    ensures t == Next(s, a) && Reachable(t, polite)
  {
    t := Next(s, a);
    var states, acts :| IsRun(states, acts, polite) && s == states[|acts|];
    Extend(states, acts, polite, a);
    assert (states + [t])[|acts + [a]|] == t;
  }

  lemma SlaveGoes(s: State, polite: bool) returns (t: State)
    requires Reachable(s, polite) && SlaveCanStep(s)
    ensures t == SlaveNext(s) && Reachable(t, polite)
  {
    t := Reach(s, polite, SlaveStep);
  }

  lemma MasterGoes(s: State, polite: bool) returns (t: State)
    requires Reachable(s, polite) && MasterCanStep(s)
    ensures t == MasterNext(s) && Reachable(t, polite)
  {
    t := Reach(s, polite, MasterStep);
  }

  // The slave's thread publishes a post.
  lemma SlavePosts(s: State, polite: bool, call: Call) returns (t: State)
    requires Reachable(s, polite) && s.st.pc.SIdle? && !s.sync.masterLock && (call.sync || s.irqs.slave)
    requires polite ==> Polite(s, SlaveBegin(call))
    ensures Reachable(t, polite)
    ensures t == s.(st := SlaveThread(if call.sync then SUnlock else SCallback, call),
                    slave := s.slave.(rx := call.rx, tx := call.tx, size := call.size, listening := true),
                    sync := s.sync.(masterLock := true), log := s.log + [Posted(call)])
  {
    t := Reach(s, polite, SlaveBegin(call));
    t := SlaveGoes(t, polite);
    t := SlaveGoes(t, polite);
    t := SlaveGoes(t, polite);
    t := SlaveGoes(t, polite);
    t := SlaveGoes(t, polite);
  }

  // The master's thread calls sync_xfer and finds the slave listening.
  lemma MasterEnters(s: State, polite: bool, call: Call) returns (t: State)
    requires Reachable(s, polite) && s.mt.pc.MIdle? && !s.sync.slaveLock && call.sync && s.slave.listening
    ensures Reachable(t, polite)
    ensures t == s.(mt := s.mt.(call := call, pc := MXmit(Minimum)), sync := s.sync.(slaveLock := true),
                    master := s.master.(rx := call.rx, tx := call.tx))
  {
    t := Reach(s, polite, MasterBegin(call));
    t := MasterGoes(t, polite);
    t := MasterGoes(t, polite);
    t := MasterGoes(t, polite);
    t := MasterGoes(t, polite);
  }

  // It copies one byte to the master, then one byte to the slave.
  lemma MasterCopiesOut(s: State, polite: bool) returns (t: State)
    requires Reachable(s, polite) && s.mt.pc == MXmit(Minimum) && s.mt.call.size == 1 == s.slave.size
    requires s.slave.tx != NULL
    ensures Reachable(t, polite)
    ensures t == s.(mt := MasterThread(MXmit(InTest), s.mt.call, 1, Move(s.slave.tx, s.mt.call.rx, 1), NoMove))
  {
    t := MasterGoes(s, polite);
    t := MasterGoes(t, polite);
    t := MasterGoes(t, polite);
    t := MasterGoes(t, polite);
    t := MasterGoes(t, polite);
  }

  lemma MasterCopiesIn(s: State, polite: bool) returns (t: State)
    requires Reachable(s, polite) && s.mt.pc == MXmit(InTest) && s.mt.count == 1 && s.slave.rx != NULL
    ensures Reachable(t, polite)
    ensures t == s.(mt := s.mt.(pc := MXmit(ClearRx), toSlave := Move(s.mt.call.tx, s.slave.rx, 1)))
  {
    t := MasterGoes(s, polite);
    t := MasterGoes(t, polite);
    t := MasterGoes(t, polite);
    t := MasterGoes(t, polite);
  }

  // It completes the post and is about to signal.
  lemma MasterClears(s: State, polite: bool) returns (t: State)
    requires Reachable(s, polite) && s.mt.pc == MXmit(ClearRx)
    ensures Reachable(t, polite)
    ensures t == s.(mt := s.mt.(pc := MXmit(StoreSize)), slave := s.slave.(rx := NULL, tx := NULL))
  {
    t := MasterGoes(s, polite);
    t := MasterGoes(t, polite);
  }

  lemma MasterCompletes(s: State, polite: bool) returns (t: State)
    requires Reachable(s, polite) && s.mt.pc == MXmit(StoreSize)
    ensures Reachable(t, polite)
    ensures t == s.(mt := s.mt.(pc := MXmit(Signal)),
                    slave := s.slave.(size := s.mt.count, listening := false), log := Serve(s.log, s.mt))
  {
    t := MasterGoes(s, polite);
    t := MasterGoes(t, polite);
  }

  // A slave that has published a synchronous post starts to wait.
  lemma SlaveWaits(s: State, polite: bool) returns (t: State)
    requires Reachable(s, polite) && s.st.pc.SUnlock? && s.st.post.sync && !s.sync.condMutex
    ensures Reachable(t, polite)
    ensures t == s.(st := s.st.(pc := SBlocked), sync := s.sync.(masterLock := false, condMutex := false))
  {
    t := SlaveGoes(s, polite);
    t := SlaveGoes(t, polite);
    t := SlaveGoes(t, polite);
  }

  lemma MasterServes(s: State, polite: bool, call: Call) returns (t: State)
    requires Reachable(s, polite) && s.mt.pc.MIdle? && !s.sync.slaveLock && call.sync && s.slave.listening
    requires call.size == 1 == s.slave.size && s.slave.tx != NULL && s.slave.rx != NULL
    ensures Reachable(t, polite) && t.mt.pc == MXmit(Signal) && !t.slave.listening
    ensures t.st == s.st && t.sync == s.sync.(slaveLock := true) && t.irqs == s.irqs
    ensures t.slave.callback == s.slave.callback && t.slave.context == s.slave.context
  {
    t := MasterEnters(s, polite, call);
    t := MasterCopiesOut(t, polite);
    t := MasterCopiesIn(t, polite);
    t := MasterClears(t, polite);
    t := MasterCompletes(t, polite);
  }

  const ONE_BYTE := Call(1, 2, 1, true, NULL, NULL)

  // A slave's sync_xfer that never returns although its post is served: the master's thread
  // signals before the slave's thread has reached pthread_cond_wait.
  lemma SignalCanBeLost()
    ensures exists s :: Reachable(s, true) && Doomed(s)
  {
    Begin(true);
    var s := SlavePosts(INITIAL, true, ONE_BYTE);
    s := MasterServes(s, true, ONE_BYTE);
    s := MasterGoes(s, true);
    assert Doomed(s);
  }

  // Between the publication of an asynchronous post and the store of its callback, the transfer
  // can complete and raise its interrupt, which then finds no callback.
  lemma CallbackCanComeTooLate()
    ensures exists s :: Reachable(s, true) && s.mt.pc == MXmit(Raise)
                        && s.st.pc.SCallback? && s.st.post.callback != NULL && s.slave.callback == NULL
  {
    Begin(true);
    var s := Reach(INITIAL, true, SetSlaveIrq(true));
    s := SlavePosts(s, true, ONE_BYTE.(sync := false, callback := 3));
    s := MasterServes(s, true, ONE_BYTE);
    s := MasterGoes(s, true);
    assert s.mt.pc == MXmit(Raise) && s.st.pc.SCallback?;
  }

  // The hypothesis Polite is needed: a slave that posts between the end of one transfer and its
  // signal is woken by that signal and returns from sync_xfer with its post outstanding.
  lemma RudeSlaveReturnsEarly()
    ensures exists s :: Reachable(s, false) && s.st.pc.SReturn? && s.log != [] && Last(s.log).Posted?
  {
    Begin(false);
    var s := Reach(INITIAL, false, SetSlaveIrq(true));
    s := SlavePosts(s, false, ONE_BYTE.(sync := false));
    s := SlaveGoes(s, false);
    s := SlaveGoes(s, false);
    s := SlaveGoes(s, false);
    s := MasterServes(s, false, ONE_BYTE);
    s := SlavePosts(s, false, ONE_BYTE);
    s := SlaveWaits(s, false);
    s := MasterGoes(s, false);
    s := SlaveGoes(s, false);
    assert s.st.pc.SReturn? && Last(s.log) == Posted(ONE_BYTE);
  }
}
