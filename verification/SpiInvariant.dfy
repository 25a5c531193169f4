/**
 The invariant of polite runs of the SPI protocol: who owns the slave's fields, what they hold,
 and what each finished transfer has moved.
 */
module SpiInvariant {
  import opened SpiProtocol

  // How far xmit_locked is; 0 outside it. It listens to the slave's fields from 1 to 11.
  function Stage(pc: MasterPc): nat {
    if !pc.MXmit? then 0 else
    match pc.at
    case Minimum => 1
    case OutTest => 2
    case OutArg => 3
    case OutCopy(_, _) => 4
    case InTest => 5
    case InArg => 6
    case InCopy(_, _) => 7
    case ClearRx => 8
    case ClearTx => 9
    case StoreSize => 10
    case StopListening => 11
    case Signal => 12
    case Raise => 13
  }

  // How far the slave's thread is in its call; 0 outside. It writes the fields from 2 to 5.
  function Progress(pc: SlavePc): nat {
    match pc
    case SIdle => 0
    case SLock => 1
    case SRx => 2
    case STx => 3
    case SSize => 4
    case SListen => 5
    case SCallback => 6
    case SContext => 7
    case SUnlock => 8
    case SCondLock => 9
    case SWait => 10
    case SBlocked => 11
    case SReturn => 12
  }

  function ToMasterOf(post: Call, call: Call): Move {
    var n := Min(call.size, post.size);
    if n > 0 && post.tx != NULL then Move(post.tx, call.rx, n) else NoMove
  }

  function ToSlaveOf(post: Call, call: Call): Move {
    var n := Min(call.size, post.size);
    if n > 0 && post.rx != NULL then Move(call.tx, post.rx, n) else NoMove
  }

  // The transfer moved exactly what the two calls asked for.
  predicate Faithful(e: Entry) {
    && e.Served?
    && e.count == Min(e.call.size, e.post.size)
    && e.toMaster == ToMasterOf(e.post, e.call)
    && e.toSlave == ToSlaveOf(e.post, e.call)
  }

  // The slave writes its fields only when it is not listening, the master only when it is; a
  // slave listens exactly while its last post is outstanding.
  predicate Ownership(s: State) {
    && (1 <= Stage(s.mt.pc) <= 11 ==> s.slave.listening)
    && (Stage(s.mt.pc) == 12 ==> !s.slave.listening)
    && (1 <= Progress(s.st.pc) <= 5 ==> !s.slave.listening && Stage(s.mt.pc) != 12)
    && (s.slave.listening <==> s.log != [] && Last(s.log).Posted?)
  }

  // A listening slave's fields are those of its last post, less what xmit_locked has replaced.
  predicate PostedFields(s: State) {
    s.slave.listening && s.log != [] ==>
      && s.slave.rx == (if 9 <= Stage(s.mt.pc) <= 11 then NULL else Last(s.log).post.rx)
      && s.slave.tx == (if 10 <= Stage(s.mt.pc) <= 11 then NULL else Last(s.log).post.tx)
      && s.slave.size == (if Stage(s.mt.pc) == 11 then s.mt.count else Last(s.log).post.size)
  }

  // What the slave's thread has written so far, and which post it is waiting for.
  predicate WrittenFields(s: State) {
    var n := Progress(s.st.pc);
    && (3 <= n <= 5 ==> s.slave.rx == s.st.post.rx)
    && (4 <= n <= 5 ==> s.slave.tx == s.st.post.tx)
    && (n == 5 ==> s.slave.size == s.st.post.size)
    && (6 <= n ==> s.log != [] && s.st.post == Last(s.log).post)
    && (6 <= n <= 7 ==> !s.st.post.sync)
    && (9 <= n ==> s.st.post.sync)
  }

  // What xmit_locked has computed and copied so far belongs to the last post.
  predicate Copying(s: State) {
    var n := Stage(s.mt.pc);
    2 <= n <= 11 && s.log != [] ==>
      var p := Last(s.log).post;
      && s.mt.count == Min(s.mt.call.size, p.size)
      && s.mt.toMaster == (if n <= 4 then NoMove else ToMasterOf(p, s.mt.call))
      && s.mt.toSlave == (if n <= 7 then NoMove else ToSlaveOf(p, s.mt.call))
      && (3 <= n <= 4 ==> s.mt.count > 0 && p.tx != NULL)
      && (n == 4 ==> s.mt.pc.at.src == p.tx && s.mt.pc.at.moved <= s.mt.count)
      && (6 <= n <= 7 ==> s.mt.count > 0 && p.rx != NULL)
      && (n == 7 ==> s.mt.pc.at.dst == p.rx && s.mt.pc.at.moved <= s.mt.count)
  }

  // Every post but an outstanding last one has been served, faithfully.
  predicate AllServed(s: State) {
    forall i :: 0 <= i < |s.log| && (i < |s.log| - 1 || !s.slave.listening) ==> Faithful(s.log[i])
  }

  // A slave that is woken or returns has been served and signalled, and its size field says how
  // much, until it prepares the next post.
  predicate Waiting(s: State) {
    var n := Progress(s.st.pc);
    && (!s.slave.listening && n != 5 && s.log != [] && Last(s.log).Served? ==> s.slave.size == Last(s.log).count)
    && (n == 12 || s.sync.woken ==> !s.slave.listening && Stage(s.mt.pc) != 12)
    && (s.sync.woken ==> n == 11)
    && (forall r :: r in s.returned ==>
          0 <= r.post < |s.log| && s.log[r.post].Served? && r.value == ToInt(s.log[r.post].count))
  }

  // No buffer address of a finished transfer is left behind in a slave that is not listening.
  predicate Cleared(s: State) {
    var n := Progress(s.st.pc);
    && (!s.slave.listening && (n <= 2 || 6 <= n) ==> s.slave.rx == NULL)
    && (!s.slave.listening && (n <= 3 || 6 <= n) ==> s.slave.tx == NULL)
  }

  predicate Inv(s: State) {
    Ownership(s) && PostedFields(s) && WrittenFields(s) && Copying(s) && AllServed(s) && Waiting(s) && Cleared(s)
  }

  // Nothing the invariant reads changes while the master's thread is outside xmit_locked.
  lemma InvFrame(s: State, t: State)
    requires Inv(s) && Stage(s.mt.pc) == Stage(t.mt.pc) == 0
    requires t.slave == s.slave && t.st == s.st && t.sync.woken == s.sync.woken
    requires t.log == s.log && t.returned == s.returned
    ensures Inv(t)
  {
  }

  lemma InvSlavePrepares(s: State)
    requires Inv(s) && SlaveCanStep(s) && 1 <= Progress(s.st.pc) <= 4
    ensures Inv(SlaveNext(s))
  {
    match s.st.pc
    case SLock =>
    case SRx =>
    case STx =>
    case SSize =>
  }

  lemma InvSlavePublishes(s: State)
    requires Inv(s) && SlaveCanStep(s) && Progress(s.st.pc) == 5
    ensures Inv(SlaveNext(s))
  {
  }

  lemma InvSlaveStoresCallback(s: State)
    requires Inv(s) && SlaveCanStep(s) && 6 <= Progress(s.st.pc) <= 7
    ensures Inv(SlaveNext(s))
  {
    match s.st.pc
    case SCallback =>
    case SContext =>
  }

  lemma InvSlaveUnlocks(s: State)
    requires Inv(s) && SlaveCanStep(s) && 8 <= Progress(s.st.pc) <= 9
    ensures Inv(SlaveNext(s))
  {
    match s.st.pc
    case SUnlock =>
    case SCondLock =>
  }

  lemma InvSlaveWaits(s: State)
    requires Inv(s) && SlaveCanStep(s) && 10 <= Progress(s.st.pc)
    ensures Inv(SlaveNext(s))
  {
    match s.st.pc
    case SWait =>
    case SBlocked =>
    case SReturn =>
  }

  lemma InvOutArguments(s: State)
    requires Inv(s) && 1 <= Stage(s.mt.pc) <= 3
    ensures Inv(XmitNext(s, s.mt.pc.at))
  {
    match s.mt.pc.at
    case Minimum =>
    case OutTest =>
    case OutArg =>
  }

  lemma InvOutCopies(s: State)
    requires Inv(s) && Stage(s.mt.pc) == 4
    ensures Inv(XmitNext(s, s.mt.pc.at))
  {
  }

  lemma InvInArguments(s: State)
    requires Inv(s) && 5 <= Stage(s.mt.pc) <= 6
    ensures Inv(XmitNext(s, s.mt.pc.at))
  {
    match s.mt.pc.at
    case InTest =>
    case InArg =>
  }

  lemma InvInCopies(s: State)
    requires Inv(s) && Stage(s.mt.pc) == 7
    ensures Inv(XmitNext(s, s.mt.pc.at))
  {
  }

  lemma InvClears(s: State)
    requires Inv(s) && 8 <= Stage(s.mt.pc) <= 9
    ensures Inv(XmitNext(s, s.mt.pc.at))
  {
    match s.mt.pc.at
    case ClearRx =>
    case ClearTx =>
  }

  lemma InvStoresSize(s: State)
    requires Inv(s) && Stage(s.mt.pc) == 10
    ensures Inv(XmitNext(s, s.mt.pc.at))
  {
  }

  lemma InvCompletes(s: State)
    requires Inv(s) && Stage(s.mt.pc) == 11
    ensures Inv(XmitNext(s, s.mt.pc.at))
  {
  }

  lemma InvSignals(s: State)
    requires Inv(s) && 12 <= Stage(s.mt.pc)
    ensures Inv(XmitNext(s, s.mt.pc.at))
  {
    match s.mt.pc.at
    case Signal =>
    case Raise =>
  }

  lemma InvSlaveStep(s: State)
    requires Inv(s) && SlaveCanStep(s)
    ensures Inv(SlaveNext(s))
  {
    var n := Progress(s.st.pc);
    if n <= 4 {
      InvSlavePrepares(s);
    } else if n == 5 {
      InvSlavePublishes(s);
    } else if n <= 7 {
      InvSlaveStoresCallback(s);
    } else if n <= 9 {
      InvSlaveUnlocks(s);
    } else {
      InvSlaveWaits(s);
    }
  }

  lemma InvXmitStep(s: State)
    requires Inv(s) && s.mt.pc.MXmit?
    ensures Inv(XmitNext(s, s.mt.pc.at))
  {
    var n := Stage(s.mt.pc);
    if n <= 3 {
      InvOutArguments(s);
    } else if n == 4 {
      InvOutCopies(s);
    } else if n <= 6 {
      InvInArguments(s);
    } else if n == 7 {
      InvInCopies(s);
    } else if n <= 9 {
      InvClears(s);
    } else if n == 10 {
      InvStoresSize(s);
    } else if n == 11 {
      InvCompletes(s);
    } else {
      InvSignals(s);
    }
  }

  lemma InvCallStep(s: State)
    requires Inv(s) && MasterCanStep(s) && !s.mt.pc.MXmit? && !s.mt.pc.MPost?
    ensures Inv(CallNext(s))
  {
    if !s.mt.pc.MTest? {
      InvFrame(s, CallNext(s));
    }
  }

  lemma InvMasterStep(s: State)
    requires Inv(s) && MasterCanStep(s)
    ensures Inv(MasterNext(s))
  {
    if s.mt.pc.MXmit? {
      InvXmitStep(s);
    } else if s.mt.pc.MPost? {
      InvFrame(s, PostNext(s, s.mt.pc.field));
    } else {
      hide Inv, CallNext;
      InvCallStep(s);
    }
  }

  // A call begins, an interrupt is enabled or disabled, or the interrupt handler runs.
  lemma InvOtherStep(s: State, a: Action)
    requires Inv(s) && Enabled(s, a) && Polite(s, a) && !a.SlaveStep? && !a.MasterStep?
    ensures Inv(Next(s, a))
  {
  }

  lemma InvStep(s: State, a: Action)
    requires Inv(s) && Enabled(s, a) && Polite(s, a)
    ensures Inv(Next(s, a))
  {
    hide Inv, SlaveNext, MasterNext;
    match a {
      case SlaveStep => InvSlaveStep(s);
      case MasterStep => InvMasterStep(s);
      case _ => InvOtherStep(s, a);
    }
  }

  lemma {:induction false} InvAlways(states: seq<State>, acts: seq<Action>, i: nat)
    requires IsRun(states, acts, true) && i < |states|
    ensures Inv(states[i])
  {
    if i > 0 {
      InvAlways(states, acts, i - 1);
      assert Step(states[i - 1], acts[i - 1], states[i - 1 + 1]);
      InvStep(states[i - 1], acts[i - 1]);
    }
  }
}
