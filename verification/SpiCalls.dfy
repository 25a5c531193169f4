/**
 What whole calls of the SPI protocol do, from the call to its return, in every interleaving: which
 way a master's call goes, what it leaves behind, and what a slave's call publishes.
 */
module SpiCalls {
  import opened SpiProtocol
  import opened SpiInvariant
  import opened SpiTheorems
  import opened SpiBlocking

  // ---------------------------------------------------------------- the interrupt switches

  // The last of the first k actions that switches the slave's interrupt switches it on.
  predicate SlaveIrqOn(acts: seq<Action>, k: nat)
    requires k <= |acts|
  {
    k > 0 && (if acts[k - 1].SetSlaveIrq? then acts[k - 1].on else SlaveIrqOn(acts, k - 1))
  }

  predicate MasterIrqOn(acts: seq<Action>, k: nat)
    requires k <= |acts|
  {
    k > 0 && (if acts[k - 1].SetMasterIrq? then acts[k - 1].on else MasterIrqOn(acts, k - 1))
  }

  lemma MasterIrqs(s: State)
    requires MasterCanStep(s)
    ensures MasterNext(s).irqs ==
            s.irqs.(pending := s.irqs.pending || (s.mt.pc == MXmit(Raise) && s.irqs.slave))
  {
    if s.mt.pc.MXmit? {
      assert XmitNext(s, s.mt.pc.at).irqs == s.irqs || s.mt.pc.at.Raise?;
    } else if s.mt.pc.MPost? {
      assert PostNext(s, s.mt.pc.field).irqs == s.irqs;
    } else {
      assert CallNext(s).irqs == s.irqs;
    }
  }

  lemma IrqStep(s: State, a: Action)
    requires Enabled(s, a)
    ensures var t := Next(s, a).irqs;
            && t.slave == (if a.SetSlaveIrq? then a.on else s.irqs.slave)
            && t.master == (if a.SetMasterIrq? then a.on else s.irqs.master)
            && t.pending == (s.irqs.pending || (a.MasterStep? && s.mt.pc == MXmit(Raise) && s.irqs.slave))
  {
    if a.MasterStep? {
      hide MasterNext;
      MasterIrqs(s);
    }
  }

  lemma {:induction false} IrqsAre(states: seq<State>, acts: seq<Action>, polite: bool, k: nat)
    requires IsRun(states, acts, polite) && k < |states|
    ensures states[k].irqs.slave == SlaveIrqOn(acts, k) && states[k].irqs.master == MasterIrqOn(acts, k)
  {
    if k > 0 {
      hide Next;
      IrqsAre(states, acts, polite, k - 1);
      assert Step(states[k - 1], acts[k - 1], states[k - 1 + 1]);
      IrqStep(states[k - 1], acts[k - 1]);
    }
  }

  // Step k raises the slave's interrupt at the end of a transfer, with the interrupt enabled.
  predicate Raises(states: seq<State>, acts: seq<Action>, k: nat)
    requires k < |acts| && k < |states|
  {
    acts[k].MasterStep? && states[k].mt.pc == MXmit(Raise) && SlaveIrqOn(acts, k)
  }

  // The slave's interrupt is pending, so that its handler can run, exactly if some transfer has
  // raised it while it was enabled.
  lemma {:induction false} PendingExactly(states: seq<State>, acts: seq<Action>, polite: bool, i: nat)
    requires IsRun(states, acts, polite) && i < |states|
    ensures Enabled(states[i], SlaveIrqHandler) <==> exists k :: 0 <= k < i && Raises(states, acts, k)
  {
    if i > 0 {
      hide Next;
      PendingExactly(states, acts, polite, i - 1);
      IrqsAre(states, acts, polite, i - 1);
      assert Step(states[i - 1], acts[i - 1], states[i - 1 + 1]);
      IrqStep(states[i - 1], acts[i - 1]);
      assert states[i].irqs.pending <==> states[i - 1].irqs.pending || Raises(states, acts, i - 1);
    }
  }

  // ---------------------------------------------------------------- a master's call

  datatype Answer = NotAsked | Found | NotFound

  // What the master's thread has done in its call: the answers of its two tests of is_listening, the
  // number of posts at the second, and how often it has signalled and raised.
  datatype Course = Course(asked: Answer, tested: Answer, posts: nat, signals: nat, raises: nat)

  function AnswerOf(listening: bool): Answer { if listening then Found else NotFound }

  function Follow(c: Course, s: State, a: Action): Course {
    if !a.MasterStep? then c
    else
      match s.mt.pc
      case MAsyncTest => c.(asked := AnswerOf(s.slave.listening))
      case MTest => c.(tested := AnswerOf(s.slave.listening), posts := |s.log|)
      case MXmit(at) => c.(signals := if at.Signal? then c.signals + 1 else c.signals,
                           raises := if at.Raise? then c.raises + 1 else c.raises)
      case _ => c
  }

  const NOT_YET := Course(NotAsked, NotAsked, 0, 0, 0)

  // The course of the call begun by action m, up to position k.
  ghost function CourseOf(states: seq<State>, acts: seq<Action>, m: nat, k: nat): Course
    requires |states| == |acts| + 1 && m < k <= |acts|
    decreases k
  {
    if k == m + 1 then NOT_YET
    else Follow(CourseOf(states, acts, m, k - 1), states[k - 1], acts[k - 1])
  }

  // No post of the log has been served since it was this long and like this.
  predicate NothingServed(before: seq<Entry>, log: seq<Entry>) {
    && |before| <= |log|
    && (forall j :: 0 <= j < |before| ==> log[j] == before[j])
    && (forall j :: |before| <= j < |log| ==> log[j].Posted?)
  }

  // The post that was last at the test has been served by a call with these arguments.
  predicate ServedBy(log: seq<Entry>, posts: nat, arg: Call) {
    0 < posts <= |log| && Faithful(log[posts - 1]) && log[posts - 1].call == arg
  }

  // The way to the transfer: at once, or after a first test that found a listener.
  predicate OnTheWay(arg: Call, c: Course) {
    c.asked == (if arg.sync then NotAsked else Found)
  }

  // In xmit_locked up to the end of the copies.
  predicate Transferring(s: State, before: seq<Entry>, arg: Call, c: Course) {
    && OnTheWay(arg, c) && c.tested == Found && c.posts == |s.log| && c.signals == 0 && c.raises == 0
    && s.log != [] && NothingServed(before, s.log)
  }

  predicate TransferDone(s: State, arg: Call, c: Course, signals: nat, raises: nat) {
    && OnTheWay(arg, c) && c.tested == Found && c.signals == signals && c.raises == raises
    && ServedBy(s.log, c.posts, arg)
  }

  // After the test: a listener has been served, signalled and raised, or there was none.
  predicate Outcome(s: State, before: seq<Entry>, arg: Call, c: Course) {
    || TransferDone(s, arg, c, 1, 1)
    || (OnTheWay(arg, c) && arg.sync && c.tested == NotFound && c.signals == 0 && c.raises == 0
        && NothingServed(before, s.log))
  }

  // On the way to the post on the own device: an asynchronous call that found no listener.
  predicate Posting(s: State, before: seq<Entry>, arg: Call, c: Course) {
    !arg.sync && c == NOT_YET.(asked := NotFound) && NothingServed(before, s.log)
  }

  function PostProgress(pc: PostPc): nat {
    match pc
    case PLock => 0
    case PRx => 1
    case PTx => 2
    case PSize => 3
    case PListen => 4
    case PCallback => 5
    case PContext => 6
    case PUnlock => 7
  }

  predicate PostedSoFar(d: Device, arg: Call, n: nat) {
    && (n >= 2 ==> d.rx == arg.rx)
    && (n >= 3 ==> d.tx == arg.tx)
    && (n >= 4 ==> d.size == arg.size)
    && (n >= 5 ==> d.listening)
    && (n >= 6 ==> d.callback == arg.callback)
    && (n >= 7 ==> d.context == arg.context)
  }

  // Where the call with these arguments is, by the next statement of its thread; before is the log
  // at the call.
  predicate Story(s: State, before: seq<Entry>, arg: Call, c: Course) {
    (!s.mt.pc.MIdle? ==> s.mt.call == arg) &&
    match s.mt.pc
    case MAsyncTest => !arg.sync && c == NOT_YET && NothingServed(before, s.log)
    case MLock => OnTheWay(arg, c) && c == NOT_YET.(asked := c.asked) && NothingServed(before, s.log)
    case MRx => OnTheWay(arg, c) && c == NOT_YET.(asked := c.asked) && NothingServed(before, s.log)
    case MTx =>
      OnTheWay(arg, c) && c == NOT_YET.(asked := c.asked) && NothingServed(before, s.log) && s.master.rx == arg.rx
    case MTest =>
      OnTheWay(arg, c) && c == NOT_YET.(asked := c.asked) && NothingServed(before, s.log)
      && s.master.rx == arg.rx && s.master.tx == arg.tx
    case MXmit(at) =>
      if at.Signal? then TransferDone(s, arg, c, 0, 0)
      else if at.Raise? then TransferDone(s, arg, c, 1, 0)
      else Transferring(s, before, arg, c)
    case MClearRx => Outcome(s, before, arg, c)
    case MClearTx => Outcome(s, before, arg, c) && s.master.rx == NULL
    case MUnlock => Outcome(s, before, arg, c) && s.master.rx == NULL && s.master.tx == NULL
    case MReturn => Outcome(s, before, arg, c) && s.master.rx == NULL && s.master.tx == NULL
    case MPost(field) => Posting(s, before, arg, c) && PostedSoFar(s.master, arg, PostProgress(field))
    case MIdle =>
      || (Outcome(s, before, arg, c) && s.master.rx == NULL && s.master.tx == NULL)
      || (Posting(s, before, arg, c) && PostedSoFar(s.master, arg, 7))
  }

  lemma StoryXmit(s: State, before: seq<Entry>, arg: Call, c: Course)
    requires Story(s, before, arg, c) && s.mt.pc.MXmit? && Inv(s)
    ensures Story(XmitNext(s, s.mt.pc.at), before, arg, Follow(c, s, MasterStep))
  {
    hide PostedFields, WrittenFields, Waiting, Cleared;
    if s.mt.pc == MXmit(StopListening) {
      InvCompletes(s);
    }
  }

  lemma StoryPost(s: State, before: seq<Entry>, arg: Call, c: Course)
    requires Story(s, before, arg, c) && s.mt.pc.MPost?
    ensures Story(PostNext(s, s.mt.pc.field), before, arg, Follow(c, s, MasterStep))
  {
    hide Outcome, Transferring, TransferDone;
  }

  lemma StoryCall(s: State, before: seq<Entry>, arg: Call, c: Course)
    requires Story(s, before, arg, c) && MasterCanStep(s) && !s.mt.pc.MXmit? && !s.mt.pc.MPost?
    requires Ownership(s) && MasterInv(s)
    ensures Story(CallNext(s), before, arg, Follow(c, s, MasterStep))
  {
  }

  lemma StoryOther(s: State, a: Action, before: seq<Entry>, arg: Call, c: Course)
    requires Story(s, before, arg, c) && Ownership(s) && Enabled(s, a) && !a.MasterStep? && !a.MasterBegin?
    ensures Story(Next(s, a), before, arg, c)
  {
    var t := Next(s, a);
    assert t.mt == s.mt && t.master == s.master;
    assert t.log == s.log || (t.log == s.log + [Posted(s.st.post)] && !s.slave.listening);
  }

  lemma StoryStep(s: State, a: Action, before: seq<Entry>, arg: Call, c: Course)
    requires Story(s, before, arg, c) && Inv(s) && MasterInv(s) && Enabled(s, a) && !a.MasterBegin?
    ensures Story(Next(s, a), before, arg, Follow(c, s, a))
  {
    hide Story, Follow, Inv, XmitNext, PostNext, CallNext, MasterInv;
    assert Ownership(s) by {
      InvOwns(s);
    }
    if !a.MasterStep? {
      StoryOther(s, a, before, arg, c);
      FollowOther(c, s, a);
    } else if s.mt.pc.MXmit? {
      StoryXmit(s, before, arg, c);
    } else if s.mt.pc.MPost? {
      StoryPost(s, before, arg, c);
    } else {
      StoryCall(s, before, arg, c);
    }
  }

  lemma InvOwns(s: State)
    requires Inv(s)
    ensures Ownership(s)
  {
  }

  lemma FollowOther(c: Course, s: State, a: Action)
    requires !a.MasterStep?
    ensures Follow(c, s, a) == c
  {
  }

  // Action m begins a master's call that is not refused, and no other call begins before k.
  ghost predicate MasterCall(states: seq<State>, acts: seq<Action>, m: nat, k: nat) {
    && IsRun(states, acts, true) && m < k < |states| && acts[m].MasterBegin?
    && (acts[m].arg.sync || MasterIrqOn(acts, m))
    && forall j :: m < j < k ==> !acts[j].MasterBegin?
  }

  lemma StoryBegins(s: State, a: Action)
    requires Enabled(s, a) && a.MasterBegin? && (a.arg.sync || s.irqs.master)
    ensures Story(Next(s, a), s.log, a.arg, NOT_YET)
  {
  }

  lemma {:induction false} StoryAlways(states: seq<State>, acts: seq<Action>, m: nat, k: nat)
    requires MasterCall(states, acts, m, k)
    ensures Story(states[k], states[m].log, acts[m].arg, CourseOf(states, acts, m, k))
    decreases k
  {
    if k == m + 1 {
      hide Story, Next, MasterIrqOn;
      IrqsAre(states, acts, true, m);
      assert Step(states[m], acts[m], states[m + 1]);
      StoryBegins(states[m], acts[m]);
    } else {
      hide Story, Follow, Inv, MasterInv, Next;
      StoryAlways(states, acts, m, k - 1);
      InvAlways(states, acts, k - 1);
      MasterInvAlways(states, acts, true, k - 1);
      assert Step(states[k - 1], acts[k - 1], states[k - 1 + 1]);
      StoryStep(states[k - 1], acts[k - 1], states[m].log, acts[m].arg, CourseOf(states, acts, m, k - 1));
    }
  }

  // A finished synchronous call of the master has tested is_listening once. If it found a listener,
  // the post that was outstanding at the test is served with this call's arguments, and signalled
  // and raised once; otherwise no post was served. The device holds no buffer and no lock.
  lemma SyncCallOutcome(states: seq<State>, acts: seq<Action>, m: nat, k: nat)
    requires MasterCall(states, acts, m, k) && acts[m].arg.sync && states[k].mt.pc.MIdle?
    ensures var s, arg, c := states[k], acts[m].arg, CourseOf(states, acts, m, k);
            && c.asked == NotAsked && c.tested != NotAsked
            && (if c.tested == Found then ServedBy(s.log, c.posts, arg) && c.signals == c.raises == 1
                else NothingServed(states[m].log, s.log) && c.signals == c.raises == 0)
            && s.master.rx == NULL && s.master.tx == NULL && !s.sync.slaveLock
  {
    StoryAlways(states, acts, m, k);
    MasterInvAlways(states, acts, true, k);
  }

  // A finished asynchronous call of the master, its interrupt enabled: if its first test found a
  // listener, so did the second, and the post that was outstanding is served with this call's
  // arguments; otherwise the call is a post on the own device, with all its arguments.
  lemma AsyncCallOutcome(states: seq<State>, acts: seq<Action>, m: nat, k: nat)
    requires MasterCall(states, acts, m, k) && !acts[m].arg.sync && states[k].mt.pc.MIdle?
    ensures var s, arg, c := states[k], acts[m].arg, CourseOf(states, acts, m, k);
            && c.asked != NotAsked
            && (if c.asked == Found
                then c.tested == Found && ServedBy(s.log, c.posts, arg) && c.signals == c.raises == 1
                     && s.master.rx == NULL && s.master.tx == NULL
                else c.tested == NotAsked && NothingServed(states[m].log, s.log) && c.signals == c.raises == 0
                     && s.master == Device(arg.rx, arg.tx, arg.size, true, arg.callback, arg.context))
            && !s.sync.slaveLock
  {
    StoryAlways(states, acts, m, k);
    MasterInvAlways(states, acts, true, k);
  }

  // The first test decides: the transfer if and only if the slave is listening.
  lemma AsyncTestDecides(states: seq<State>, acts: seq<Action>, polite: bool, i: nat)
    requires IsRun(states, acts, polite) && i < |acts| && acts[i].MasterStep? && states[i].mt.pc.MAsyncTest?
    ensures states[i].slave.listening <==> BetweenTests(states[i + 1].mt)
    ensures !states[i].slave.listening <==> states[i + 1].mt.pc.MPost?
  {
    MasterInvAlways(states, acts, polite, i);
    NeverAsyncTestsSync(states, acts, polite, i);
    assert Step(states[i], acts[i], states[i + 1]);
  }

  lemma {:induction false} NeverAsyncTestsSync(states: seq<State>, acts: seq<Action>, polite: bool, i: nat)
    requires IsRun(states, acts, polite) && i < |states|
    ensures states[i].mt.pc.MAsyncTest? ==> !states[i].mt.call.sync
  {
    if i > 0 {
      NeverAsyncTestsSync(states, acts, polite, i - 1);
      assert Step(states[i - 1], acts[i - 1], states[i - 1 + 1]);
      if acts[i - 1].MasterStep? {
        NoMasterStepToAsyncTest(states[i - 1]);
      } else if !acts[i - 1].MasterBegin? {
        OthersLeaveMaster(states[i - 1], acts[i - 1]);
      }
    }
  }

  lemma NoMasterStepToAsyncTest(s: State)
    requires MasterCanStep(s)
    ensures !MasterNext(s).mt.pc.MAsyncTest?
  {
  }

  // A call is refused, and changes nothing, exactly if it is asynchronous and the interrupt of its
  // device is disabled.
  lemma RefusedExactly(states: seq<State>, acts: seq<Action>, polite: bool, m: nat)
    requires IsRun(states, acts, polite) && m < |acts| && (acts[m].MasterBegin? || acts[m].SlaveBegin?)
    ensures states[m + 1] == states[m] <==>
            !acts[m].arg.sync && !(if acts[m].MasterBegin? then MasterIrqOn(acts, m) else SlaveIrqOn(acts, m))
  {
    IrqsAre(states, acts, polite, m);
    assert Step(states[m], acts[m], states[m + 1]);
  }

  // ---------------------------------------------------------------- a slave's call

  // The slave's thread holds the master's mutex.
  predicate SlaveHoldsLock(pc: SlavePc) {
    2 <= Progress(pc) <= 8
  }

  // Where the slave's call with these arguments is; posts and returned are those at the call.
  predicate SlaveStory(s: State, posts: nat, returned: seq<Return>, arg: Call) {
    var n := Progress(s.st.pc);
    && (n > 0 ==> s.st.post == arg)
    && (if 1 <= n <= 5 then |s.log| == posts else |s.log| == posts + 1 && s.log[posts].post == arg)
    && (6 <= n <= 7 ==> !arg.sync) && (9 <= n ==> arg.sync)
    && (if n == 0 && arg.sync then |s.returned| == |returned| + 1 && s.returned[..|returned|] == returned
                                   && s.returned[|returned|].post == posts
        else s.returned == returned)
  }

  lemma SlaveStoryOwnStep(s: State, posts: nat, returned: seq<Return>, arg: Call)
    requires SlaveStory(s, posts, returned, arg) && SlaveCanStep(s)
    ensures SlaveStory(SlaveNext(s), posts, returned, arg)
  {
  }

  lemma MasterKeepsPosts(s: State)
    requires MasterCanStep(s)
    ensures var t := MasterNext(s);
            t.st == s.st && t.returned == s.returned && t.sync.masterLock == s.sync.masterLock
            && |t.log| == |s.log| && forall j :: 0 <= j < |s.log| ==> t.log[j].post == s.log[j].post
  {
    if s.mt.pc.MXmit? {
      XmitKeepsPosts(s, s.mt.pc.at);
    } else if s.mt.pc.MPost? {
      var t := PostNext(s, s.mt.pc.field);
      assert t.log == s.log && t.st == s.st && t.returned == s.returned && t.sync.masterLock == s.sync.masterLock;
    } else {
      var t := CallNext(s);
      assert t.log == s.log && t.st == s.st && t.returned == s.returned && t.sync.masterLock == s.sync.masterLock;
    }
  }

  lemma XmitKeepsPosts(s: State, at: XmitPc)
    ensures var t := XmitNext(s, at);
            t.st == s.st && t.returned == s.returned && t.sync.masterLock == s.sync.masterLock
            && |t.log| == |s.log| && forall j :: 0 <= j < |s.log| ==> t.log[j].post == s.log[j].post
  {
  }

  lemma SlaveStoryStep(s: State, a: Action, posts: nat, returned: seq<Return>, arg: Call)
    requires SlaveStory(s, posts, returned, arg) && Enabled(s, a) && !a.SlaveBegin?
    ensures SlaveStory(Next(s, a), posts, returned, arg)
  {
    match a {
      case SlaveStep => SlaveStoryOwnStep(s, posts, returned, arg);
      case MasterStep => MasterKeepsPosts(s);
      case _ =>
    }
  }

  // Action m begins a slave's call that is not refused, and no other call begins before k.
  ghost predicate SlaveCall(states: seq<State>, acts: seq<Action>, polite: bool, m: nat, k: nat) {
    && IsRun(states, acts, polite) && m < k < |states| && acts[m].SlaveBegin?
    && (acts[m].arg.sync || SlaveIrqOn(acts, m))
    && forall j :: m < j < k ==> !acts[j].SlaveBegin?
  }

  lemma {:induction false} SlaveStoryAlways(states: seq<State>, acts: seq<Action>, polite: bool, m: nat, k: nat)
    requires SlaveCall(states, acts, polite, m, k)
    ensures SlaveStory(states[k], |states[m].log|, states[m].returned, acts[m].arg)
    decreases k
  {
    if k == m + 1 {
      IrqsAre(states, acts, polite, m);
      assert Step(states[m], acts[m], states[m + 1]);
    } else {
      hide SlaveStory, Next;
      SlaveStoryAlways(states, acts, polite, m, k - 1);
      assert Step(states[k - 1], acts[k - 1], states[k - 1 + 1]);
      SlaveStoryStep(states[k - 1], acts[k - 1], |states[m].log|, states[m].returned, acts[m].arg);
    }
  }

  predicate SlaveLockInv(s: State) { s.sync.masterLock <==> SlaveHoldsLock(s.st.pc) }

  lemma {:induction false} SlaveLockAlways(states: seq<State>, acts: seq<Action>, polite: bool, i: nat)
    requires IsRun(states, acts, polite) && i < |states|
    ensures SlaveLockInv(states[i])
  {
    if i > 0 {
      SlaveLockAlways(states, acts, polite, i - 1);
      var s, a := states[i - 1], acts[i - 1];
      assert Step(s, a, states[i - 1 + 1]);
      if a.MasterStep? {
        MasterKeepsPosts(s);
      } else if a.SlaveStep? {
        assert SlaveLockInv(SlaveNext(s));
      }
    }
  }

  // A finished call of the slave has published exactly one post, with its arguments, has returned
  // once if it was synchronous, and holds no lock.
  lemma SlaveCallOutcome(states: seq<State>, acts: seq<Action>, polite: bool, m: nat, k: nat)
    requires SlaveCall(states, acts, polite, m, k) && states[k].st.pc.SIdle?
    ensures var s, t, arg := states[m], states[k], acts[m].arg;
            && |t.log| == |s.log| + 1 && t.log[|s.log|].post == arg
            && (if arg.sync then |t.returned| == |s.returned| + 1 && Last(t.returned).post == |s.log|
                else t.returned == s.returned)
            && !t.sync.masterLock
  {
    SlaveStoryAlways(states, acts, polite, m, k);
    SlaveLockAlways(states, acts, polite, k);
  }

  // In every reachable state the slave's thread, in a call, can take its next step unless it waits
  // for a signal, or wants to wait after a sync_xfer has returned before.
  lemma SlaveBlocksOnlyInWait(states: seq<State>, acts: seq<Action>, polite: bool, i: nat)
    requires IsRun(states, acts, polite) && i < |states|
    ensures var s := states[i];
            Enabled(s, SlaveStep) <==>
            !s.st.pc.SIdle? && !(s.st.pc.SBlocked? && !s.sync.woken) && !(s.st.pc.SCondLock? && s.returned != [])
  {
    SlaveLockAlways(states, acts, polite, i);
    CondInvAlways(states, acts, polite, i);
  }

  function SlaveSteps(acts: seq<Action>, i: nat, k: nat): nat
    requires i <= k <= |acts|
    decreases k
  {
    if i == k then 0 else SlaveSteps(acts, i, k - 1) + (if acts[k - 1].SlaveStep? then 1 else 0)
  }

  // The steps that the slave's thread still takes.
  function SlaveRank(pc: SlavePc): nat {
    if pc.SIdle? then 0 else 13 - Progress(pc)
  }

  lemma SlaveRankDecreases(s: State)
    requires SlaveCanStep(s)
    ensures SlaveRank(SlaveNext(s).st.pc) < SlaveRank(s.st.pc)
  {
  }

  // A call of the slave takes at most 12 steps of its own: an asynchronous one always returns.
  lemma {:induction false} SlaveReturnsInBoundedSteps(states: seq<State>, acts: seq<Action>, polite: bool, i: nat, k: nat)
    requires IsRun(states, acts, polite) && i <= k < |states|
    requires forall m :: i <= m < k ==> !acts[m].SlaveBegin?
    ensures SlaveSteps(acts, i, k) + SlaveRank(states[k].st.pc) <= SlaveRank(states[i].st.pc) <= 12
    decreases k
  {
    if i < k {
      SlaveReturnsInBoundedSteps(states, acts, polite, i, k - 1);
      var s, a := states[k - 1], acts[k - 1];
      assert Step(s, a, states[k - 1 + 1]);
      if a.SlaveStep? {
        SlaveRankDecreases(s);
      } else if a.MasterStep? {
        MasterKeepsPosts(s);
      }
    }
  }
}
