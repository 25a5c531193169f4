/**
 The callbacks of asynchronous slave posts in the step system of SpiProtocol, where async_xfer
 sets is_listening, stores the callback and stores the context in three steps, and the interrupt
 handler may run in between. The statements hold of all runs unless they ask for a polite one.
 */
module SpiCallbackSteps {
  import opened Counting
  import opened SpiProtocol
  import opened SpiInvariant
  import opened SpiBlocking

  // ---------------------------------------------------------------- where the fields come from

  function ContextOf(log: seq<Entry>, post: int): nat
    requires NO_POST <= post < |log|
  {
    if post == NO_POST then NULL else log[post].post.context
  }

  // The slave's thread works on the last post from its publication on.
  predicate CurrentPost(s: State) {
    var n := Progress(s.st.pc);
    && (6 <= n ==> s.log != [] && s.st.post == Last(s.log).post)
    && (6 <= n <= 7 ==> !s.st.post.sync)
  }

  // A stored callback is that of an asynchronous post, and so is a stored context; between the two
  // stores the callback is already the new post's and the context is not.
  predicate Fields(s: State) {
    var n, cb, ctx := Progress(s.st.pc), s.calls.callbackOf, s.calls.contextOf;
    && NO_POST <= ctx < |s.log| && s.slave.context == ContextOf(s.log, ctx)
    && (ctx != NO_POST ==> !s.log[ctx].post.sync)
    && (6 <= n <= 7 ==> ctx < |s.log| - 1)
    && (s.slave.callback != NULL ==>
          && 0 <= cb < |s.log| && !s.log[cb].post.sync && s.slave.callback == s.log[cb].post.callback
          && (n == 6 ==> cb < |s.log| - 1)
          && (if n == 7 then cb == |s.log| - 1 else ctx == cb))
  }

  // Every call made was of some post's own callback.
  predicate CallsMade(s: State) {
    forall c :: c in s.calls.called ==>
      && 0 <= c.post < |s.log| && !s.log[c.post].post.sync
      && c.callback == s.log[c.post].post.callback != NULL
      && NO_POST <= c.contextOf <= c.post && c.context == ContextOf(s.log, c.contextOf)
  }

  predicate CallbackInv(s: State) {
    CurrentPost(s) && Fields(s) && CallsMade(s)
  }

  // The log keeps its posts: served or not, in this order.
  predicate Follows(log: seq<Entry>, later: seq<Entry>) {
    |log| <= |later| && forall j :: 0 <= j < |log| ==> later[j].post == log[j].post
  }

  lemma CallbackInvXmit(s: State, at: XmitPc)
    requires CallbackInv(s)
    ensures CallbackInv(XmitNext(s, at)) && Follows(s.log, XmitNext(s, at).log)
  {
  }

  lemma CallbackInvMaster(s: State)
    requires CallbackInv(s) && MasterCanStep(s)
    ensures CallbackInv(MasterNext(s)) && Follows(s.log, MasterNext(s).log)
  {
    if s.mt.pc.MXmit? {
      hide XmitNext;
      CallbackInvXmit(s, s.mt.pc.at);
    } else if s.mt.pc.MPost? {
      var t := PostNext(s, s.mt.pc.field);
      assert t.log == s.log && t.slave == s.slave && t.st == s.st && t.calls == s.calls;
    } else {
      var t := CallNext(s);
      assert t.log == s.log && t.slave == s.slave && t.st == s.st && t.calls == s.calls;
    }
  }

  lemma CallbackInvSlavePosts(s: State)
    requires CallbackInv(s) && SlaveCanStep(s) && Progress(s.st.pc) <= 5
    ensures CallbackInv(SlaveNext(s)) && Follows(s.log, SlaveNext(s).log)
  {
  }

  lemma CallbackInvSlaveStores(s: State)
    requires CallbackInv(s) && SlaveCanStep(s) && 6 <= Progress(s.st.pc)
    ensures CallbackInv(SlaveNext(s)) && Follows(s.log, SlaveNext(s).log)
  {
  }

  lemma CallbackInvStep(s: State, a: Action)
    requires CallbackInv(s) && Enabled(s, a)
    ensures CallbackInv(Next(s, a)) && Follows(s.log, Next(s, a).log)
  {
    match a {
      case MasterStep => CallbackInvMaster(s);
      case SlaveStep =>
        if Progress(s.st.pc) <= 5 {
          CallbackInvSlavePosts(s);
        } else {
          CallbackInvSlaveStores(s);
        }
      case _ =>
    }
  }

  lemma {:induction false} CallbackInvAlways(states: seq<State>, acts: seq<Action>, polite: bool, i: nat)
    requires IsRun(states, acts, polite) && i < |states|
    ensures CallbackInv(states[i])
  {
    if i > 0 {
      CallbackInvAlways(states, acts, polite, i - 1);
      assert Step(states[i - 1], acts[i - 1], states[i - 1 + 1]);
      CallbackInvStep(states[i - 1], acts[i - 1]);
    }
  }

  // What a handler run calls: the callback of one post, with that post's context if and only if
  // the slave's thread is not between the two stores of the post, or the context that an earlier
  // post left behind, or null, happens to be the same.
  lemma HandlerCallsOwnContext(states: seq<State>, acts: seq<Action>, polite: bool, i: nat)
    requires IsRun(states, acts, polite) && i < |acts|
    requires acts[i].SlaveIrqHandler? && states[i].slave.callback != NULL
    ensures var s, c := states[i], Last(states[i + 1].calls.called);
            && states[i + 1].calls.called == s.calls.called + [c]
            && 0 <= c.post < |s.log| && !s.log[c.post].post.sync && c.callback == s.log[c.post].post.callback
            && NO_POST <= c.contextOf <= c.post && c.context == ContextOf(s.log, c.contextOf)
            && (c.contextOf == c.post <==> !s.st.pc.SContext?)
            && (s.st.pc.SContext? ==> c.post == |s.log| - 1)
            && (c.context == s.log[c.post].post.context <==>
                !s.st.pc.SContext? || ContextOf(s.log, c.contextOf) == s.log[c.post].post.context)
  {
    CallbackInvAlways(states, acts, polite, i);
    assert Step(states[i], acts[i], states[i + 1]);
  }

  // ---------------------------------------------------------------- every callback is accounted for

  predicate HasCallback(post: Call) { !post.sync && post.callback != NULL }

  function CallsOf(called: seq<Called>, j: nat): nat {
    if called == [] then 0
    else CallsOf(called[..|called| - 1], j) + AsCount(called[|called| - 1].post == j)
  }

  // Post j's callback is in the slave's field.
  predicate Holds(s: State, j: nat) {
    s.slave.callback != NULL && s.calls.callbackOf == j
  }

  // Post j is published and its callback is still to be stored.
  predicate Unstored(s: State, j: nat) {
    s.st.pc.SCallback? && j == |s.log| - 1
  }

  // This step stores another post's callback over that of post j.
  predicate Overwrites(s: State, a: Action, j: nat) {
    a.SlaveStep? && s.st.pc.SCallback? && Holds(s, j)
  }

  ghost function Overwritten(states: seq<State>, acts: seq<Action>, j: nat, upTo: nat): nat
    requires |states| == |acts| + 1 && upTo <= |acts|
  {
    if upTo == 0 then 0
    else Overwritten(states, acts, j, upTo - 1) + AsCount(Overwrites(states[upTo - 1], acts[upTo - 1], j))
  }

  predicate Due(s: State, j: nat) {
    j < |s.log| && HasCallback(s.log[j].post)
  }

  function Accounted(s: State, j: nat): nat {
    CallsOf(s.calls.called, j) + AsCount(Holds(s, j)) + AsCount(Unstored(s, j) && Due(s, j))
  }

  lemma AccountedXmit(s: State, at: XmitPc, j: nat)
    ensures var t := XmitNext(s, at); Accounted(t, j) == Accounted(s, j) && Due(t, j) == Due(s, j)
  {
    hide CallsOf;
  }

  lemma AccountedMaster(s: State, j: nat)
    requires MasterCanStep(s)
    ensures var t := MasterNext(s); Accounted(t, j) == Accounted(s, j) && Due(t, j) == Due(s, j)
  {
    hide CallsOf;
    if s.mt.pc.MXmit? {
      hide XmitNext;
      AccountedXmit(s, s.mt.pc.at, j);
    } else if s.mt.pc.MPost? {
      var t := PostNext(s, s.mt.pc.field);
      assert t.log == s.log && t.slave == s.slave && t.st == s.st && t.calls == s.calls;
    } else {
      var t := CallNext(s);
      assert t.log == s.log && t.slave == s.slave && t.st == s.st && t.calls == s.calls;
    }
  }

  lemma AccountedSlave(s: State, j: nat)
    requires CallbackInv(s) && SlaveCanStep(s)
    ensures var t := SlaveNext(s);
            Accounted(t, j) + AsCount(Overwrites(s, SlaveStep, j)) + AsCount(Due(s, j))
            == Accounted(s, j) + AsCount(Due(t, j))
  {
    hide CallsOf;
  }

  lemma AccountedStep(s: State, a: Action, j: nat)
    requires CallbackInv(s) && Enabled(s, a)
    ensures var t := Next(s, a);
            Accounted(t, j) + AsCount(Overwrites(s, a, j)) + AsCount(Due(s, j)) == Accounted(s, j) + AsCount(Due(t, j))
  {
    match a {
      case MasterStep => AccountedMaster(s, j);
      case SlaveStep => AccountedSlave(s, j);
      case SlaveIrqHandler =>
        var t := Next(s, a);
        if t.calls.called != s.calls.called {
          assert t.calls.called[..|t.calls.called| - 1] == s.calls.called;
        }
      case _ =>
    }
  }

  // In every run, with the handler between any two steps: the callback of a post that has one is
  // still to be stored, or stored, or was called, or was overwritten by a later post; exactly one
  // of these, once. A post without callback calls nothing.
  lemma {:induction false} CallbackAccounts(states: seq<State>, acts: seq<Action>, polite: bool, i: nat, j: nat)
    requires IsRun(states, acts, polite) && i < |states|
    ensures Accounted(states[i], j) + Overwritten(states, acts, j, i) == AsCount(Due(states[i], j))
  {
    if i > 0 {
      CallbackAccounts(states, acts, polite, i - 1, j);
      CallbackInvAlways(states, acts, polite, i - 1);
      assert Step(states[i - 1], acts[i - 1], states[i - 1 + 1]);
      AccountedStep(states[i - 1], acts[i - 1], j);
    }
  }

  // So no callback is ever called twice.
  lemma CalledAtMostOnce(states: seq<State>, acts: seq<Action>, polite: bool, i: nat, j: nat)
    requires IsRun(states, acts, polite) && i < |states|
    ensures CallsOf(states[i].calls.called, j) <= AsCount(Due(states[i], j))
    ensures forall c :: c in states[i].calls.called ==>
              && 0 <= c.post < |states[i].log| && c.callback == states[i].log[c.post].post.callback
              && NO_POST <= c.contextOf <= c.post && c.context == ContextOf(states[i].log, c.contextOf)
  {
    CallbackAccounts(states, acts, polite, i, j);
    CallbackInvAlways(states, acts, polite, i);
  }

  lemma HandlerStep(states: seq<State>, acts: seq<Action>, polite: bool, i: nat)
    requires IsRun(states, acts, polite) && i < |acts| && acts[i].SlaveIrqHandler?
    ensures states[i + 1] == HandleIrq(states[i])
  {
    assert Step(states[i], acts[i], states[i + 1]);
  }

  // A handler run leaves the callback of a published post called, exactly once, or overwritten, if
  // and only if the slave's thread has stored it by then.
  lemma HandlerCallsStored(states: seq<State>, acts: seq<Action>, polite: bool, i: nat, j: nat)
    requires IsRun(states, acts, polite) && i < |acts| && acts[i].SlaveIrqHandler?
    requires Due(states[i], j)
    ensures CallsOf(states[i + 1].calls.called, j) + Overwritten(states, acts, j, i) == 1 <==> !Unstored(states[i], j)
    ensures CallsOf(states[i + 1].calls.called, j) + Overwritten(states, acts, j, i) <= 1
  {
    hide CallsOf, HasCallback;
    CallbackAccounts(states, acts, polite, i + 1, j);
    assert states[i + 1] == HandleIrq(states[i]) by {
      HandlerStep(states, acts, polite, i);
    }
    assert !Overwrites(states[i], acts[i], j) && !Holds(states[i + 1], j);
  }

  // The last post that is not outstanding.
  function LastServed(s: State): int {
    if s.slave.listening then |s.log| - 2 else |s.log| - 1
  }

  // A transfer that has cleared is_listening has served the last post that is not outstanding.
  predicate HasServed(s: State) {
    Stage(s.mt.pc) >= 12 ==>
      var j := LastServed(s);
      j >= 0 && s.log[j].Served? && s.log[j].call == s.mt.call
  }

  lemma HasServedStep(s: State, a: Action)
    requires Inv(s) && HasServed(s) && Enabled(s, a) && Polite(s, a)
    ensures HasServed(Next(s, a))
  {
    hide Copying, AllServed, Waiting, Cleared, PostedFields, WrittenFields;
    match a {
      case MasterStep =>
        if s.mt.pc.MXmit? {
          assert HasServed(XmitNext(s, s.mt.pc.at));
        }
      case SlaveStep => assert HasServed(SlaveNext(s));
      case _ =>
    }
  }

  lemma {:induction false} HasServedAlways(states: seq<State>, acts: seq<Action>, i: nat)
    requires IsRun(states, acts, true) && i < |states|
    ensures HasServed(states[i])
  {
    if i > 0 {
      HasServedAlways(states, acts, i - 1);
      InvAlways(states, acts, i - 1);
      assert Step(states[i - 1], acts[i - 1], states[i - 1 + 1]);
      HasServedStep(states[i - 1], acts[i - 1]);
    }
  }

  // When a transfer raises the slave's interrupt, the callback of the post that it has served is
  // stored, or called already, or overwritten, if and only if the slave's thread is past its store.
  lemma RaiseFindsCallback(states: seq<State>, acts: seq<Action>, i: nat)
    requires IsRun(states, acts, true) && i < |acts|
    requires acts[i].MasterStep? && states[i].mt.pc == MXmit(Raise)
    ensures var s, j := states[i], LastServed(states[i]);
            && 0 <= j && s.log[j].Served? && s.log[j].call == s.mt.call
            && (Due(s, j) ==>
                  (Holds(s, j) || CallsOf(s.calls.called, j) == 1 || Overwritten(states, acts, j, i) == 1
                   <==> !Unstored(s, j)))
  {
    HasServedAlways(states, acts, i);
    CallbackAccounts(states, acts, true, i, LastServed(states[i]));
  }

  // A transfer can complete between the two stores, so that the handler finds the callback and not
  // the context.
  lemma ContextCanComeTooLate()
    ensures exists s :: Reachable(s, true) && Enabled(s, SlaveIrqHandler) && s.st.pc.SContext?
                        && s.slave.callback == s.st.post.callback != NULL
                        && s.slave.context == NULL != s.st.post.context
  {
    Begin(true);
    var s := Reach(INITIAL, true, SetSlaveIrq(true));
    s := SlavePosts(s, true, ONE_BYTE.(sync := false, callback := 3, context := 4));
    s := SlaveGoes(s, true);
    s := MasterServes(s, true, ONE_BYTE);
    s := MasterGoes(s, true);
    s := MasterGoes(s, true);
    assert s.st.pc.SContext? && s.irqs.pending;
  }
}
