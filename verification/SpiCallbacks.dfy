/**
 The callbacks of a slave's asynchronous transfers: from async_xfer, through the interrupt that
 xmit_locked raises, to spi_irq_handler, with the signals in between. Here a post is one step, and
 so is a transfer up to the insertion of its interrupt: this is the hypothesis of every statement
 below. The SpiCallbackSteps module says what holds without it.
 */
module SpiCallbacks {
  import opened Counting


  // What one call of sync_xfer or async_xfer on the slave leaves behind; callback 0 is null.
  datatype Post = Post(sync: bool, callback: nat, context: nat)

  // slave_callback and slave_callback_ctx, with the number of the post that stored them.
  datatype Slot = Empty | Held(post: nat, callback: nat, context: nat)

  datatype Option<T> = None | Some(value: T)

  datatype Event = Transferred(post: nat) | Raised(post: nat) | Called(post: nat, callback: nat, context: nat)

  datatype State = State(
    listening: bool, slot: Slot,
    irqEnabled: bool,
    // the device's interrupt is in its controller's pending set
    accepted: bool,
    // between the insertion and the signal of local_raise
    raising: bool, signals: nat,
    // history: the posts; the transfers, raises and calls; the posts whose callback was overwritten
    posts: seq<Post>, log: seq<Event>, lost: set<nat>)

  datatype Action =
    | PostSync | PostAsync(callback: nat, context: nat)
    | Transfer | Kill(merge: bool)
    // another interrupt of the same controller is signalled
    | OtherSignal(merge: bool)
    // the signal handler runs, and a callback it calls may post again from inside
    | Deliver(inner: Option<Post>)
    | SetEnabled(on: bool)

  const INITIAL := State(false, Empty, false, false, false, 0, [], [], {})

  function MakePost(s: State, p: Post): State {
    if p.sync then s.(listening := true, posts := s.posts + [p])
    else if !s.irqEnabled then s
    else s.(listening := true, posts := s.posts + [p],
            slot := if p.callback == 0 then Empty else Held(|s.posts|, p.callback, p.context),
            lost := if s.slot.Held? then s.lost + {s.slot.post} else s.lost)
  }

  predicate Enabled(s: State, a: Action) {
    match a
    case Transfer => s.listening && s.posts != [] && !s.raising
    case Kill(merge) => s.raising && (merge ==> s.signals > 0)
    case OtherSignal(merge) => merge ==> s.signals > 0
    case Deliver(_) => s.signals > 0
    case _ => true
  }

  function Next(s: State, a: Action): State
    requires Enabled(s, a)
  {
    match a
    case PostSync => MakePost(s, Post(true, 0, 0))
    case PostAsync(callback, context) => MakePost(s, Post(false, callback, context))
    case Transfer =>
      var p := |s.posts| - 1;
      if s.irqEnabled
      then s.(listening := false, accepted := true, raising := true, log := s.log + [Transferred(p), Raised(p)])
      else s.(listening := false, log := s.log + [Transferred(p)])
    case Kill(merge) => s.(raising := false, signals := if merge then s.signals else s.signals + 1)
    case OtherSignal(merge) => s.(signals := if merge then s.signals else s.signals + 1)
    case Deliver(inner) =>
      var t := s.(signals := s.signals - 1);
      if !s.accepted || s.slot.Empty? then t
      else
        // the fields are cleared before the call
        var u := t.(slot := Empty, log := s.log + [Called(s.slot.post, s.slot.callback, s.slot.context)]);
        if inner.Some? then MakePost(u, inner.value) else u
    case SetEnabled(on) => s.(irqEnabled := on)
  }

  // The hypothesis on the slave's code: it posts only when its previous post has been served and
  // the xmit_locked that did so has sent its signal.
  predicate Polite(s: State, a: Action) {
    a.PostSync? || a.PostAsync? || (a.Deliver? && a.inner.Some?) ==> !s.listening && !s.raising
  }

  ghost predicate IsRun(states: seq<State>, acts: seq<Action>, polite: bool) {
    && |states| == |acts| + 1
    && states[0] == INITIAL
    && (forall i {:trigger acts[i]} :: 0 <= i < |acts| ==>
          Enabled(states[i], acts[i]) && states[i + 1] == Next(states[i], acts[i]))
    && (polite ==> forall i {:trigger acts[i]} :: 0 <= i < |acts| ==> Polite(states[i], acts[i]))
  }

  // ---------------------------------------------------------------- every callback is accounted for

  function Calls(log: seq<Event>, p: nat): nat {
    if log == [] then 0
    else
      var e := log[|log| - 1];
      Calls(log[..|log| - 1], p) + (if e.Called? && e.post == p then 1 else 0)
  }

  lemma CallsAppend(log: seq<Event>, e: Event, p: nat)
    ensures Calls(log + [e], p) == Calls(log, p) + (if e.Called? && e.post == p then 1 else 0)
  {
    assert (log + [e])[..|log|] == log;
  }

  predicate HasCallback(p: Post) { !p.sync && p.callback != 0 }

  // A post's callback is held, or has been called, or has been overwritten: exactly one of these,
  // once, if the post has a callback, and none if it has none.
  predicate Accounted(s: State, p: nat) {
    p < |s.posts| ==>
      AsCount(s.slot.Held? && s.slot.post == p) + Calls(s.log, p) + AsCount(p in s.lost)
      == AsCount(HasCallback(s.posts[p]))
  }

  ghost predicate Inv(s: State) {
    && (forall p: nat :: Accounted(s, p))
    && (forall p: nat {:trigger Calls(s.log, p)} :: p >= |s.posts| ==> Calls(s.log, p) == 0 && p !in s.lost)
    && (s.slot.Held? ==> s.slot.post < |s.posts| && s.posts[s.slot.post] == Post(false, s.slot.callback, s.slot.context))
    && (forall e :: e in s.log && e.Called? ==>
          e.post < |s.posts| && s.posts[e.post] == Post(false, e.callback, e.context))
    && (forall e :: e in s.log && !e.Called? ==> e.post < |s.posts|)
    && (forall e :: e in s.log && e.Raised? ==> s.accepted)
    && (forall p :: p in s.lost ==> p < |s.posts| && AsyncPostAfter(s.posts, p))
  }

  predicate AsyncPostAfter(posts: seq<Post>, p: nat) {
    exists q :: p < q < |posts| && !posts[q].sync
  }

  // A raised transfer whose callback is still held has its signal coming.
  predicate Promised(s: State) {
    s.slot.Held? && Raised(s.slot.post) in s.log ==> s.raising || s.signals > 0
  }

  lemma InvPost(s: State, p: Post)
    requires Inv(s) && Promised(s)
    ensures Inv(MakePost(s, p)) && Promised(MakePost(s, p))
  {
    var t := MakePost(s, p);
    assert forall q: nat :: Accounted(s, q) && (q >= |s.posts| ==> Calls(s.log, q) == 0);
    forall q | q in t.lost ensures AsyncPostAfter(t.posts, q) {
      if q in s.lost {
        var r :| q < r < |s.posts| && !s.posts[r].sync;
        assert t.posts[r] == s.posts[r];
      } else {
        assert t.posts[|s.posts|] == p;
      }
    }
  }

  lemma InvCall(s: State, t: State)
    requires Inv(s) && s.slot.Held?
    requires t == s.(signals := t.signals, slot := Empty,
                     log := s.log + [Called(s.slot.post, s.slot.callback, s.slot.context)])
    ensures Inv(t) && Promised(t)
  {
    forall p: nat ensures Accounted(t, p) && (p >= |t.posts| ==> Calls(t.log, p) == 0) {
      assert Accounted(s, p);
      CallsAppend(s.log, Called(s.slot.post, s.slot.callback, s.slot.context), p);
    }
  }

  lemma CallsUnchanged(log: seq<Event>, post: nat, p: nat)
    ensures Calls(log + [Transferred(post)], p) == Calls(log, p)
    ensures Calls(log + [Transferred(post), Raised(post)], p) == Calls(log, p)
  {
    CallsAppend(log, Transferred(post), p);
    CallsAppend(log + [Transferred(post)], Raised(post), p);
    assert log + [Transferred(post)] + [Raised(post)] == log + [Transferred(post), Raised(post)];
  }

  lemma InvTransfer(s: State)
    requires Inv(s) && Promised(s) && Enabled(s, Transfer)
    ensures Inv(Next(s, Transfer)) && Promised(Next(s, Transfer))
  {
    var t := Next(s, Transfer);
    forall q: nat ensures Accounted(t, q) && Calls(t.log, q) == Calls(s.log, q) {
      assert Accounted(s, q);
      CallsUnchanged(s.log, |s.posts| - 1, q);
    }
  }

  lemma InvDeliver(s: State, a: Action)
    requires Inv(s) && Promised(s) && a.Deliver? && Enabled(s, a)
    ensures Inv(Next(s, a)) && Promised(Next(s, a))
  {
    if s.accepted && s.slot.Held? {
      var u := s.(signals := s.signals - 1, slot := Empty,
                  log := s.log + [Called(s.slot.post, s.slot.callback, s.slot.context)]);
      InvCall(s, u);
      if a.inner.Some? {
        assert Next(s, a) == MakePost(u, a.inner.value);
        InvPost(u, a.inner.value);
      } else {
        assert Next(s, a) == u;
      }
    } else {
      assert forall p: nat :: Accounted(s, p) ==> Accounted(Next(s, a), p);
    }
  }

  lemma InvStep(s: State, a: Action)
    requires Inv(s) && Promised(s) && Enabled(s, a)
    ensures Inv(Next(s, a)) && Promised(Next(s, a))
  {
    match a
    case PostSync => InvPost(s, Post(true, 0, 0));
    case PostAsync(callback, context) => InvPost(s, Post(false, callback, context));
    case Transfer => InvTransfer(s);
    case Deliver(_) => InvDeliver(s, a);
    case _ =>
      assert forall p: nat :: Accounted(s, p) ==> Accounted(Next(s, a), p);
  }

  lemma {:induction false} InvAlways(states: seq<State>, acts: seq<Action>, polite: bool, i: nat)
    requires IsRun(states, acts, polite) && i < |states|
    ensures Inv(states[i]) && Promised(states[i])
  {
    if i > 0 {
      InvAlways(states, acts, polite, i - 1);
      assert states[i - 1 + 1] == Next(states[i - 1], acts[i - 1]);
      InvStep(states[i - 1], acts[i - 1]);
    }
  }

  // In any run each post's callback is called at most once, and only with its own function and
  // context; a post without callback calls nothing.
  lemma CallbackAtMostOnce(states: seq<State>, acts: seq<Action>, polite: bool, i: nat, p: nat)
    requires IsRun(states, acts, polite) && i < |states| && p < |states[i].posts|
    ensures Calls(states[i].log, p) <= AsCount(HasCallback(states[i].posts[p]))
    ensures forall e :: e in states[i].log && e.Called? && e.post == p ==>
              states[i].posts[p] == Post(false, e.callback, e.context)
  {
    InvAlways(states, acts, polite, i);
    assert Accounted(states[i], p);
  }

  // ---------------------------------------------------------------- what the actions do

  // The last of the first k actions that switches the device's interrupt switches it on.
  predicate IrqOn(acts: seq<Action>, k: nat)
    requires k <= |acts|
  {
    k > 0 && (if acts[k - 1].SetEnabled? then acts[k - 1].on else IrqOn(acts, k - 1))
  }

  lemma {:induction false} IrqOnIs(states: seq<State>, acts: seq<Action>, polite: bool, k: nat)
    requires IsRun(states, acts, polite) && k < |states|
    ensures states[k].irqEnabled <==> IrqOn(acts, k)
  {
    if k > 0 {
      IrqOnIs(states, acts, polite, k - 1);
      assert states[k - 1 + 1] == Next(states[k - 1], acts[k - 1]);
    }
  }

  // Action k transfers post p, with the device's interrupt enabled.
  predicate TransfersEnabled(states: seq<State>, acts: seq<Action>, k: nat, p: nat)
    requires k < |acts| && k < |states|
  {
    acts[k].Transfer? && IrqOn(acts, k) && p == |states[k].posts| - 1
  }

  predicate TransferredUntil(states: seq<State>, acts: seq<Action>, i: nat, p: nat)
    requires |states| == |acts| + 1 && i < |states|
  {
    exists k :: 0 <= k < i && TransfersEnabled(states, acts, k, p)
  }

  // A transfer completes the last post; it raises the interrupt, for a signal to follow, if and
  // only if the interrupt is enabled at that moment.
  lemma TransferRaises(states: seq<State>, acts: seq<Action>, polite: bool, k: nat)
    requires IsRun(states, acts, polite) && k < |acts| && acts[k].Transfer?
    ensures var s, t, p := states[k], states[k + 1], |states[k].posts| - 1;
            && p >= 0 && s.listening && !t.listening && t.posts == s.posts
            && t.log == s.log + [Transferred(p)] + (if IrqOn(acts, k) then [Raised(p)] else [])
            && t.accepted == (s.accepted || IrqOn(acts, k)) && t.raising == IrqOn(acts, k)
            && t.signals == s.signals
  {
    IrqOnIs(states, acts, polite, k);
    assert states[k + 1] == Next(states[k], acts[k]);
  }

  // A post from the thread is made, with its arguments, unless it is asynchronous and the interrupt
  // is disabled; then nothing happens.
  lemma PostIsMade(states: seq<State>, acts: seq<Action>, polite: bool, k: nat)
    requires IsRun(states, acts, polite) && k < |acts| && (acts[k].PostSync? || acts[k].PostAsync?)
    ensures var s, t, a := states[k], states[k + 1], acts[k];
            if a.PostAsync? && !IrqOn(acts, k) then t == s
            else t.listening && t.posts == s.posts + [if a.PostSync? then Post(true, 0, 0) else Post(false, a.callback, a.context)]
  {
    IrqOnIs(states, acts, polite, k);
    assert states[k + 1] == Next(states[k], acts[k]);
  }

  lemma RaisedStep(s: State, a: Action, p: nat)
    requires Enabled(s, a)
    ensures Raised(p) in Next(s, a).log <==>
            Raised(p) in s.log || (a.Transfer? && s.irqEnabled && p == |s.posts| - 1)
    ensures Next(s, a).accepted <==> s.accepted || (a.Transfer? && s.irqEnabled)
  {
    hide Calls;
  }

  // The log holds a raise for a post exactly if its transfer was made with the interrupt enabled,
  // and the interrupt is pending exactly if some transfer was.
  lemma {:induction false} RaisedExactly(states: seq<State>, acts: seq<Action>, polite: bool, i: nat, p: nat)
    requires IsRun(states, acts, polite) && i < |states|
    ensures Raised(p) in states[i].log <==> TransferredUntil(states, acts, i, p)
  {
    if i > 0 {
      RaisedExactly(states, acts, polite, i - 1, p);
      IrqOnIs(states, acts, polite, i - 1);
      assert states[i - 1 + 1] == Next(states[i - 1], acts[i - 1]);
      RaisedStep(states[i - 1], acts[i - 1], p);
      assert Raised(p) in states[i].log <==>
        Raised(p) in states[i - 1].log || TransfersEnabled(states, acts, i - 1, p);
    }
  }

  lemma {:induction false} AcceptedExactly(states: seq<State>, acts: seq<Action>, polite: bool, i: nat)
    requires IsRun(states, acts, polite) && i < |states|
    ensures states[i].accepted <==> exists k :: 0 <= k < i && acts[k].Transfer? && IrqOn(acts, k)
  {
    if i > 0 {
      AcceptedExactly(states, acts, polite, i - 1);
      IrqOnIs(states, acts, polite, i - 1);
      assert states[i - 1 + 1] == Next(states[i - 1], acts[i - 1]);
      RaisedStep(states[i - 1], acts[i - 1], 0);
      assert states[i].accepted <==> states[i - 1].accepted || (acts[i - 1].Transfer? && IrqOn(acts, i - 1));
    }
  }

  // ---------------------------------------------------------------- when a callback is called

  // This step posts asynchronously while the callback of post p is still stored.
  predicate Overwrites(s: State, a: Action, p: nat) {
    a.PostAsync? && s.irqEnabled && s.slot.Held? && s.slot.post == p
  }

  predicate Overwritten(states: seq<State>, acts: seq<Action>, i: nat, p: nat)
    requires |states| == |acts| + 1 && i < |states|
  {
    exists k :: 0 <= k < i && Overwrites(states[k], acts[k], p)
  }

  lemma LostStep(s: State, a: Action, p: nat)
    requires Enabled(s, a)
    ensures p in Next(s, a).lost <==> p in s.lost || Overwrites(s, a, p)
  {
  }

  // The posts recorded as lost are those overwritten by some step of the run; a post made from
  // inside a callback overwrites nothing.
  lemma {:induction false} LostIsOverwritten(states: seq<State>, acts: seq<Action>, polite: bool, i: nat, p: nat)
    requires IsRun(states, acts, polite) && i < |states|
    ensures p in states[i].lost <==> Overwritten(states, acts, i, p)
  {
    if i > 0 {
      hide Next, Overwrites, Enabled;
      LostIsOverwritten(states, acts, polite, i - 1, p);
      assert states[i - 1 + 1] == Next(states[i - 1], acts[i - 1]);
      LostStep(states[i - 1], acts[i - 1], p);
    }
  }

  predicate Quiescent(s: State) { !s.raising && s.signals == 0 }

  // Once the signals are delivered, the callback of a post whose transfer was made with the
  // interrupt enabled has been called exactly once if and only if no asynchronous post was made
  // while it was stored.
  lemma CallbackExactlyOnce(states: seq<State>, acts: seq<Action>, polite: bool, i: nat, p: nat)
    requires IsRun(states, acts, polite) && i < |states| && p < |states[i].posts|
    requires HasCallback(states[i].posts[p]) && TransferredUntil(states, acts, i, p) && Quiescent(states[i])
    ensures Calls(states[i].log, p) == 1 <==> !Overwritten(states, acts, i, p)
    ensures !AsyncPostAfter(states[i].posts, p) ==> Calls(states[i].log, p) == 1
  {
    RaisedExactly(states, acts, polite, i, p);
    InvAlways(states, acts, polite, i);
    LostIsOverwritten(states, acts, polite, i, p);
    assert Accounted(states[i], p);
  }

  lemma DeliverEmpties(s: State, a: Action, p: nat)
    requires a.Deliver? && Enabled(s, a) && s.accepted && p < |s.posts|
    ensures var t := Next(s, a);
            && !(t.slot.Held? && t.slot.post == p) && (p in t.lost <==> p in s.lost)
            && p < |t.posts| && t.posts[p] == s.posts[p]
  {
    hide Calls;
  }

  // It does not take quiescence: once any transfer of the device was made with the interrupt
  // enabled, one delivery of any signal is enough, even if the callback posts again from inside.
  lemma DeliveryCallsBack(states: seq<State>, acts: seq<Action>, polite: bool, i: nat, p: nat)
    requires IsRun(states, acts, polite) && i < |acts| && p < |states[i].posts|
    requires HasCallback(states[i].posts[p]) && acts[i].Deliver?
    requires exists k :: 0 <= k < i && acts[k].Transfer? && IrqOn(acts, k)
    ensures Calls(states[i + 1].log, p) == 1 <==> !Overwritten(states, acts, i, p)
  {
    hide Calls, AsyncPostAfter, Next, Overwritten;
    AcceptedExactly(states, acts, polite, i);
    InvAlways(states, acts, polite, i + 1);
    LostIsOverwritten(states, acts, polite, i, p);
    assert states[i + 1] == Next(states[i], acts[i]);
    DeliverEmpties(states[i], acts[i], p);
    assert Accounted(states[i + 1], p);
  }

  // Posts are only ever added, and the interrupt stays pending.
  lemma {:induction false} PostsGrow(states: seq<State>, acts: seq<Action>, polite: bool, i: nat, k: nat)
    requires IsRun(states, acts, polite) && i <= k < |states|
    ensures states[i].posts <= states[k].posts && (states[i].accepted ==> states[k].accepted)
    decreases k
  {
    if i < k {
      PostsGrow(states, acts, polite, i, k - 1);
      assert states[k - 1 + 1] == Next(states[k - 1], acts[k - 1]);
    }
  }

  // A post made from inside a callback is kept: from the next delivery on its callback has been
  // called exactly once if and only if no later asynchronous post was made while it was stored.
  lemma PostInsideCallbackIsKept(states: seq<State>, acts: seq<Action>, polite: bool, i: nat, k: nat, inner: Post)
    requires IsRun(states, acts, polite) && i < k < |acts|
    requires acts[i] == Deliver(Some(inner)) && states[i].slot.Held?
    requires exists n :: 0 <= n < i && acts[n].Transfer? && IrqOn(acts, n)
    requires IrqOn(acts, i) && HasCallback(inner) && acts[k].Deliver?
    ensures var p := |states[i].posts|;
            && p < |states[k].posts| && states[k].posts[p] == inner
            && (Calls(states[k + 1].log, p) == 1 <==> !Overwritten(states, acts, k, p))
  {
    AcceptedExactly(states, acts, polite, i);
    IrqOnIs(states, acts, polite, i);
    assert states[i + 1] == Next(states[i], acts[i]);
    PostsGrow(states, acts, polite, i + 1, k);
    DeliveryCallsBack(states, acts, polite, k, |states[i].posts|);
  }

  // ---------------------------------------------------------------- early callbacks

  ghost predicate ServedInOrder(s: State) {
    && (forall p: nat {:trigger Transferred(p)} ::
          p < |s.posts| && (p < |s.posts| - 1 || !s.listening) ==> Transferred(p) in s.log)
    && (s.raising ==> !s.listening)
  }

  lemma ServedInOrderStep(s: State, a: Action)
    requires ServedInOrder(s) && Enabled(s, a) && Polite(s, a)
    ensures ServedInOrder(Next(s, a))
  {
    var t := Next(s, a);
    assert forall e :: e in s.log ==> e in t.log;
    if a.Transfer? {
      assert t.log[|s.log|] == Transferred(|s.posts| - 1);
    }
  }

  lemma {:induction false} ServedInOrderAlways(states: seq<State>, acts: seq<Action>, i: nat)
    requires IsRun(states, acts, true) && i < |states|
    ensures ServedInOrder(states[i])
  {
    if i > 0 {
      ServedInOrderAlways(states, acts, i - 1);
      assert states[i - 1 + 1] == Next(states[i - 1], acts[i - 1]);
      ServedInOrderStep(states[i - 1], acts[i - 1]);
    }
  }

  // A callback can run before its transfer, because the device's interrupt stays pending for
  // ever. A delivery finds the slot's callback early if and only if an earlier transfer of the
  // same device was accepted and the slot's post is still to be served.
  lemma EarlyCallback(states: seq<State>, acts: seq<Action>, i: nat)
    requires IsRun(states, acts, true) && i < |acts| && acts[i].Deliver? && states[i].slot.Held?
    ensures var s, p := states[i], states[i].slot.post;
            (Calls(states[i + 1].log, p) == 1 && Transferred(p) !in s.log)
            <==> ((exists q: nat :: q < p && TransferredUntil(states, acts, i, q)) && s.listening && p == |s.posts| - 1)
  {
    var s, p := states[i], states[i].slot.post;
    InvAlways(states, acts, true, i);
    ServedInOrderAlways(states, acts, i);
    LogFollows(states, acts, i);
    forall q: nat ensures Raised(q) in s.log <==> TransferredUntil(states, acts, i, q) {
      RaisedExactly(states, acts, true, i, q);
    }
    assert states[i + 1] == Next(s, acts[i]);
    assert Accounted(s, p);
    CallsAppend(s.log, Called(p, s.slot.callback, s.slot.context), p);
  }

  // Nothing is stuck: a listening slave can be served, and a stored callback whose transfer was
  // made with the interrupt enabled has its signal to be sent or delivered.
  lemma CallbackGoesOn(states: seq<State>, acts: seq<Action>, i: nat)
    requires IsRun(states, acts, true) && i < |states|
    ensures states[i].listening <==> Enabled(states[i], Transfer)
    ensures states[i].slot.Held? && TransferredUntil(states, acts, i, states[i].slot.post) ==>
              Enabled(states[i], Kill(false)) || Enabled(states[i], Deliver(None))
  {
    InvAlways(states, acts, true, i);
    ServedInOrderAlways(states, acts, i);
    if states[i].listening {
      ListeningHasPost(states, acts, i);
    }
    if states[i].slot.Held? {
      RaisedExactly(states, acts, true, i, states[i].slot.post);
    }
  }

  lemma {:induction false} ListeningHasPost(states: seq<State>, acts: seq<Action>, i: nat)
    requires IsRun(states, acts, true) && i < |states| && states[i].listening
    ensures states[i].posts != []
  {
    if i > 0 {
      if states[i - 1].listening {
        ListeningHasPost(states, acts, i - 1);
      }
      assert states[i - 1 + 1] == Next(states[i - 1], acts[i - 1]);
    }
  }

  // The signals outstanding: those sent and not merged, less those delivered.
  function Sent(acts: seq<Action>, i: nat): nat
    requires i <= |acts|
  {
    if i == 0 then 0
    else
      var a := acts[i - 1];
      Sent(acts, i - 1) + AsCount((a.Kill? || a.OtherSignal?) && !a.merge)
  }

  function Delivered(acts: seq<Action>, i: nat): nat
    requires i <= |acts|
  {
    if i == 0 then 0 else Delivered(acts, i - 1) + AsCount(acts[i - 1].Deliver?)
  }

  lemma {:induction false} SignalsAreConserved(states: seq<State>, acts: seq<Action>, polite: bool, i: nat)
    requires IsRun(states, acts, polite) && i < |states|
    ensures states[i].signals + Delivered(acts, i) == Sent(acts, i)
  {
    if i > 0 {
      SignalsAreConserved(states, acts, polite, i - 1);
      assert states[i - 1 + 1] == Next(states[i - 1], acts[i - 1]);
    }
  }

  // Sending and delivering signals comes to an end, at quiescence.
  function Todo(s: State): nat { 2 * AsCount(s.raising) + s.signals }

  lemma SignallingProgresses(s: State, a: Action)
    requires Enabled(s, a) && (a.Kill? || a.Deliver?)
    ensures Todo(Next(s, a)) < Todo(s)
    ensures Quiescent(s) <==> Todo(s) == 0
  {
  }

  ghost predicate Reachable(s: State) {
    exists states, acts :: IsRun(states, acts, true) && s == states[|acts|]
  }

  lemma Reach(s: State, a: Action) returns (t: State)
    requires Reachable(s) && Enabled(s, a) && Polite(s, a)
    ensures t == Next(s, a) && Reachable(t)
  {
    hide Next, Enabled;
    t := Next(s, a);
    var states, acts :| IsRun(states, acts, true) && s == states[|acts|];
    assert IsRun(states + [t], acts + [a], true);
    assert (states + [t])[|acts + [a]|] == t;
  }

  // There are polite runs in which a callback is called with its context, after its transfer.
  lemma CallbackCanBeCalled(callback: nat, context: nat)
    requires callback != 0
    ensures exists s :: Reachable(s) && s.log == [Transferred(0), Raised(0), Called(0, callback, context)]
  {
    assert Reachable(INITIAL) by {
      assert IsRun([INITIAL], [], true);
    }
    hide Reachable;
    var s := Reach(INITIAL, SetEnabled(true));
    s := Reach(s, PostAsync(callback, context));
    s := Reach(s, Transfer);
    s := Reach(s, Kill(false));
    s := Reach(s, Deliver(None));
    assert s.log == [Transferred(0), Raised(0), Called(0, callback, context)];
  }

  // An accepted interrupt has its raise in the log, a raise its transfer, and an outstanding last
  // post has no transfer yet.
  ghost predicate LogInv(s: State) {
    && (s.accepted ==> exists q: nat :: Raised(q) in s.log)
    && (forall q: nat :: Raised(q) in s.log ==> Transferred(q) in s.log)
    && (forall q: nat :: Transferred(q) in s.log ==> q < |s.posts| && (q == |s.posts| - 1 ==> !s.listening))
  }

  lemma LogInvStep(s: State, a: Action)
    requires LogInv(s) && Enabled(s, a) && Polite(s, a)
    ensures LogInv(Next(s, a))
  {
    var t := Next(s, a);
    assert forall e :: e in s.log ==> e in t.log;
    if a.Transfer? && s.irqEnabled {
      assert t.log[|s.log|] == Transferred(|s.posts| - 1) && t.log[|s.log| + 1] == Raised(|s.posts| - 1);
    }
  }

  lemma {:induction false} LogFollows(states: seq<State>, acts: seq<Action>, i: nat)
    requires IsRun(states, acts, true) && i < |states|
    ensures LogInv(states[i])
  {
    if i > 0 {
      LogFollows(states, acts, i - 1);
      assert states[i - 1 + 1] == Next(states[i - 1], acts[i - 1]);
      LogInvStep(states[i - 1], acts[i - 1]);
    }
  }
}
