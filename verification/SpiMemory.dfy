/**
 The bytes of a transfer, in every interleaving: the step system of SpiProtocol over a memory that
 memcpy changes one byte a step, while the programs of both units write to it at any moment.
 */
module SpiMemory {
  import opened SpiProtocol
  import opened SpiInvariant

  // What is not in the map is 0.
  type Memory = map<Ptr, bv8>

  function At(m: Memory, a: Ptr): bv8 { if a in m then m[a] else 0 }

  predicate Range(a: Ptr, start: Ptr, n: nat) { start <= a < start + n }

  predicate Apart(p: Ptr, q: Ptr, n: nat) { p + n <= q || q + n <= p }

  // A buffer of the call, over its whole size.
  predicate Buffers(call: Call, a: Ptr) {
    || (call.tx != NULL && Range(a, call.tx, call.size))
    || (call.rx != NULL && Range(a, call.rx, call.size))
  }

  // History: the memory when the slave's last post was published, when the master's call began, and
  // when its transfer began.
  datatype MState = MState(s: State, mem: Memory, posted: Memory, begun: Memory, base: Memory)

  // A step of the protocol, or a write of some program.
  datatype MAction = Do(a: Action) | Write(address: Ptr, value: bv8)

  // The byte that memcpy moves in the next step of the master's thread, if it is in one.
  function MoveByte(s: State, mem: Memory): Memory {
    if !s.mt.pc.MXmit? then mem
    else
      match s.mt.pc.at
      case OutCopy(src, moved) =>
        if moved < s.mt.count then mem[s.mt.call.rx + moved := At(mem, src + moved)] else mem
      case InCopy(dst, moved) =>
        if moved < s.mt.count then mem[dst + moved := At(mem, s.mt.call.tx + moved)] else mem
      case _ => mem
  }

  predicate MEnabled(m: MState, a: MAction) {
    a.Do? ==> Enabled(m.s, a.a)
  }

  function MNext(m: MState, a: MAction): MState
    requires MEnabled(m, a)
  {
    match a
    case Write(address, value) => m.(mem := m.mem[address := value])
    case Do(b) =>
      MState(Next(m.s, b),
             if b.MasterStep? then MoveByte(m.s, m.mem) else m.mem,
             if b.SlaveStep? && m.s.st.pc.SListen? then m.mem else m.posted,
             if b.MasterBegin? then m.mem else m.begun,
             if b.MasterStep? && m.s.mt.pc == MXmit(Minimum) then m.mem else m.base)
  }

  // What memcpy needs of the two calls: buffers that exist and do not overlap, copy by copy.
  predicate CanCopy(post: Call, call: Call) {
    var n := Min(call.size, post.size);
    && (n > 0 && post.tx != NULL ==> call.rx != NULL && Apart(post.tx, call.rx, n))
    && (n > 0 && post.rx != NULL ==> call.tx != NULL && Apart(call.tx, post.rx, n))
  }

  // The hypotheses on the programs: Polite; nobody writes to the buffers of a listening slave or of
  // a master's call in progress; and a transfer meets the preconditions of memcpy.
  predicate Careful(m: MState, a: MAction) {
    match a
    case Write(address, _) =>
      && (m.s.slave.listening && m.s.log != [] ==> !Buffers(Last(m.s.log).post, address))
      && (!m.s.mt.pc.MIdle? ==> !Buffers(m.s.mt.call, address))
    case Do(b) =>
      && Polite(m.s, b)
      && (b.MasterStep? && m.s.mt.pc == MXmit(Minimum) && m.s.log != [] ==> CanCopy(Last(m.s.log).post, m.s.mt.call))
  }

  ghost predicate IsMRun(states: seq<MState>, acts: seq<MAction>) {
    && |states| == |acts| + 1
    && states[0].s == INITIAL
    && forall i {:trigger acts[i]} :: 0 <= i < |acts| ==>
         MEnabled(states[i], acts[i]) && Careful(states[i], acts[i]) && states[i + 1] == MNext(states[i], acts[i])
  }

  // ---------------------------------------------------------------- what the transfer means

  // The byte at a when out bytes of the copy to the master are done, as a function of the memory
  // before the transfer.
  function AfterOut(base: Memory, post: Call, call: Call, out: nat, a: Ptr): bv8 {
    if Range(a, call.rx, out) then At(base, post.tx + (a - call.rx)) else At(base, a)
  }

  // And when back bytes of the copy to the slave are done too.
  function After(base: Memory, post: Call, call: Call, out: nat, back: nat, a: Ptr): bv8 {
    if Range(a, post.rx, back) then AfterOut(base, post, call, out, call.tx + (a - post.rx))
    else AfterOut(base, post, call, out, a)
  }

  // The buffers of the two calls hold that.
  ghost predicate Image(mem: Memory, base: Memory, post: Call, call: Call, out: nat, back: nat) {
    forall a: Ptr :: Buffers(post, a) || Buffers(call, a) ==> At(mem, a) == After(base, post, call, out, back, a)
  }

  // The bytes that the whole copy to the master moves, and the copy to the slave.
  function OutCount(post: Call, call: Call): nat {
    if post.tx != NULL then Min(call.size, post.size) else 0
  }

  function BackCount(post: Call, call: Call): nat {
    if post.rx != NULL then Min(call.size, post.size) else 0
  }

  lemma ImageWrite(mem: Memory, base: Memory, post: Call, call: Call, out: nat, back: nat, address: Ptr, value: bv8)
    requires Image(mem, base, post, call, out, back) && !Buffers(post, address) && !Buffers(call, address)
    ensures Image(mem[address := value], base, post, call, out, back)
  {
  }

  lemma ImageOut(mem: Memory, base: Memory, post: Call, call: Call, out: nat)
    requires Image(mem, base, post, call, out, 0) && CanCopy(post, call) && out < OutCount(post, call)
    ensures Image(mem[call.rx + out := At(mem, post.tx + out)], base, post, call, out + 1, 0)
  {
    assert Buffers(post, post.tx + out);
    assert At(mem, post.tx + out) == At(base, post.tx + out);
  }

  lemma ImageBack(mem: Memory, base: Memory, post: Call, call: Call, out: nat, back: nat)
    requires Image(mem, base, post, call, out, back) && CanCopy(post, call) && back < BackCount(post, call)
    ensures Image(mem[post.rx + back := At(mem, call.tx + back)], base, post, call, out, back + 1)
  {
    assert Buffers(call, call.tx + back);
    assert At(mem, call.tx + back) == AfterOut(base, post, call, out, call.tx + back);
  }

  // ---------------------------------------------------------------- the invariant

  // The master's thread has not begun a transfer in its present call.
  predicate Early(pc: MasterPc) {
    pc.MAsyncTest? || pc.MLock? || pc.MRx? || pc.MTx? || pc.MTest? || pc == MXmit(Minimum)
  }

  // The buffers of the call hold in both memories the same.
  ghost predicate Same(m: Memory, n: Memory, call: Call) {
    forall a: Ptr :: Buffers(call, a) ==> At(m, a) == At(n, a)
  }

  // While the slave's post waits its buffers are as published; while the master's call has not begun
  // its transfer its buffers are as at the call.
  ghost predicate Untouched(m: MState) {
    && (m.s.slave.listening && m.s.log != [] && !(2 <= Stage(m.s.mt.pc) <= 11) ==>
          Same(m.mem, m.posted, Last(m.s.log).post))
    && (Early(m.s.mt.pc) ==> Same(m.mem, m.begun, m.s.mt.call))
  }

  // How far the copies of the transfer have got.
  function OutDone(s: State): nat
    requires s.log != []
  {
    if Stage(s.mt.pc) == 4 then s.mt.pc.at.moved
    else if Stage(s.mt.pc) < 4 then 0 else OutCount(Last(s.log).post, s.mt.call)
  }

  function BackDone(s: State): nat
    requires s.log != []
  {
    if Stage(s.mt.pc) == 7 then s.mt.pc.at.moved
    else if Stage(s.mt.pc) < 7 then 0 else BackCount(Last(s.log).post, s.mt.call)
  }

  ghost predicate Moving(m: MState) {
    2 <= Stage(m.s.mt.pc) <= 11 && m.s.log != [] ==>
      var post, call := Last(m.s.log).post, m.s.mt.call;
      && CanCopy(post, call)
      && Same(m.base, m.posted, post) && Same(m.base, m.begun, call)
      && Image(m.mem, m.base, post, call, OutDone(m.s), BackDone(m.s))
  }

  predicate Owned(s: State) { Ownership(s) && PostedFields(s) && Copying(s) }

  lemma BytesWrite(m: MState, a: MAction)
    requires Owned(m.s) && Untouched(m) && Moving(m) && a.Write? && Careful(m, a)
    ensures Untouched(MNext(m, a)) && Moving(MNext(m, a))
  {
    hide Copying, PostedFields, Image, Buffers;
    var t := MNext(m, a);
    if 2 <= Stage(m.s.mt.pc) <= 11 {
      ImageWrite(m.mem, m.base, Last(m.s.log).post, m.s.mt.call, OutDone(m.s), BackDone(m.s), a.address, a.value);
    }
  }

  lemma CopyingOut(s: State)
    requires Owned(s) && Stage(s.mt.pc) == 4
    ensures s.log != [] && s.slave.listening && s.mt.count == OutCount(Last(s.log).post, s.mt.call)
    ensures s.mt.pc.at.src == Last(s.log).post.tx && s.mt.pc.at.moved <= s.mt.count
  {
  }

  lemma CopyingBack(s: State)
    requires Owned(s) && Stage(s.mt.pc) == 7
    ensures s.log != [] && s.slave.listening && s.mt.count == BackCount(Last(s.log).post, s.mt.call)
    ensures s.mt.pc.at.dst == Last(s.log).post.rx && s.mt.pc.at.moved <= s.mt.count
  {
  }

  lemma BytesOut(m: MState)
    requires Owned(m.s) && Moving(m) && Stage(m.s.mt.pc) == 4
    ensures Untouched(MNext(m, Do(MasterStep))) && Moving(MNext(m, Do(MasterStep)))
  {
    hide Owned, Image, CanCopy, Same;
    CopyingOut(m.s);
    if m.s.mt.pc.at.moved < m.s.mt.count {
      ImageOut(m.mem, m.base, Last(m.s.log).post, m.s.mt.call, m.s.mt.pc.at.moved);
    }
  }

  lemma BytesBack(m: MState)
    requires Owned(m.s) && Moving(m) && Stage(m.s.mt.pc) == 7
    ensures Untouched(MNext(m, Do(MasterStep))) && Moving(MNext(m, Do(MasterStep)))
  {
    hide Owned, Image, CanCopy, Same;
    CopyingBack(m.s);
    if m.s.mt.pc.at.moved < m.s.mt.count {
      ImageBack(m.mem, m.base, Last(m.s.log).post, m.s.mt.call, OutDone(m.s), m.s.mt.pc.at.moved);
    }
  }

  lemma BytesBegin(m: MState)
    requires Owned(m.s) && Untouched(m) && m.s.mt.pc == MXmit(Minimum) && Careful(m, Do(MasterStep))
    ensures Untouched(MNext(m, Do(MasterStep))) && Moving(MNext(m, Do(MasterStep)))
  {
    hide Copying, PostedFields, CanCopy, Same;
    assert Image(m.mem, m.mem, Last(m.s.log).post, m.s.mt.call, 0, 0);
  }

  // The steps of xmit_locked that move no byte.
  lemma BytesXmit(m: MState)
    requires Owned(m.s) && Untouched(m) && Moving(m)
    requires m.s.mt.pc.MXmit? && Stage(m.s.mt.pc) !in {1, 4, 7}
    ensures Untouched(MNext(m, Do(MasterStep))) && Moving(MNext(m, Do(MasterStep)))
  {
    hide Image, CanCopy, Same;
  }

  lemma BytesMaster(m: MState)
    requires Owned(m.s) && Untouched(m) && MasterCanStep(m.s) && !m.s.mt.pc.MXmit?
    ensures Untouched(MNext(m, Do(MasterStep))) && Moving(MNext(m, Do(MasterStep)))
  {
    hide Copying, PostedFields, Image, CanCopy, Same;
    var t := MNext(m, Do(MasterStep));
    if m.s.mt.pc.MPost? {
      assert t.s == PostNext(m.s, m.s.mt.pc.field);
    } else {
      assert t.s == CallNext(m.s);
    }
  }

  lemma BytesSlave(m: MState)
    requires Owned(m.s) && Untouched(m) && Moving(m) && SlaveCanStep(m.s)
    ensures Untouched(MNext(m, Do(SlaveStep))) && Moving(MNext(m, Do(SlaveStep)))
  {
    hide Copying, PostedFields, Image, CanCopy, Buffers;
  }

  lemma BytesOther(m: MState, a: Action)
    requires Owned(m.s) && Untouched(m) && Moving(m) && Enabled(m.s, a) && !a.MasterStep? && !a.SlaveStep?
    ensures Untouched(MNext(m, Do(a))) && Moving(MNext(m, Do(a)))
  {
    hide Copying, PostedFields, Image, CanCopy, Buffers;
  }

  lemma BytesStep(m: MState, a: MAction)
    requires Owned(m.s) && Untouched(m) && Moving(m) && MEnabled(m, a) && Careful(m, a)
    ensures Untouched(MNext(m, a)) && Moving(MNext(m, a))
  {
    hide Owned, Untouched, Moving, MNext;
    if a.Write? {
      BytesWrite(m, a);
    } else if a.a.SlaveStep? {
      BytesSlave(m);
    } else if !a.a.MasterStep? {
      BytesOther(m, a.a);
    } else if !m.s.mt.pc.MXmit? {
      BytesMaster(m);
    } else {
      match Stage(m.s.mt.pc) {
        case 1 => BytesBegin(m);
        case 4 => BytesOut(m);
        case 7 => BytesBack(m);
        case _ => BytesXmit(m);
      }
    }
  }

  lemma InvIsOwned(s: State)
    requires Inv(s)
    ensures Owned(s)
  {
  }

  lemma {:induction false} BytesAlways(states: seq<MState>, acts: seq<MAction>, i: nat)
    requires IsMRun(states, acts) && i < |states|
    ensures Inv(states[i].s) && Untouched(states[i]) && Moving(states[i])
  {
    if i > 0 {
      hide Inv, Owned, Untouched, Moving, Careful;
      BytesAlways(states, acts, i - 1);
      assert states[i - 1 + 1] == MNext(states[i - 1], acts[i - 1]);
      InvIsOwned(states[i - 1].s);
      BytesStep(states[i - 1], acts[i - 1]);
      CarefulInv(states[i - 1], acts[i - 1]);
    }
  }

  lemma CarefulInv(m: MState, a: MAction)
    requires Inv(m.s) && MEnabled(m, a) && Careful(m, a)
    ensures Inv(MNext(m, a).s)
  {
    if a.Do? {
      InvStep(m.s, a.a);
    }
  }

  // ---------------------------------------------------------------- the exchange

  // When a transfer completes, in any interleaving: every byte of the buffers of the two calls is
  // what the two copies, one after the other, make of the bytes that the slave's buffers held when
  // the post was published and the master's when it called. No other assumption on how the four
  // buffers lie is made than memcpy's own.
  lemma TransferIsTwoCopies(states: seq<MState>, acts: seq<MAction>, i: nat)
    requires IsMRun(states, acts) && i < |acts|
    requires acts[i] == Do(MasterStep) && states[i].s.mt.pc == MXmit(StopListening)
    ensures var m := states[i];
            && m.s.log != [] && Last(m.s.log).Posted?
            && var post, call := Last(m.s.log).post, m.s.mt.call;
            && CanCopy(post, call) && Same(m.base, m.posted, post) && Same(m.base, m.begun, call)
            && Image(m.mem, m.base, post, call, OutCount(post, call), BackCount(post, call))
  {
    BytesAlways(states, acts, i);
  }

  // The slave's rx buffer and the master's do not overlap, nor does either overlap a tx buffer of
  // the other side; the slave may use one buffer for both.
  predicate Separate(post: Call, call: Call) {
    var n := if post.size > call.size then post.size else call.size;
    && Apart(post.rx, call.rx, n) && Apart(post.tx, call.rx, n) && Apart(post.rx, call.tx, n)
  }

  // What the two copies leave in separate buffers.
  lemma SeparateCopies(base: Memory, post: Call, call: Call, k: nat)
    requires CanCopy(post, call) && Separate(post, call)
    ensures var out, back, n := OutCount(post, call), BackCount(post, call), Min(post.size, call.size);
            && (k < call.size ==>
                  After(base, post, call, out, back, call.rx + k) ==
                  (if k < n && post.tx != NULL then At(base, post.tx + k) else At(base, call.rx + k)))
            && (k < post.size && post.rx != NULL ==>
                  && (k >= n ==> After(base, post, call, out, back, post.rx + k) == At(base, post.rx + k))
                  && (k < n && (post.tx == NULL || Apart(call.tx, call.rx, n)) ==>
                        After(base, post, call, out, back, post.rx + k) == At(base, call.tx + k)))
  {
  }

  // The master's rx buffer holds the slave's tx bytes and its own tail.
  ghost predicate MasterHolds(mem: Memory, posted: Memory, begun: Memory, post: Call, call: Call, k: nat) {
    call.rx != NULL && k < call.size ==>
      At(mem, call.rx + k) ==
      (if k < post.size && post.tx != NULL then At(posted, post.tx + k) else At(begun, call.rx + k))
  }

  // The slave's rx buffer holds the master's tx bytes, unless the master has received into them
  // before, and its own tail.
  ghost predicate SlaveHolds(mem: Memory, posted: Memory, begun: Memory, post: Call, call: Call, k: nat) {
    post.rx != NULL && k < post.size ==>
      && (k >= call.size ==> At(mem, post.rx + k) == At(posted, post.rx + k))
      && (k < call.size && (post.tx == NULL || Apart(call.tx, call.rx, call.size)) ==>
            At(mem, post.rx + k) == At(begun, call.tx + k))
  }

  lemma Read(m: Memory, n: Memory, call: Call, a: Ptr)
    requires Same(m, n, call) && Buffers(call, a)
    ensures At(m, a) == At(n, a)
  {
  }

  lemma MasterReads(m: MState, post: Call, call: Call, k: nat)
    requires CanCopy(post, call) && Same(m.base, m.posted, post) && Same(m.base, m.begun, call)
    requires Image(m.mem, m.base, post, call, OutCount(post, call), BackCount(post, call)) && Separate(post, call)
    ensures MasterHolds(m.mem, m.posted, m.begun, post, call, k)
  {
    if call.rx != NULL && k < call.size {
      SeparateCopies(m.base, post, call, k);
      hide After, Separate, Same, CanCopy;
      assert Buffers(call, call.rx + k);
      if k < Min(post.size, call.size) && post.tx != NULL {
        Read(m.base, m.posted, post, post.tx + k);
      } else {
        Read(m.base, m.begun, call, call.rx + k);
      }
    }
  }

  lemma SlaveReads(m: MState, post: Call, call: Call, k: nat)
    requires CanCopy(post, call) && Same(m.base, m.posted, post) && Same(m.base, m.begun, call)
    requires Image(m.mem, m.base, post, call, OutCount(post, call), BackCount(post, call)) && Separate(post, call)
    ensures SlaveHolds(m.mem, m.posted, m.begun, post, call, k)
  {
    if post.rx != NULL && k < post.size {
      SeparateCopies(m.base, post, call, k);
      hide After, Separate, Same;
      assert Buffers(post, post.rx + k);
      if k < Min(post.size, call.size) {
        assert call.tx != NULL;
        Read(m.base, m.begun, call, call.tx + k);
      } else {
        Read(m.base, m.posted, post, post.rx + k);
      }
    }
  }

  // The full-duplex exchange in every interleaving: the master's rx buffer has the first bytes of
  // the slave's tx buffer as published, and keeps its tail; the slave's rx buffer has the first
  // bytes of the master's tx buffer as at the call, and keeps its tail. As many bytes are moved as
  // the smaller of the two calls asks for.
  lemma BytesExchanged(states: seq<MState>, acts: seq<MAction>, i: nat, k: nat)
    requires IsMRun(states, acts) && i < |acts|
    requires acts[i] == Do(MasterStep) && states[i].s.mt.pc == MXmit(StopListening)
    requires states[i].s.log != [] && Separate(Last(states[i].s.log).post, states[i].s.mt.call)
    ensures var m, post, call := states[i], Last(states[i].s.log).post, states[i].s.mt.call;
            && MasterHolds(m.mem, m.posted, m.begun, post, call, k)
            && SlaveHolds(m.mem, m.posted, m.begun, post, call, k)
  {
    hide MasterHolds, SlaveHolds, Separate, Image, Same, CanCopy;
    TransferIsTwoCopies(states, acts, i);
    MasterReads(states[i], Last(states[i].s.log).post, states[i].s.mt.call, k);
    SlaveReads(states[i], Last(states[i].s.log).post, states[i].s.mt.call, k);
  }
}
