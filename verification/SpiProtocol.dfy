/**
 The SPI transfer protocol as a step system: one thread for the slave device, one for the
 master device, one field access or lock operation per step, in any interleaving.

 The slave's thread runs sync_xfer or async_xfer and posts its buffers. The master's thread runs
 sync_xfer or async_xfer and, when the slave is listening, xmit_locked on the slave's object.
 The two threads take different mutexes (each takes the lock of its remote), so nothing below
 relies on mutual exclusion.
 */
module SpiProtocol {

  // A buffer address; 0 is the null pointer.
  type Ptr = nat
  const NULL: Ptr := 0

  datatype Device = Device(rx: Ptr, tx: Ptr, size: nat, listening: bool, callback: nat, context: nat)

  // The arguments of one call of sync_xfer (sync) or async_xfer (not sync).
  datatype Call = Call(tx: Ptr, rx: Ptr, size: nat, sync: bool, callback: nat, context: nat)

  // The next statement of the slave's thread.
  datatype SlavePc =
    | SIdle | SLock | SRx | STx | SSize | SListen | SCallback | SContext | SUnlock
    | SCondLock | SWait | SBlocked | SReturn

  // The next statement of the master's thread.
  datatype MasterPc =
    | MIdle | MAsyncTest | MLock | MRx | MTx | MTest
    | MXmit(at: XmitPc)
    | MClearRx | MClearTx | MUnlock | MReturn
    | MPost(field: PostPc)

  // Inside xmit_locked. memcpy evaluates its arguments first and then moves one byte a step.
  datatype XmitPc =
    | Minimum | OutTest | OutArg | OutCopy(src: Ptr, moved: nat) | InTest | InArg | InCopy(dst: Ptr, moved: nat)
    | ClearRx | ClearTx | StoreSize | StopListening | Signal | Raise

  // The post that a master's async_xfer makes on its own device when nobody listens.
  datatype PostPc = PLock | PRx | PTx | PSize | PListen | PCallback | PContext | PUnlock

  // One memcpy: count bytes from one buffer to the other.
  datatype Move = NoMove | Move(src: Ptr, dst: Ptr, count: nat)

  // A post of the slave: outstanding, or served by one run of xmit_locked that has cleared
  // is_listening, with what that run copied.
  datatype Entry =
    | Posted(post: Call)
    | Served(post: Call, call: Call, count: nat, toMaster: Move, toSlave: Move)

  // A return of the slave's sync_xfer: which of its posts, and the value returned.
  datatype Return = Return(post: int, value: int)

  // A call of a callback by spi_irq_handler: the post that stored the callback, and the post that
  // stored the context it is called with (NO_POST: the context is null).
  datatype Called = Called(post: int, callback: nat, contextOf: int, context: nat)

  const NO_POST := -1

  // History: the posts that stored slave_callback and slave_callback_ctx, and the callbacks called.
  datatype Calls = Calls(callbackOf: int, contextOf: int, called: seq<Called>)

  datatype SlaveThread = SlaveThread(pc: SlavePc, post: Call)
  datatype MasterThread = MasterThread(pc: MasterPc, call: Call, count: nat, toMaster: Move, toSlave: Move)

  // The mutexes (slaveLock: the slave's lock, which the master's thread takes; masterLock the
  // other way round), and whether a signal has woken the waiting slave.
  datatype Sync = Sync(slaveLock: bool, masterLock: bool, condMutex: bool, woken: bool)

  // Which devices' interrupts are enabled, and whether the slave's is in its controller's pending
  // set, where it stays.
  datatype Irqs = Irqs(slave: bool, master: bool, pending: bool)

  datatype State = State(
    slave: Device, master: Device, st: SlaveThread, mt: MasterThread, sync: Sync,
    irqs: Irqs,
    // history: the posts that the slave has published, the returns of its sync_xfer, its callbacks
    log: seq<Entry>, returned: seq<Return>, calls: Calls)

  datatype Action =
    | SlaveBegin(arg: Call) | SlaveStep | SlaveIrqHandler | SetSlaveIrq(on: bool)
    | MasterBegin(arg: Call) | MasterStep | SetMasterIrq(on: bool)

  const NO_DEVICE := Device(NULL, NULL, 0, false, NULL, NULL)
  const NO_CALL := Call(NULL, NULL, 0, true, NULL, NULL)
  const INITIAL := State(NO_DEVICE, NO_DEVICE, SlaveThread(SIdle, NO_CALL),
                         MasterThread(MIdle, NO_CALL, 0, NoMove, NoMove),
                         Sync(false, false, false, false), Irqs(false, false, false),
                         [], [], Calls(NO_POST, NO_POST, []))

  function Min(a: nat, b: nat): (m: nat)
    ensures m <= a && m <= b && (m == a || m == b)
  {
    if a <= b then a else b
  }

  // The conversion of a size_t to the int that both functions return.
  function ToInt(n: nat): (r: int)
    ensures -0x8000_0000 <= r < 0x8000_0000 && (n - r) % 0x1_0000_0000 == 0
  {
    var low := n % 0x1_0000_0000;
    if low < 0x8000_0000 then low else low - 0x1_0000_0000
  }

  function Last<T>(s: seq<T>): T
    requires s != []
  {
    s[|s| - 1]
  }

  // ---------------------------------------------------------------- steps of the slave's thread

  predicate SlaveCanStep(s: State) {
    match s.st.pc
    case SIdle => false
    case SLock => !s.sync.masterLock
    case SCondLock => !s.sync.condMutex
    case SBlocked => s.sync.woken && !s.sync.condMutex
    case _ => true
  }

  function SlaveGoto(s: State, pc: SlavePc): State {
    s.(st := s.st.(pc := pc))
  }

  function SlaveNext(s: State): State
    requires SlaveCanStep(s)
  {
    match s.st.pc
    case SIdle => s
    case SLock => SlaveGoto(s, SRx).(sync := s.sync.(masterLock := true))
    case SRx => SlaveGoto(s, STx).(slave := s.slave.(rx := s.st.post.rx))
    case STx => SlaveGoto(s, SSize).(slave := s.slave.(tx := s.st.post.tx))
    case SSize => SlaveGoto(s, SListen).(slave := s.slave.(size := s.st.post.size))
    case SListen =>
      SlaveGoto(s, if s.st.post.sync then SUnlock else SCallback)
      .(slave := s.slave.(listening := true), log := s.log + [Posted(s.st.post)])
    case SCallback =>
      SlaveGoto(s, SContext)
      .(slave := s.slave.(callback := s.st.post.callback), calls := s.calls.(callbackOf := |s.log| - 1))
    case SContext =>
      SlaveGoto(s, SUnlock)
      .(slave := s.slave.(context := s.st.post.context), calls := s.calls.(contextOf := |s.log| - 1))
    case SUnlock => SlaveGoto(s, if s.st.post.sync then SCondLock else SIdle).(sync := s.sync.(masterLock := false))
    case SCondLock => SlaveGoto(s, SWait).(sync := s.sync.(condMutex := true))
    // pthread_cond_wait releases the mutex and blocks in one step, and holds it again on return
    case SWait => SlaveGoto(s, SBlocked).(sync := s.sync.(condMutex := false))
    case SBlocked => SlaveGoto(s, SReturn).(sync := s.sync.(condMutex := true, woken := false))
    // cond_mutex is not released
    case SReturn => SlaveGoto(s, SIdle).(returned := s.returned + [Return(|s.log| - 1, ToInt(s.slave.size))])
  }

  // ---------------------------------------------------------------- steps of the master's thread

  predicate MasterCanStep(s: State) {
    match s.mt.pc
    case MIdle => false
    case MLock => !s.sync.slaveLock
    case MPost(field) => field.PLock? ==> !s.sync.slaveLock
    case _ => true
  }

  function MasterGoto(s: State, pc: MasterPc): State {
    s.(mt := s.mt.(pc := pc))
  }

  function XmitGoto(s: State, at: XmitPc): State {
    MasterGoto(s, MXmit(at))
  }

  // The transfer of the master's thread serves the last post.
  function Serve(log: seq<Entry>, mt: MasterThread): seq<Entry> {
    if log == [] then log
    else log[|log| - 1 := Served(Last(log).post, mt.call, mt.count, mt.toMaster, mt.toSlave)]
  }

  // xmit_locked, executed by the master's thread on the slave's object.
  function XmitNext(s: State, at: XmitPc): State {
    match at
    case Minimum =>
      s.(mt := s.mt.(count := Min(s.mt.call.size, s.slave.size), toMaster := NoMove, toSlave := NoMove,
                     pc := MXmit(OutTest)))
    case OutTest => XmitGoto(s, if s.mt.count > 0 && s.slave.tx != NULL then OutArg else InTest)
    case OutArg => XmitGoto(s, OutCopy(s.slave.tx, 0))
    case OutCopy(src, moved) =>
      if moved < s.mt.count then XmitGoto(s, OutCopy(src, moved + 1))
      else s.(mt := s.mt.(toMaster := Move(src, s.mt.call.rx, moved), pc := MXmit(InTest)))
    case InTest => XmitGoto(s, if s.mt.count > 0 && s.slave.rx != NULL then InArg else ClearRx)
    case InArg => XmitGoto(s, InCopy(s.slave.rx, 0))
    case InCopy(dst, moved) =>
      if moved < s.mt.count then XmitGoto(s, InCopy(dst, moved + 1))
      else s.(mt := s.mt.(toSlave := Move(s.mt.call.tx, dst, moved), pc := MXmit(ClearRx)))
    case ClearRx => XmitGoto(s, ClearTx).(slave := s.slave.(rx := NULL))
    case ClearTx => XmitGoto(s, StoreSize).(slave := s.slave.(tx := NULL))
    case StoreSize => XmitGoto(s, StopListening).(slave := s.slave.(size := s.mt.count))
    case StopListening =>
      XmitGoto(s, Signal).(slave := s.slave.(listening := false), log := Serve(s.log, s.mt))
    // pthread_cond_signal wakes the slave only if it is waiting at this moment
    case Signal => XmitGoto(s, Raise).(sync := s.sync.(woken := s.sync.woken || s.st.pc.SBlocked?))
    // local_raise on the slave's controller: see the Interrupts module
    case Raise => MasterGoto(s, MClearRx).(irqs := s.irqs.(pending := s.irqs.pending || s.irqs.slave))
  }

  function PostNext(s: State, field: PostPc): State {
    match field
    case PLock => MasterGoto(s, MPost(PRx)).(sync := s.sync.(slaveLock := true))
    case PRx => MasterGoto(s, MPost(PTx)).(master := s.master.(rx := s.mt.call.rx))
    case PTx => MasterGoto(s, MPost(PSize)).(master := s.master.(tx := s.mt.call.tx))
    case PSize => MasterGoto(s, MPost(PListen)).(master := s.master.(size := s.mt.call.size))
    case PListen => MasterGoto(s, MPost(PCallback)).(master := s.master.(listening := true))
    case PCallback => MasterGoto(s, MPost(PContext)).(master := s.master.(callback := s.mt.call.callback))
    case PContext => MasterGoto(s, MPost(PUnlock)).(master := s.master.(context := s.mt.call.context))
    case PUnlock => MasterGoto(s, MIdle).(sync := s.sync.(slaveLock := false))
  }

  // sync_xfer and async_xfer outside xmit_locked.
  function CallNext(s: State): State
    requires MasterCanStep(s) && !s.mt.pc.MXmit? && !s.mt.pc.MPost?
  {
    match s.mt.pc
    case MAsyncTest => MasterGoto(s, if s.slave.listening then MLock else MPost(PLock))
    case MLock => MasterGoto(s, MRx).(sync := s.sync.(slaveLock := true))
    case MRx => MasterGoto(s, MTx).(master := s.master.(rx := s.mt.call.rx))
    case MTx => MasterGoto(s, MTest).(master := s.master.(tx := s.mt.call.tx))
    case MTest => MasterGoto(s, if s.slave.listening then MXmit(Minimum) else MClearRx)
    case MClearRx => MasterGoto(s, MClearTx).(master := s.master.(rx := NULL))
    case MClearTx => MasterGoto(s, MUnlock).(master := s.master.(tx := NULL))
    case MUnlock => MasterGoto(s, MReturn).(sync := s.sync.(slaveLock := false))
    case MReturn => MasterGoto(s, MIdle)
  }

  function MasterNext(s: State): State
    requires MasterCanStep(s)
  {
    if s.mt.pc.MXmit? then XmitNext(s, s.mt.pc.at)
    else if s.mt.pc.MPost? then PostNext(s, s.mt.pc.field)
    else CallNext(s)
  }

  // ---------------------------------------------------------------- runs

  // spi_irq_handler, in one step: the controller's signal handler runs on the slave's own thread,
  // between two of its steps, and the master's thread has no part in these fields.
  function HandleIrq(s: State): State {
    if s.slave.callback == NULL then s
    else
      var call := Called(s.calls.callbackOf, s.slave.callback, s.calls.contextOf, s.slave.context);
      s.(slave := s.slave.(callback := NULL, context := NULL),
         calls := s.calls.(contextOf := NO_POST, called := s.calls.called + [call]))
  }

  predicate Enabled(s: State, a: Action) {
    match a
    case SlaveBegin(_) => s.st.pc.SIdle?
    case SlaveStep => SlaveCanStep(s)
    // any signal of the controller walks over all pending interrupts
    case SlaveIrqHandler => s.irqs.pending
    case MasterBegin(_) => s.mt.pc.MIdle?
    case MasterStep => MasterCanStep(s)
    case _ => true
  }

  function Next(s: State, a: Action): State
    requires Enabled(s, a)
  {
    match a
    // async_xfer on a device whose interrupt is disabled returns -EINVAL and does nothing
    case SlaveBegin(arg) => if arg.sync || s.irqs.slave then s.(st := SlaveThread(SLock, arg)) else s
    case SlaveStep => SlaveNext(s)
    case SlaveIrqHandler => HandleIrq(s)
    case SetSlaveIrq(on) => s.(irqs := s.irqs.(slave := on))
    case MasterBegin(arg) =>
      if arg.sync then s.(mt := s.mt.(call := arg, pc := MLock))
      else if s.irqs.master then s.(mt := s.mt.(call := arg, pc := MAsyncTest))
      else s
    case MasterStep => MasterNext(s)
    case SetMasterIrq(on) => s.(irqs := s.irqs.(master := on))
  }

  // The hypothesis on the slave's code: it starts a transfer only when the xmit_locked of its
  // previous post has cleared is_listening and sent its signal.
  predicate Polite(s: State, a: Action) {
    a.SlaveBegin? ==> !s.slave.listening && s.mt.pc != MXmit(Signal)
  }

  predicate Step(s: State, a: Action, t: State) {
    Enabled(s, a) && t == Next(s, a)
  }

  // A run: states[i + 1] follows states[i] by acts[i]. In a polite run every step is polite.
  ghost predicate IsRun(states: seq<State>, acts: seq<Action>, polite: bool) {
    && |states| == |acts| + 1
    && states[0] == INITIAL
    && (forall i {:trigger acts[i]} :: 0 <= i < |acts| ==> Step(states[i], acts[i], states[i + 1]))
    && (polite ==> forall i {:trigger acts[i]} :: 0 <= i < |acts| ==> Polite(states[i], acts[i]))
  }

  lemma Extend(states: seq<State>, acts: seq<Action>, polite: bool, a: Action)
    requires IsRun(states, acts, polite)
    requires Enabled(states[|acts|], a) && (polite ==> Polite(states[|acts|], a))
    ensures IsRun(states + [Next(states[|acts|], a)], acts + [a], polite)
  {
  }
}
