# hwmocker, verified

A Dafny model of hwmocker: a host and a SoC (two processing units) joined by pin-to-pin wires, an
SPI link, and signal-driven interrupts. `dafny verify dfyconfig.toml` checks all of it.

| module | what it holds |
|---|---|
| `Board` | the wiring as plain values: neighbour lists, kinds and levels of the pins; connections, conversions and level changes on it, and whole runs of them |
| `Connections` | the strings of `host-soc-pin-connections`: what an entry means, what the list means |
| `Pins`, `SpiDevices`, `ProcessingUnits`, `Systems` | the objects and their in-place updates; `Systems` proves that the pointer graph is always the `Board` that the calls so far lead to |
| `SpiProtocol`, `SpiInvariant`, `SpiTheorems`, `SpiBlocking`, `SpiCalls` | the transfer protocol between the slave's thread and the master's thread, one field access or lock operation a step, in every interleaving |
| `SpiMemory` | the same protocol over a memory: which bytes a transfer leaves, while both programs write |
| `SpiCallbackSteps` | the callbacks of asynchronous slave transfers in the same field steps, with the interrupt handler between any two of them |
| `SpiCallbacks` | the callbacks together with their signals, for posts that are single steps |
| `Interrupts` | raise, signal and the walk over the pending set as separate steps |
| `EndToEnd` | from the calls on the objects to the handlers of the interrupts they raise |
| `Gates` | the ready gates |

## What the model assumes

- Pin indices are distinct within a unit. `get_pin` and `set_gpio_irq` take the first match, so a
  configuration with repeated indices hides pins.
- Calls that touch the pin graph are atomic, since the code has no lock for them. Steps of threads
  are sequentially consistent.
- Each SPI device is used by one thread. One hypothesis about the slave's code, named `Polite`, says
  that it starts a transfer only when `xmit_locked` of its previous post has cleared `is_listening` and
  sent its signal. Results that do not need it are stated for all runs (parameter `polite`).
- `spi_irq_handler` is one step: the signal handler runs on the unit's own thread, between two of its
  steps, and the other unit's thread does not touch the two callback fields.
- `SpiCallbacks` takes a post as one step, so it leaves out the window in which `async_xfer` has
  published its post and not yet stored the callback and the context. `SpiCallbackSteps` has it.
- `SpiMemory`: nobody writes to the buffers of a listening slave or of a master's call in progress, and
  the buffers of one `memcpy` exist and do not overlap.
- Mutexes used as gates are binary semaphores: the constructor locks `ready_mutex` and another
  thread may unlock it.
- The interrupt signal is `SIGRTMIN+3` (`cmake/config.cmake:9`), which queues. Signals are a count,
  and every step that sends one may also merge it into one that is outstanding, so the results hold
  for both kinds of signal.

## What the code does that a reader may not expect

The model keeps these as they are, and each is stated exactly.

- `pending_irqs` is never emptied and `handle` does not look at `enabled()`. Each delivery reruns every
  interrupt ever accepted: `Interrupts.ExactHandleCount` gives the number of runs,
  `Interrupts.HandledExactlyOnce` says when it is one. A callback can therefore run before its
  transfer; `SpiCallbacks.EarlyCallback` says when.
- `wait_xfer_done` waits once without a predicate, and never unlocks `cond_mutex`. A slave's
  `sync_xfer` whose signal is sent before its wait never returns (`SpiBlocking.SignalDecides`,
  `SpiBlocking.SignalCanBeLost`), and at most one `sync_xfer` of a slave ever returns
  (`SpiBlocking.SyncReturnsAtMostOnce`).
- `async_xfer` sets `is_listening` before it stores the callback, and the callback before the context,
  so a transfer may complete and raise its interrupt in between (`SpiBlocking.CallbackCanComeTooLate`,
  `SpiCallbackSteps.ContextCanComeTooLate`). A handler run calls the callback if and only if it is
  stored by then (`SpiCallbackSteps.HandlerCallsStored`), and with its own context if and only if the
  thread is not between the two stores, or what an earlier post left in the field is the same
  (`SpiCallbackSteps.HandlerCallsOwnContext`).
- A master's `sync_xfer` returns the requested size even if nothing was moved; its `async_xfer` without
  a listener makes a post that nothing serves (`SpiBlocking.MasterPostNeverServed`).
- A master that sends and receives in one buffer sends back what it has just received
  (`SpiDevices.FullDuplex`).
- `set_gpio_irq` lowers the pin. A connection with a number above the range of `int` makes `stoi`
  throw out of `load_config`, after the entries before it have been wired (`Connections.LoadStops`).
- The second half of the SPI pairing is inside an `assert`, so a build with `NDEBUG` would pair only
  the host's side. The model is of a build without it.

## Model

| member | source | states |
|---|---|---|
| Systems.System.constructor | src/system/System.cpp:56-67 | the two units as configured refine the initial board: no wires, all levels low, nothing raised; each unit's SPI device has the role, index and pins of its own configuration, on its own controller, with its interrupt disabled |
| Systems.System.GraphHolds | src/system/System.cpp:69-93 | after any history of connections, conversions and level changes the pointer graph is symmetric, free of doubles and loops, every edge joins the two units, and every pointer leads to a pin that a unit still owns |
| Systems.System.OwnsConfiguredPins | src/processingunit/ProcessingUnit.cpp:106-124 | after any history a unit owns a pin of exactly the configured indices, so lookups resolve the same indices for ever |
| Systems.System.LoadConnections | src/system/System.cpp:69-93 | the connection loop on the objects does to the graph exactly what the list of strings means on the board, and throws exactly when that does |
| Systems.System.ConnectPins | src/system/System.cpp:75-90 | one entry links the two pins in both directions if both exist, and changes nothing otherwise |
| Systems.System.SetGpioIrq | src/processingunit/ProcessingUnit.cpp:126-146 | refines the conversion of one index on the board; succeeds exactly on a configured plain GPIO not converted yet; a failing call changes nothing |
| Systems.System.SetGpioValue | src/processingunit/ProcessingUnit.cpp:148-157 | refines the level change on the board; the interrupts raised are those of the pins the board says, in that order, all on the other unit's controller, and nothing on the own controller; over the whole history each controller has recorded what the level changes raise on the board |
| Systems.ConvertRefines | src/gpio/GpioIrq.cpp:13-21 | the graph with the new pin in the place of the old one is the board with only that index's kind and level changed |
| Systems.LinkRefines | src/system/System.cpp:86-90 | appending each pin to the other's vector is linking the two indices on the board |
| Systems.ValueRefines | include/Gpio.hpp:55-60 | setting a pin and its pointed-to neighbours is setting one index on the board |
| Systems.GraphOfBoard | src/gpio/GpioIrq.cpp:15-18 | every well wired board makes a pointer graph on which the unchecked search of a conversion succeeds |
| Systems.RaisedIds | include/GpioIrq.hpp:77-80 | the objects raised by a level change are, in order, the indices the board says are raised |
| Systems.System.PairSpi | src/system/System.cpp:95-106 | the assertion in the pairing loops cannot fail; each device ends with the last device it is wired to, and devices that are each other's only partner end linked to each other |
| Systems.System.SpiCheckOnBoard | src/spi/SpiDevice.cpp:60-95 | the check of `set_remote` on the pointers is a condition on the three wires of the board |
| Systems.OnePartnerIsLinked | src/system/System.cpp:97-105 | a device that is wired to one remote of the list ends linked to it |
| Pins.Pin.GpioIrq | src/gpio/GpioIrq.cpp:13-21 | the replacement is an exact renaming: the search always succeeds, every vector keeps its order with the new pin for the old one, the new pin has the old list, and nothing refers to the old pin any more |
| Pins.Pin.Connect | src/pin/Pin.cpp:11-20 | appends the pin unless it is null or there already |
| Pins.Pin.OnChange | include/GpioIrq.hpp:77-80 | the pin takes the value and goes no further; an interrupt GPIO is raised once on its own controller, a plain one is not |
| Pins.Pin.Change | include/Pin.hpp:63-66 | each direct neighbour takes the value and each interrupt GPIO among them is raised once for its wire, in order; nothing else changes |
| Pins.Pin.SetValue | include/Gpio.hpp:55-60 | the pin and its direct neighbours take the value, and propagation stops there on any graph |
| Pins.IrqController.LocalRaise | src/irq/IrqController.cpp:99-105 | an enabled interrupt is inserted and signalled once; a disabled one leaves no trace |
| Pins.IrqController.Handle | src/irq/IrqController.cpp:117-125 | each pending interrupt is handled exactly once in a walk, and all stay pending |
| ProcessingUnits.ProcessingUnit.constructor | src/processingunit/ProcessingUnit.cpp:85-104 | one unconnected low pin for each configured number, and no others; exactly one SPI device if there is an `spi` entry, with its role, index and four pins (src/spi/SpiDevice.cpp:48-58), raising on the unit's own controller |
| ProcessingUnits.ProcessingUnit.GetPin | src/processingunit/ProcessingUnit.cpp:106-124 | finds the owned pin of the index, and null exactly if there is none |
| ProcessingUnits.ProcessingUnit.SetGpioIrq | src/processingunit/ProcessingUnit.cpp:126-146 | moves the index from the plain to the interrupt GPIOs and renames it in the whole graph; the two vectors and the SPI pins still partition what the unit owns; a failing call changes nothing |
| ProcessingUnits.ProcessingUnit.SetGpioValue | src/processingunit/ProcessingUnit.cpp:148-157 | the levels of all pins and the raises of all controllers after the call, GPIOs of both kinds found and SPI pins not |
| Board.LinkWires | src/pin/Pin.cpp:11-20 | a link adds its one wire, seen from both ends, and no other |
| Board.LevelIsLastWritten | include/Pin.hpp:63-66 | after any run of calls the level of a pin is the one written by the last level change of it or of a pin wired to it then, or false by its conversion, and otherwise as before: no level travels further than one wire |
| Board.RaisesExactly | include/GpioIrq.hpp:77-80 | a level change raises each wired interrupt GPIO exactly once and nothing else, all on the other unit |
| Board.ConversionsCommute | src/processingunit/ProcessingUnit.cpp:126-146 | converting two pins, the ends of a wire among them, gives the same board in either order |
| Board.RunKeepsWellWired | src/system/System.cpp:69-93 | every run of calls keeps the wiring symmetric, free of doubles and across the units, and the set of indices as it is |
| Board.RunWires | src/system/System.cpp:69-93 | two indices are wired after a run exactly if they were before or a connection of the run names them; conversions and level changes make no difference |
| Board.NeighboursInOrder | src/pin/Pin.cpp:11-20 | neighbours stay in the order of connection: a pin's list at any moment of a run is the front of its list at the end |
| Board.ConvertedByFirst | src/processingunit/ProcessingUnit.cpp:126-146 | in any run an index is converted at most once, by the first call that names it, whose handler it keeps; no other kind ever changes |
| Board.SpiPairingIsMutual | src/spi/SpiDevice.cpp:60-95 | on every board that calls can build the pairing check succeeds in both directions or in neither, and no later conversion or level change alters it |
| Connections.ParseMeaning | src/system/System.cpp:70-76 | an entry names two pins exactly if it spells, digits:digits as a whole, two values within int range; it throws exactly if it spells a larger one |
| Connections.EveryWireCanBeWritten | src/system/System.cpp:70-76 | the decimal spelling of any two indices within int range is read back as those indices |
| Connections.DigitIs | src/system/System.cpp:70-73 | a digit is one of 0123456789 |
| Connections.ReadThenShow | src/system/System.cpp:75-76 | any string of digits is the decimal spelling of the value read from it, after some zeros |
| Connections.ConfigurationMeaning | src/system/System.cpp:69-93 | without an entry out of range two pins are wired after the loop exactly if they were before or some entry names them and both exist |
| Connections.OrderDoesNotMatter | src/system/System.cpp:69-93 | as neighbour sets the result does not depend on the order or repetition of the entries |
| Connections.LoadKeepsPins | src/system/System.cpp:69-93 | the loop throws exactly if some entry is out of range, and changes nothing but wires |
| Connections.LoadStops | src/system/System.cpp:75-76 | with an entry out of range the wiring is what the entries before the first such entry mean |
| Connections.LoadRunsCommands | src/system/System.cpp:69-93 | the loop is a run of link commands, so what holds of all runs holds of all configurations |
| SpiDevices.SpiDevice.GetPin | include/SpiDevice.hpp:84-94 | finds the device's pin of the index, and null exactly if none of the four has it |
| SpiDevices.Memcpy | src/spi/SpiDevice.cpp:160-163 | the first n bytes of the target are those of the source, the tail is kept |
| SpiDevices.SpiDevice.SetRemote | src/spi/SpiDevice.cpp:60-95 | succeeds exactly if the mosi, miso and clk pins are all connected, and stores the remote exactly then |
| SpiDevices.SpiDevice.XmitLocked | src/spi/SpiDevice.cpp:155-180 | both buffers afterwards, null and shared buffers included, the size field (the smaller of the two sizes), the completed post, and one raise if the interrupt is enabled |
| SpiDevices.SpiDevice.MasterSyncXfer | src/spi/SpiDevice.cpp:102-114 | transfers exactly if the remote listens, touches nothing of it otherwise, and returns the requested size as an int in both cases |
| SpiDevices.SpiDevice.AsyncXfer | src/spi/SpiDevice.cpp:130-153 | refusal, immediate transfer with its callback, or post, and what each leaves on both devices |
| SpiDevices.SpiDevice.SpiIrqHandler | src/spi/SpiDevice.cpp:36-46 | the stored callback with its context is handed out once, the fields being cleared before the call |
| SpiDevices.FullDuplex | src/spi/SpiDevice.cpp:158-163 | each side gets the first n bytes of the other's tx buffer and keeps its own tail, also when the slave uses one buffer for both; a master that uses one buffer for both gets its bytes across exactly if the slave sends nothing or the same bytes |
| SpiInvariant.InvAlways | src/spi/SpiDevice.cpp:102-180 | the ownership invariant holds in every state of every polite run |
| SpiTheorems.HandoffOwnsOnePost | src/spi/SpiDevice.cpp:155-163 | while the master copies, the slave's rx, tx and size are those of one fully published post, the copy uses exactly them, and the slave's thread is not writing them |
| SpiTheorems.ListeningSlaveLeavesPost | src/spi/SpiDevice.cpp:116-120 | only a step of the master's thread changes the post of a listening slave |
| SpiTheorems.MasterTouchesOnlyListeners | src/spi/SpiDevice.cpp:165-169 | the master's thread changes none of the posted fields once `is_listening` is cleared |
| SpiMemory.TransferIsTwoCopies | src/spi/SpiDevice.cpp:158-163 | when a transfer completes, in any interleaving, every byte of the buffers of both calls is what the two copies in this order make of the slave's bytes as published and the master's as at its call, however the buffers lie |
| SpiMemory.BytesExchanged | src/spi/SpiDevice.cpp:155-169 | in any interleaving, for separate buffers: the master's rx gets the first bytes of the slave's tx and the slave's rx those of the master's tx, the minimum of both sizes, and both tails stay; one slave buffer for both directions is allowed |
| SpiTheorems.ServedExactlyOnce | src/spi/SpiDevice.cpp:165-169 | exactly one `xmit_locked` completes each served post, and none an outstanding one |
| SpiTheorems.AllButLastServed | src/spi/SpiDevice.cpp:155-169 | every post but an outstanding last one was served by a transfer of the minimum of both sizes between the buffers of that post and of one master call |
| SpiTheorems.ServedIsFinal | src/spi/SpiDevice.cpp:165-169 | what a transfer recorded for a post no later step changes |
| SpiTheorems.ServedSlaveHoldsNoBuffer | src/spi/SpiDevice.cpp:165-168 | once its post is served and until it prepares the next one a slave keeps no buffer address, and its size field is the count moved |
| SpiTheorems.SyncReturnsMinimum | src/spi/SpiDevice.cpp:116-120 | when a slave's `sync_xfer` returns, exactly one `xmit_locked` has completed its post and the value is the smaller of the two sizes as an int, whatever the master has called since |
| SpiTheorems.SyncReturnIsPolite | src/spi/SpiDevice.cpp:116-120 | after `sync_xfer` any next transfer of the slave can begin at once and meets `Polite`, without a look at `is_listening` |
| SpiTheorems.ToIntExact | src/spi/SpiDevice.cpp:113-120 | the returned int is the count exactly for counts below 2^31, and wraps beyond |
| SpiTheorems.MasterInvAlways | src/spi/SpiDevice.cpp:102-153 | in every run, polite or not, the master holds the lock where the code says, and a slave that it has seen listening still is |
| SpiCalls.SyncCallOutcome | src/spi/SpiDevice.cpp:102-114 | a finished synchronous master call, in every polite run: if its test found a listener the outstanding post is served with this call's arguments and signalled and raised once, otherwise no post was served; buffers and lock are released |
| SpiCalls.AsyncCallOutcome | src/spi/SpiDevice.cpp:130-153 | a finished asynchronous master call: a listener found by the first test has been served with this call's arguments; without one the call is a post on the own device with all its arguments |
| SpiCalls.AsyncTestDecides | src/spi/SpiDevice.cpp:135-141 | in every run the first test leads to the transfer if and only if the slave is listening |
| SpiCalls.RefusedExactly | src/spi/SpiDevice.cpp:132-133 | a call is refused, and changes nothing, exactly if it is asynchronous and the last switch of the device's interrupt disabled it |
| SpiCalls.SlaveCallOutcome | src/spi/SpiDevice.cpp:116-152 | a finished slave call has published exactly one post, with its arguments, has returned once if synchronous, and holds no lock |
| SpiCalls.SlaveLockAlways | src/spi/SpiDevice.cpp:143-152 | in every run the slave's thread holds the master's mutex exactly from its first field to the unlock |
| SpiCalls.SlaveBlocksOnlyInWait | src/spi/SpiDevice.cpp:182-198 | in every reachable state the slave's thread can go on unless it waits without a signal or wants to wait after a `sync_xfer` has returned |
| SpiCalls.SlaveReturnsInBoundedSteps | src/spi/SpiDevice.cpp:130-153 | a slave call takes at most 12 steps of its own, so an asynchronous one always returns |
| SpiCalls.PendingExactly | src/spi/SpiDevice.cpp:178-179 | the slave's interrupt is pending exactly if some transfer has raised it while the last switch had enabled it |
| SpiBlocking.MasterNeverBlocks | src/spi/SpiDevice.cpp:102-141 | in every reachable state the master's thread can take its next step |
| SpiBlocking.MasterReturnsInBoundedSteps | src/spi/SpiDevice.cpp:102-141 | a master call of n bytes takes at most 22 + 2n steps of its own, whatever the slave does |
| SpiBlocking.AsyncTestSticks | src/spi/SpiDevice.cpp:135-137 | a true `is_listening` seen in `async_xfer` is still true when `sync_xfer` tests it |
| SpiBlocking.MasterPostNeverServed | src/spi/SpiDevice.cpp:143-152 | the post of a master without a listener stays outstanding for ever |
| SpiBlocking.SyncReturnsAtMostOnce | src/spi/SpiDevice.cpp:182-198 | at most one `sync_xfer` of a slave ever returns, and a later one is stuck at `cond_mutex` |
| SpiBlocking.SignalDecides | src/spi/SpiDevice.cpp:170-198 | a slave whose post is served goes on if and only if it is already waiting when the signal is sent; otherwise it never returns in any continuation |
| SpiBlocking.DoomedForever | src/spi/SpiDevice.cpp:182-198 | a slave whose post is served and whose signal is gone stays in `sync_xfer` in every continuation, whatever the master calls |
| SpiBlocking.SignalCanBeLost | src/spi/SpiDevice.cpp:182-198 | a reachable state in which a served slave waits for ever |
| SpiBlocking.CallbackCanComeTooLate | src/spi/SpiDevice.cpp:148-150 | a reachable state in which a transfer is about to raise and its callback is not stored yet |
| SpiBlocking.RudeSlaveReturnsEarly | src/spi/SpiDevice.cpp:169-170 | without `Polite` a slave can return from `sync_xfer` with its post outstanding |
| SpiCallbackSteps.CallbackInvAlways | src/spi/SpiDevice.cpp:36-46 | in every run the stored callback and context belong to one asynchronous post, except between the two stores, and every call made was of a post's own callback |
| SpiCallbackSteps.CallbackAccounts | src/spi/SpiDevice.cpp:36-46 | in every run, with handler runs between any two steps, the callback of a published post is still to be stored, or stored, or was called, or was overwritten: exactly one of these, once |
| SpiCallbackSteps.CalledAtMostOnce | src/spi/SpiDevice.cpp:36-46 | no callback is called twice, a post without one calls nothing, and every call is of a post's own callback with its own context, an earlier post's or null |
| SpiCallbackSteps.HandlerCallsOwnContext | src/spi/SpiDevice.cpp:149-150 | a handler run calls with the post's own context if and only if the thread is not between the two stores of that post, or the stale context is the same |
| SpiCallbackSteps.HandlerCallsStored | src/spi/SpiDevice.cpp:148-149 | a handler run leaves the callback of a published post called exactly once or overwritten if and only if the thread has stored it by then |
| SpiCallbackSteps.RaiseFindsCallback | src/spi/SpiDevice.cpp:155-180 | when a transfer raises, the callback of the post it served is stored, called or overwritten if and only if the thread is past its store |
| SpiCallbackSteps.ContextCanComeTooLate | src/spi/SpiDevice.cpp:149-150 | a reachable state in which the handler would call a callback with a null context |
| SpiCallbacks.InvAlways | src/spi/SpiDevice.cpp:130-180 | with posts as single steps: in every state of every run each post's callback is held, or was called, or was overwritten: exactly one of these if it has one, none otherwise |
| SpiCallbacks.CallbackAtMostOnce | src/spi/SpiDevice.cpp:36-46 | with posts as single steps: in every run a post's callback runs at most once, only with its own function and context |
| SpiCallbacks.TransferRaises | src/spi/SpiDevice.cpp:165-179 | with posts as single steps: a transfer completes the last post, and raises the interrupt, for a signal to follow, if and only if the last switch enabled it |
| SpiCallbacks.PostIsMade | src/spi/SpiDevice.cpp:130-152 | with posts as single steps: a post is made with its arguments, unless it is asynchronous and the last switch disabled the interrupt |
| SpiCallbacks.RaisedExactly | src/spi/SpiDevice.cpp:178-179 | with posts as single steps: a raise is recorded for a post exactly if its transfer was made with the interrupt enabled |
| SpiCallbacks.AcceptedExactly | src/irq/IrqController.cpp:99-105 | with posts as single steps: the interrupt is pending exactly if some transfer was made with it enabled |
| SpiCallbacks.CallbackExactlyOnce | src/spi/SpiDevice.cpp:36-46 | with posts as single steps: once the signals are delivered, the callback of a post whose transfer was made with the interrupt enabled has run exactly once if and only if no asynchronous post was made while it was stored |
| SpiCallbacks.DeliveryCallsBack | src/spi/SpiDevice.cpp:36-46 | with posts as single steps: after any transfer made with the interrupt enabled, one delivery is enough for that, even if the callback posts again |
| SpiCallbacks.CallbackGoesOn | src/spi/SpiDevice.cpp:155-180 | with posts as single steps: a listening slave can be served, and a stored callback whose transfer raised has its signal to be sent or delivered |
| SpiCallbacks.SignallingProgresses | src/irq/IrqController.cpp:99-132 | sending and delivering signals comes to an end, at quiescence |
| SpiCallbacks.SignalsAreConserved | src/irq/IrqController.cpp:86-105 | the signals outstanding are those sent and not merged less those delivered |
| SpiCallbacks.CallbackCanBeCalled | src/spi/SpiDevice.cpp:36-46 | a polite run in which a callback is called with its context after its transfer |
| SpiCallbacks.LostIsOverwritten | src/spi/SpiDevice.cpp:149-150 | with posts as single steps: a callback is lost exactly if some asynchronous post of the run was made, with the interrupt enabled, while it was stored; posts from inside callbacks lose none |
| SpiCallbacks.PostInsideCallbackIsKept | src/spi/SpiDevice.cpp:39-43 | with posts as single steps: the callback of a post made from inside a callback has run exactly once from the next delivery on, if and only if no later post was made while it was stored |
| SpiCallbacks.EarlyCallback | src/irq/IrqController.cpp:117-125 | with posts as single steps: a delivery runs a callback before its transfer if and only if the transfer of an earlier post was made with the interrupt enabled and the post is still outstanding |
| Interrupts.NextIrq | src/irq/IrqController.cpp:121-123 | the next interrupt of a walk is the least pending address after the current one |
| Interrupts.DeliveryInvariant | src/irq/IrqController.cpp:99-132 | in every state of every run no accepted raise is lost and only accepted interrupts are pending or handled |
| Interrupts.NoLostInterrupt | src/irq/IrqController.cpp:99-132 | every accepted raise has been handled since, or is between insertion and signal, or signalled, or ahead in the walk; at quiescence it has been handled |
| Interrupts.NothingSpurious | src/irq/IrqController.cpp:99-132 | a handler runs only after its interrupt was accepted |
| Interrupts.AcceptsExactly | src/irq/IrqController.cpp:99-105 | a step accepts an interrupt, and leaves its thread with a signal to send, if and only if it is a raise of it and the last action on its enable flag enabled it |
| Interrupts.PendingExactly | src/irq/IrqController.cpp:99-105 | pending are exactly the interrupts raised while enabled |
| Interrupts.DisabledNeverHandled | src/irq/IrqController.cpp:100-101 | an interrupt never raised while enabled is never pending and its handler never runs |
| Interrupts.DeliveryGoesOn | src/irq/IrqController.cpp:117-132 | a controller that is not quiescent always has a delivering step |
| Interrupts.DeliveryEnds | src/irq/IrqController.cpp:117-132 | without further raises at most a computed number of delivering steps lie ahead, and after that many the controller is quiescent |
| Interrupts.SignalsAreConserved | src/irq/IrqController.cpp:86-105 | the signals outstanding are those sent and not merged less those delivered |
| Interrupts.RaiseIsHandled | src/irq/IrqController.cpp:99-132 | a run in which an interrupt is raised, signalled, walked to and handled, once |
| Interrupts.ExactHandleCount | src/irq/IrqController.cpp:117-125 | how often a handler has run since a raise: once for every walk started since, and once more for a walk that had not reached it |
| Interrupts.HandledExactlyOnce | src/irq/IrqController.cpp:117-125 | at quiescence a raise between walks was handled exactly once if and only if exactly one walk was started since |
| EndToEnd.RaisedThenHandled | src/irq/IrqController.cpp:99-132 | every enabled raise between two points of a run is handled between them if the second is quiescent |
| EndToEnd.GpioInterruptEndToEnd | include/GpioIrq.hpp:77-80 | after any history of calls, in any run of a controller that accepts what its object has recorded as raised: at quiescence every level change of the history has made a raise for every interrupt GPIO wired to its pin at that moment, and the handler has run since that raise |
| EndToEnd.OnlyRaisedAreHandled | src/irq/IrqController.cpp:99-132 | in such a run a GPIO's handler runs only if some level change of the history has raised it |
| Gates.PassesNeverExceedSets | src/processingunit/ProcessingUnit.cpp:205-224 | in every interleaving the returns of `wait_ready` on a unit never exceed its earlier `set_ready` calls |
| Gates.MeetingAlways | src/processingunit/ProcessingUnit.cpp:205-224 | in every interleaving of the rendezvous a gate is open exactly between its unit's `set_ready` and the other's return from `wait_ready` |
| Gates.Rendezvous | src/processingunit/ProcessingUnit.cpp:205-224 | when both units set ready and then wait for each other, neither passes before both are ready, nobody deadlocks, and both are through after four steps |

## Left out

- `src/irq/irq.cpp`: it is not in the build.
- JSON and configuration files, the regular expression engine, printing, stack traces, the C wrappers: input and output. The model starts from a parsed configuration and a list of strings.
- The width of pin indices: they are natural numbers; a negative index of `gpio-pins`, which wraps to a large unsigned one, is not modelled.
- The value returned by `IrqController::handle`, which starts uninitialised, and `allirqs_enabled`, which gates nothing. `enableIrqs` is the step `Resignal`.
- `dest_raise`, `interrupt_dest` and `dest_controller`: no caller in the library.
- Raises made before `IrqController::start` has stored its thread: they signal an uninitialised thread id.
- Thread creation, joining and destruction, the start gate, `stop`, the main functions; failures of allocation and of pthread calls.
- Weak memory, torn words, data races on `std::set` and `std::vector`, spurious wakeups.
- Two masters or two slaves on one link, several threads on one device, transfers started from handlers on the master's side.
- Copies with a null or overlapping buffer: `memcpy` is undefined there. In `SpiDevices` a buffer is one whole array; in `SpiMemory` it is any range of addresses.
- The electrical side of SPI: levels of the SPI pins carry no data in the code either.
- Pins.IrqController.Handle: walks in an arbitrary order and without insertions meanwhile; address order and interleaving are in `Interrupts`.
- SpiDevices.SpiDevice.XmitLocked: runs without interleaving, does not model the condition signal, and takes the controller as given, which a processing unit always passes; threads and signal are in `SpiProtocol`, bytes under interleaving in `SpiMemory`.
- Systems.System.constructor: asks for distinct pin indices in each unit, since lookups take the first match and the later pin of two with one index could never be named.
- ProcessingUnits.ProcessingUnit.constructor: asks for distinct pin indices, for the same reason.
- Callbacks that post while their unit's thread is inside another transfer: the handler would wait for a lock that its own thread may hold. At field steps a post from inside a callback is a post of the idle slave after the handler.
- SpiBlocking.SignalDecides: says when the slave's `sync_xfer` can go on; that a scheduler lets it is not modelled.
- EndToEnd.GpioInterruptEndToEnd: that a run of `Interrupts` accepts what the object has recorded, in that order, is the hypothesis in which the two models meet.
