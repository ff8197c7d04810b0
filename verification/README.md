# Verified model of libkprintf and of the PSP debug console

`libkprintf` catches the PSP kernel's `Kprintf` output. Producers run with interrupts off: they
format a message, take a block from a bounded pool, append it to a singly linked list and raise
`EV_FLUSH`. One event thread waits for that flag, takes a binary semaphore and walks the list with
interrupts on, offering every message to a chain of user handlers before it unlinks and frees it.
Registering and unregistering handlers race with the flush through the semaphore, and `_stop` races
with everything. Beside it stand two debug libraries: a text console that draws overlapping glyphs
into the frame buffer, and a small log dispatcher.

| file | models |
|---|---|
| `Protocol.dfy` | the pipeline as a step relation; the event thread is cut at every point where interrupts can intervene |
| `ProtocolInvariants.dfy` | the invariants every step keeps |
| `ProtocolTheorems.dfy` | safety over all runs: delivery, registry, pool, shutdown |
| `ProtocolFlush.dfy` | how long a flush can take and what it reaches |
| `ProtocolBuffers.dfy` | the message buffers along the handler chain |
| `ProtocolLiveness.dfy` | what can always still happen: the queue drains, `_stop` is acknowledged, and exactly when not |
| `MessageList.dfy` | `msg.c` and `kprintf_handler` over real nodes, each refining a step's queue operation |
| `FlushLoop.dfy` | `flush_messages` and `invoke_handlers` over real nodes, with other threads in every interrupt window |
| `EventLoop.dfy`, `HandlerCalls.dfy`, `Shutdown.dfy` | one turn of the event thread's loop, registering and unregistering, and `_stop`, in the same way |
| `MsgBuffer.dfy` | the message buffer: what `new_msg` writes, what the default handler does to it |
| `Registry.dfy` | the handler registry against a partial map with an optional default |
| `Startup.dfy` | `init` and its rollback |
| `Console.dfy`, `Pixels.dfy`, `Screen.dfy` | the console: its state as a value, single pixels, the object in place |
| `Bounds.dfy` | which texts keep the cursor in its row and every pixel written in the array |
| `TextGrid.dfy`, `LineRendering.dfy` | what the screen shows: a grid of characters, and one line pixel by pixel |
| `KernelPrint.dfy` | the buffered character callback in front of the console |
| `LogRegistry.dfy` | the log dispatcher |
| `Base.dfy` | shared types |

The size of the formatting buffer, the size of the pool and the numbers of handlers are parameters. Fixed
are the default handler's automatic newline (`KPRINTF_DH_AUTO_NEWLINE` on; without it that handler changes
nothing), `PRNT_CTX_BUFSZ` at 256 and `LOG_VSNPRINTF_BUFSZ` at 512, the values the source falls back to.

## Where the code does not do what it is for

Each of these is a lemma with the exact condition under which the code does meet its purpose, or with
a concrete input or run where it does not.

- Shutdown: `_stop` can be told `EV_STOP_OK` while accepted messages are still queued, if the event
  thread's last semaphore wait fails; in `ShutdownCanLoseMessages` a registry caller holds the semaphore
  then. It drains the queue exactly when that wait succeeded or nothing was queued
  (`ShutdownDrainsExactly`).
- While `_stop` waits it can still be acknowledged exactly when the event thread has left its start-up
  loop (`StopAcknowledgedExactly`), because that loop tests for `STATE_STARTED` only. A reachable run in
  which it waits in vain is `StopAtOnceIsNotAcknowledged`.
- What is queued can still reach the handlers exactly unless the event thread has given up its last flush
  or was stopped before it started (`QueueDrainsExactly`; such a run is `MessageStaysQueued`).
- `init` tests for identifiers greater than 0 when it cleans up, so an object numbered 0 would stay
  alive: exactly when in `RollbackExactly`, an input in `RollbackOverlooksZero`.
- `new_msg` copies with `strncpy`, so text after an embedded NUL is lost (`StrncpyExact`,
  `StrncpyLosesText`), and its 16-bit `len` and `size` are truthful exactly while the capacity is below
  65536 (`NewBufOk`, `NewBufLosesSize`).
- `default_file_handler` reads the last byte of the text and writes two bytes beyond it. If callers'
  handlers keep two spare bytes it always stays in its buffer (`BuffersSafe`), but `kprintf.h` asks them
  for no more than the capacity. Then, over every run, it does so exactly when each of its calls finds a
  text that is not empty and ends its line or leaves a byte beside the terminator
  (`DefaultStaysInBoundsExactly`; for one call also `DefaultInBoundsExactly`). A run in which a handler
  that fills its buffer, or empties it, makes the default handler leave the buffer is `DefaultCanOverrun`.
- A tab advances the cursor by four columns without a wrap. The column stays on the screen exactly when
  every tab is met left of column 64 (`ColumnStaysExactly`). Printing writes outside the frame buffer
  exactly when some glyph does not fit where the 16-bit cursor takes it, for every text, cursor, font and
  flags (`PrintLeavesExactly`). Two tabs on the last row are enough (`TabsCanLeaveTheArray`), and past the
  last column the cursor no longer wraps, so a long text leaves the array from any row (`OvershotTextFits`).
- `scr_clearline` ignores its argument and clears the row of the cursor. The row it was asked for is clear
  afterwards exactly when it was before, or is the cursor's row and the flags allow it
  (`ClearLineExactly`; an input where it is not: `ClearLineMissesRow`). `scr_clear` calls it for every row;
  that loop has no effect on the outcome (`DebugScreen.Clear`).
- `log_flush` is bounded by the number of handlers instead of the array, and unregistering leaves `flush`
  set. It calls what it should exactly when `FlushesInReach` holds (`FlushReachesExactly`); when every
  handler has a flush, that is exactly while the registered ones occupy the first slots
  (`FlushNeedsPrefix`).

## Assumptions

- A `Kprintf` call is one atomic step: interrupts are off while it runs (README.md:9,
  src/libkprintf/handler.c:162-164). It may happen at any time, also from inside a callback.
- The event wait returns when either bit is set and clears both (sdk/include/threadman_kernel.h:319-322).
  The semaphore starts at 1 and never exceeds 1 (src/libkprintf/startup.c:44); signalling it fails only if
  it would.
- A successful allocation returns a block that is not in use, and only if the free bytes suffice; a
  freed block's bytes become free.
- `vsnprintf` is a parameter: the length it returns and the bytes it wrote, which for a length within
  the buffer are that many (section 7.19.6.12 of ISO/IEC 9899:1999).
- A running callback is one call and one return, with the buffer rewritten at the return; other threads
  may run in between. It may return anything and change the text and its length, but not touch memory
  outside its buffer. `DefaultStaysInBoundsExactly` asks it to keep a terminated text within the
  capacity it is told, and `BuffersSafe` also to keep the two spare bytes it was given.
- Callbacks do not register or unregister handlers, because the semaphore is not recursive.
- `init` is called once, with the slots of the registry still empty (src/libkprintf/globals.c:11).
- Only one `_stop` runs at a time. Its timeout may fire whenever it waits.
- Registration of the default handler at the start of the event thread is one of the registry calls, and
  re-installing the kernel handler is covered because producer calls are allowed in every state.
- The console has `vram_offset` 0 and 32-bit pixels. The font is any table of 2048 bytes in which glyph
  219 is solid (libs/psp/debug/font.c:226).

`FlushLoop.OtherThreads`, `EventLoop.Others`, `HandlerCalls.Others`, `Shutdown.Others` and
`FlushLoop.RunCallback` stand for code that runs elsewhere. Callers rely on their contracts alone, which
allow any sequence of steps of the other threads (within a finite budget during a flush) and any callback
that keeps to its buffer; their bodies are the simplest that meet them. `FlushLoop.ProducerCalls` meets the
contract of `OtherThreads` with a real producer.

## Model

| member | source | states |
|---|---|---|
| ProtocolInvariants.StepKeeps | src/libkprintf/event.c:93-117 | every step of every thread keeps the invariants: distinct queued blocks and exact pool accounting, cursor equal to the head of the list, coverage by a flush, semaphore count, shutdown order, log agreeing with registry, chain of calls, answers |
| ProtocolInvariants.ReachableInv | src/libkprintf/startup.c:53-70 | every state reached from the one init leaves satisfies those invariants |
| ProtocolInvariants.RemoveHeadPopsFront | src/libkprintf/msg.c:49-80 | removal of the message the flush holds is pop-front and returns its whole block to the pool |
| ProtocolInvariants.RemoveAnywhere | src/libkprintf/msg.c:58-76 | removal from any position takes exactly that message out, keeps the order of the others and returns exactly its block; a message that is not queued changes nothing |
| ProtocolTheorems.NoLostWakeUp | src/libkprintf/msg.c:82-94 | in every reachable state each queued message is covered by a pending EV_FLUSH or by the flush in progress, so the event thread never sleeps on a non-empty queue |
| ProtocolTheorems.AppendInTheWindow | src/libkprintf/msg.c:90-92 | a message appended after n was read as NULL is left behind by the loop, and only the producer's flag covers it |
| ProtocolTheorems.WindowIsReached | src/libkprintf/msg.c:90-92 | in every configuration with room for two messages a run reaches that window and ends its flush on a non-empty queue |
| ProtocolTheorems.KprintfResult | src/libkprintf/handler.c:165-188 | a positive result means exactly this message was appended and the flag raised; 0 or an error leaves everything unchanged, and an error is the pool's |
| ProtocolTheorems.KprintfAcceptsExactly | src/libkprintf/handler.c:172-187 | a call is accepted if and only if the library has started, the text is not empty and fits the formatting buffer, and the pool has a block; the result is then its length |
| ProtocolTheorems.ExactlyOnceFifo | src/libkprintf/handler.c:165-188 | over every run, removed messages followed by queued messages are those whose call returned a positive length, each once and in order |
| ProtocolTheorems.EveryMessageRunsItsChain | src/libkprintf/handler.c:25-38 | the callback calls of a run are the chains of the removed messages in order of acceptance, then the started chain of the next one; a chain is the occupied slots in slot order, each call answered by the handler called, ended early exactly by an answer KPRINTF_MSG_STOP |
| ProtocolTheorems.SemaphoreConserved | src/libkprintf/event.c:99-104 | semaphore count plus holders is 1 in every reachable state, so no signal overflows it |
| ProtocolTheorems.RegistryStableDuringFlush | src/libkprintf/event.c:99-104 | from the flush's wait to its signal no step of any thread changes the registry |
| ProtocolTheorems.CallsFollowRegistration | src/libkprintf/handler.c:29-37 | every callback call is preceded by the registration of that very callback in that slot, with no change of the slot in between |
| ProtocolTheorems.NoCallAfterUnregister | src/libkprintf/handler.c:130-160 | after a slot was emptied it is not called before it has been registered again |
| ProtocolTheorems.PoolConserved | src/libkprintf/msg.c:11-25 | free bytes plus the blocks of the queued messages are the pool; with nothing queued all of it is free |
| ProtocolTheorems.NoDanglingCursor | src/libkprintf/msg.c:82-94 | every node the event thread is about to use is the head of the list, never a freed block |
| ProtocolTheorems.NothingBeforeStart | src/libkprintf/handler.c:172-174 | no message is accepted before init has finished |
| ProtocolTheorems.ShutdownIsComplete | src/libkprintf/startup.c:99-115 | if _stop returns through EV_STOP_OK the event thread is gone and, however the run goes on, nothing is queued and no callback is called; if its last wait succeeded, every accepted message was removed after its chain |
| ProtocolTheorems.TerminateComesWithFlush | src/libkprintf/startup.c:106-112 | EV_TERMINATE is pending only with EV_FLUSH and after the state left STARTED, and both are taken by one wait, which leaves neither set |
| ProtocolTheorems.ShutdownDrainsExactly | src/libkprintf/event.c:97-116 | an event thread that took EV_TERMINATE exits with an empty queue if and only if its semaphore wait succeeded or nothing was queued |
| ProtocolTheorems.ShutdownCanLoseMessages | src/libkprintf/event.c:105-116 | a concrete run: while a registry caller holds the semaphore the event thread's wait fails, and _stop is acknowledged with an accepted message still queued |
| ProtocolTheorems.StopBeforeBoot | src/libkprintf/event.c:58-59 | one half of StopAcknowledgedExactly: stopped before the event thread has seen STARTED, in every continuation _stop is never acknowledged and the queue stays |
| ProtocolLiveness.StopAcknowledgedExactly | src/libkprintf/event.c:93-117 | in every reachable state in which _stop waits, some continuation acknowledges it if and only if the event thread has left its start-up loop; then one without failing waits does, leaving nothing queued unless the thread had given up |
| ProtocolLiveness.StopAtOnceIsNotAcknowledged | src/libkprintf/startup.c:99-114 | a concrete run after which no continuation acknowledges _stop |
| ProtocolLiveness.QueueDrainsExactly | src/libkprintf/event.c:93-111 | a non-empty queue of a reachable state can still be emptied if and only if the event thread has neither given up its last flush nor been stopped before it started |
| ProtocolLiveness.QueueCanDrain | src/libkprintf/event.c:93-111 | without producers and failing waits it is emptied in a number of steps bounded by two flushes of it and the moves of the caller that holds the semaphore |
| ProtocolLiveness.DrainIsBounded | src/libkprintf/event.c:93-111 | on every stretch without producers and failing waits, whatever callers and _stop do, the event thread makes no more than the moves of two flushes while anything is queued |
| ProtocolLiveness.NoStarvation | src/libkprintf/msg.c:82-94 | of the messages queued in such a state the first k are removed, in order, within the moves of two flushes of k messages, however many more the producers send meanwhile, as long as no semaphore wait of the event thread fails |
| ProtocolLiveness.MessageStaysQueued | src/libkprintf/startup.c:99-114 | a concrete run, stopped before the event thread has run, after which an accepted message stays queued whatever happens |
| ProtocolTheorems.NeverStuck | src/libkprintf/event.c:93-111 | while messages are queued the event thread, or the caller that holds the semaphore, can move |
| ProtocolFlush.FlushTerminates | src/libkprintf/msg.c:82-94 | on every stretch of a flush, whatever producers and callers do, the moves made are paid for by a measure of the queue that only accepted messages raise |
| ProtocolFlush.FlushIsBounded | src/libkprintf/msg.c:82-94 | one flush removes the messages queued at its start and accepted meanwhile, less those it leaves, in a bounded number of moves for each |
| ProtocolFlush.FlushRemovesCovered | src/libkprintf/msg.c:82-94 | a flush that came to its signal has removed at least every message it was bound to reach, whatever happened meanwhile |
| ProtocolBuffers.BuffersSafe | src/libkprintf/handler.c:90-119 | over every run in which callers' handlers keep their texts terminated in bounds and keep the two spare bytes they were given, every queued text is terminated and inside its block, and the default handler, wherever it sits in the chain, stays in bounds and leaves a finished line |
| ProtocolBuffers.DefaultStaysInBoundsExactly | src/libkprintf/handler.c:105-112 | over every run in which callers' handlers only keep their texts terminated within the capacity, the default handler stays in its buffers if and only if each of its calls finds a text that is not empty and ends its line or leaves a byte beside the terminator; while it does, every queued text is terminated in bounds |
| ProtocolBuffers.DefaultCanOverrun | src/libkprintf/handler.c:105-112 | in every configuration with two handlers, runs in which a caller's handler that fills the buffer to its capacity, or empties it, makes the default handler leave the buffer |
| MsgBuffer.StrncpyExact | src/libkprintf/msg.c:21 | the copy equals the formatted text if and only if no byte follows an embedded NUL |
| MsgBuffer.StrncpyLosesText | src/libkprintf/msg.c:21 | a concrete text whose last byte is lost |
| MsgBuffer.NewBufOk | src/libkprintf/msg.c:11-22 | the new buffer is terminated, inside its block and has 16 bytes to spare if and only if the capacity is below 65536 |
| MsgBuffer.NewBufLosesSize | src/libkprintf/msg.c:19-20 | for every text of 65520 bytes the capacity is 65536 and the size field says 0 |
| MsgBuffer.BlockHoldsBuffer | src/libkprintf/kprintf_int.h:32-44 | the block asked of the pool is 12 bytes and the buffer, which is the text, its terminator, a byte for a newline and 14 to spare, all zero |
| MsgBuffer.DefaultInBoundsExactly | src/libkprintf/handler.c:105-112 | the default handler's accesses lie inside the buffer if and only if the text ends its line or two bytes are to spare |
| MsgBuffer.DefaultFileEndsLine | src/libkprintf/handler.c:105-118 | after the default handler the text ends with a newline, begins with the text it was given, and is still terminated in bounds |
| MsgBuffer.DefaultFileExactly | src/libkprintf/handler.c:106-117 | a text that ends its line comes back unchanged; any other grows by exactly a newline and its terminator, and no other byte changes |
| MsgBuffer.DefaultFileHandler | src/libkprintf/handler.c:90-119 | the code on the buffer in place: nothing changes if the text ends its line, else a newline and a terminator follow it and the length is one more |
| MessageList.CopyText | src/libkprintf/msg.c:21 | the bytes up to the first NUL, then NULs; the rest of the block is untouched |
| MessageList.FillMsg | src/libkprintf/msg.c:11-25 | a fresh node that holds the text in a terminated buffer, in a block of exactly 12 bytes more than that buffer |
| MessageList.Pipeline.NewMsg | src/libkprintf/msg.c:5-26 | an error from the pool is returned and changes nothing; otherwise the pool shrinks by the block of the new node |
| MessageList.Pipeline.AddMsg | src/libkprintf/msg.c:28-46 | on an acyclic chain of distinct nodes the node is appended, and what every other node holds is unchanged |
| MessageList.Pipeline.Search | src/libkprintf/msg.c:60-76 | the loop finds the node and its predecessor, or that the node is not in the list |
| MessageList.Pipeline.RemoveDeleteMsg | src/libkprintf/msg.c:48-80 | exactly that node is removed from any position, the others keep their order, its block is freed once; a node that is not in the list changes nothing |
| MessageList.Pipeline.KprintfHandler | src/libkprintf/handler.c:165-188 | the producer on the heap is the producer step on the queue, with the same result, which is positive exactly when started, the text is not empty and fits, and the pool has a block |
| FlushLoop.InvokeHandlers | src/libkprintf/handler.c:25-38 | the loop over the slots, with other threads in every window, is a run of the step relation; the callbacks that ran are those in the occupied slots, in slot order, and the chain ended early exactly at a callback that returned KPRINTF_MSG_STOP |
| FlushLoop.CriticalSection | src/libkprintf/msg.c:59-78 | unlinking and freeing with interrupts off is one step of the step relation |
| FlushLoop.FlushMessages | src/libkprintf/msg.c:82-94 | the loop ends whatever the other threads do, its execution is a run of the step relation, every callback that ran and its answer are in the chains of the removed messages, nothing is lost, and messages left behind have EV_FLUSH pending |
| FlushLoop.ProducerCalls | src/libkprintf/handler.c:165-188 | a producer on the heap is one of the things that may happen in an interrupt window |
| EventLoop.WaitSema | src/libkprintf/event.c:99-100 | after any steps of the other threads the count is taken, or the wait fails for a reason or because another thread holds it, and the count stays |
| EventLoop.OnFlush | src/libkprintf/event.c:97-111 | what EV_FLUSH makes the thread do is a run of the step relation: a flush between wait and signal, unless the wait fails for a reason or found the semaphore taken, and then the event sent again |
| EventLoop.Turn | src/libkprintf/event.c:93-117 | one turn of the loop is a run back to the wait, or to the thread's end exactly if EV_TERMINATE was taken; EV_FLUSH makes it flush unless its semaphore wait fails; it never goes back to wait with messages and no EV_FLUSH, and leaves none after a last flush |
| Shutdown.Stop | src/libkprintf/startup.c:94-117 | nothing happens unless started; otherwise the library ends up stopped, and if EV_STOP_OK came it was taken, the thread is gone and, its last flush having taken place, nothing is queued |
| Registry.FreeSlotExists | src/libkprintf/handler.c:68-75 | a count below the maximum means a free slot is found, so the second "maximum reached" exit is unreachable |
| Registry.ApplyValid | src/libkprintf/handler.c:51-88 | every call keeps the count equal to the occupied slots and the default index on the one default handler |
| Registry.ApplyRefinesDirectory | src/libkprintf/handler.c:51-88 | one call does to a partial map with an optional default what its documentation says: lowest free index, same index for a repeated default, error codes |
| Registry.RegistryRefinesDirectory | src/libkprintf/handler.c:130-160 | over all call sequences slots, count and default index behave as that partial map, result by result |
| Registry.DefaultRegistrationIsIdempotent | src/libkprintf/handler.c:64-66 | registering the default handler again returns the same index and changes nothing |
| Registry.UnregisterUndoesRegister | src/libkprintf/handler.c:149-155 | unregistering what a registration returned restores the registry |
| Registry.HandlerTable.FindFreeHandlerIndex | src/libkprintf/handler.c:40-49 | the lowest free slot, or -1 when all are in use |
| Registry.HandlerTable.RegisterLocked | src/libkprintf/handler.c:64-83 | the part under the semaphore, in place, is the specified registration with its result |
| Registry.HandlerTable.UnregisterLocked | src/libkprintf/handler.c:141-155 | the part under the semaphore, in place, is the specified removal with its result |
| HandlerCalls.WaitSema | src/libkprintf/handler.c:60-62 | the caller gets the semaphore, or its wait fails for a reason or because another thread holds it |
| HandlerCalls.Locked | src/libkprintf/handler.c:64-83 | changing the registry under the semaphore is one step of the step relation, on the registry as it is at that moment |
| HandlerCalls.RegisterHandler | src/libkprintf/handler.c:51-88 | early exits return their error and do nothing; else the call is a run of the step relation, whatever other threads do, that returns the negative error of a failing wait or the registry's answer in the state in which it held the semaphore; the signal that follows cannot overflow, and the caller is left without the semaphore |
| HandlerCalls.Leave | src/libkprintf/handler.c:85-87 | when a caller signals, the count is 0, so the signal succeeds and the result of the call stands |
| HandlerCalls.UnregisterHandler | src/libkprintf/handler.c:130-160 | the same for a removal |
| Startup.ResultIsFirstError | src/libkprintf/startup.c:36-70 | the result is the answer of the first call that failed, or 0 if none did |
| Startup.CreatedExactly | src/libkprintf/startup.c:36-51 | an object was created exactly if its creation was reached and succeeded |
| Startup.RollbackExactly | src/libkprintf/startup.c:71-83 | a failing init leaves the live kernel objects as they were if and only if no object it created is numbered 0 |
| Startup.RollbackOverlooksZero | src/libkprintf/startup.c:80-81 | a concrete failing init that leaves the pool alive |
| Startup.Library.Init | src/libkprintf/startup.c:23-86 | whichever call fails: its error is returned, the state is STOPPED and only objects numbered 0 remain; on success exactly the four objects are alive and list, pool, event bits, semaphore, registry and state are as in the state every run of the step relation starts from |
| Console.InkSpellsByte | libs/psp/debug/scr.c:402-411 | the ink of a glyph's row, read from left to right, spells its font byte with the most significant bit first |
| Console.PrintAppend | libs/psp/debug/scr.c:478-520 | printing two pieces is printing their concatenation |
| Console.NotReadyUnchanged | libs/psp/debug/scr.c:482-483 | before initialisation printing has no effect |
| Console.RowStaysOnScreen | libs/psp/debug/scr.c:492-516 | the cursor's row stays on the screen for every input |
| Pixels.CellStaysInside | libs/psp/debug/scr.c:388-414 | a glyph at any cell of the screen stays in the pixel array and left of column 477 |
| Pixels.CellPixels | libs/psp/debug/scr.c:388-414 | with any flags, every pixel after drawing a glyph: where its bit is set the foreground, elsewhere in its 8 columns the background or, with the background off, what was there; unchanged outside |
| Pixels.NewLinePixels | libs/psp/debug/scr.c:377-386 | a new line goes to the row below, or the first after the last; with background and line clearing on it clears columns 0 to 476 of that row and nothing else, otherwise no pixel changes |
| Pixels.ClearLineExactly | libs/psp/debug/scr.c:377-386 | for any flags the row scr_clearline was asked for is clear afterwards if and only if it was before, or it is the row of the cursor and the flags allow clearing |
| Pixels.ClearLineMissesRow | libs/psp/debug/scr.c:384-385 | a concrete case: asked for row 1 with the cursor in row 0, row 1 is not cleared |
| Bounds.ColumnStaysExactly | libs/psp/debug/scr.c:499-516 | the column stays on the screen after every character if and only if every tab is met left of column 64 |
| Bounds.PrintStaysInside | libs/psp/debug/scr.c:478-520 | a text whose tabs fit is printed inside the pixel array and the visible columns, with any flags; when exactly the array is left is PrintLeavesExactly |
| Bounds.GlyphLeavesExactly | libs/psp/debug/scr.c:399-413 | with any flags a glyph leaves the pixel array if and only if a pixel it stores lies beyond it; with the background on, if and only if its last pixel does |
| Bounds.PrintLeavesExactly | libs/psp/debug/scr.c:478-520 | for every text, cursor, font and flags printing writes outside the pixel array if and only if some glyph does not fit where the 16-bit cursor takes it |
| Bounds.OvershotTextFits | libs/psp/debug/scr.c:506-509 | past the last column, with the background on, printable text fits if and only if its last glyph does, on whichever row |
| Bounds.TabsCanLeaveTheArray | libs/psp/debug/scr.c:499-505 | a concrete input: two tabs from column 66 of the last row write outside the array |
| TextGrid.DrawShowsPut | libs/psp/debug/scr.c:388-414 | with the background on, drawing a glyph over its neighbours changes the picture of a character grid at that cell and its two shared columns only |
| TextGrid.PrintDisplaysText | libs/psp/debug/scr.c:478-520 | with background and line clearing on, whatever is printed whose tabs fit, wraps and cleared lines included, the pixels are the picture of the grid the text writes, and the cursors agree |
| TextGrid.PrintOnClearScreen | libs/psp/debug/scr.c:365-375 | with background and line clearing on, from a cleared screen every text whose tabs fit is displayed as its grid |
| LineRendering.LineIsRendered | libs/psp/debug/scr.c:506-516 | with background and line clearing on, one line of at most 68 printable characters from column 0 on any screen: pixel column 7i + j shows column j of glyph i, the column after the line column 7 of the last glyph, everything else is unchanged except the row a full line wraps to |
| Screen.DebugScreen.DrawChar32 | libs/psp/debug/scr.c:388-414 | the loops in place draw the specified glyph and record whether a write left the array |
| Screen.DebugScreen.ClearRow | libs/psp/debug/scr.c:377-386 | whatever row is asked for, the cursor's row is cleared, if the flags say so |
| Screen.DebugScreen.PrintData | libs/psp/debug/scr.c:478-520 | the loop in place prints as specified and returns the number of bytes, or 0 before initialisation |
| Screen.DebugScreen.SetX | libs/psp/debug/scr.c:343-349 | positions outside the screen are ignored; the old one is returned |
| Screen.DebugScreen.SetY | libs/psp/debug/scr.c:351-357 | positions outside the screen are ignored, so the row stays valid; the old one is returned |
| Screen.DebugScreen.ClearScreen32 | libs/psp/debug/scr.c:139-146 | every pixel of the array takes the colour |
| Screen.DebugScreen.Clear | libs/psp/debug/scr.c:365-375 | for any flags and cursor the outcome is a cursor at 0, 0 and every pixel in the background colour: the loop over the rows is redundant |
| KernelPrint.CharactersAreKept | libs/psp/debug/scrk.c:23-26 | every character is kept as it is, except that carriage returns are dropped |
| KernelPrint.TextAppends | libs/psp/debug/scrk.c:23-26 | the characters kept of two runs are those of the first and then those of the second |
| KernelPrint.ChunksAreInvisible | libs/psp/debug/scrk.c:12-33 | however characters fall into chunks, what was printed followed by what is pending is the text so far |
| KernelPrint.BufferedPrintIsPrint | libs/psp/debug/scrk.c:12-33 | start, characters, end leave the console as one scr_printdata of the characters without carriage returns |
| KernelPrint.PrntCtx.PrntCb | libs/psp/debug/scrk.c:12-33 | the callback in place does the specified step and its index stays below the buffer size at every entry |
| KernelPrint.PrntCtx.ScrKprintf | libs/psp/debug/scrk.c:35-43 | a whole formatted string through the callback is one direct print |
| LogRegistry.ApplyValid | libs/psp/util/log.c:35-62 | every call keeps the count equal to the registered handlers, and the -3 exit is unreachable |
| LogRegistry.PrintReachesRegistered | libs/psp/util/log.c:64-88 | over every sequence of calls the slots behave as a partial map of registrations, and log_printf calls exactly those handlers with their arguments |
| LogRegistry.PrintedInOrder | libs/psp/util/log.c:81-85 | each registered handler once, in slot order |
| LogRegistry.FlushCallsExactly | libs/psp/util/log.c:90-98 | in any state log_flush calls every flush that is set in the first slots, as many as there are handlers, in slot order |
| LogRegistry.FlushReachesExactly | libs/psp/util/log.c:90-98 | log_flush calls exactly the registered flushes, in slot order, if and only if no removed one is below the count and no registered one above it |
| LogRegistry.FlushNeedsPrefix | libs/psp/util/log.c:90-98 | after any calls in which every handler came with a flush, that is the case exactly while the registered handlers occupy the first slots |
| LogRegistry.LastInFirstOutKeepsPrefix | libs/psp/util/log.c:52-62 | registering, and unregistering the last registered, keep the registered handlers in the first slots |
| LogRegistry.FlushAfterOutOfOrderRemoval | libs/psp/util/log.c:90-98 | concrete calls after which log_flush calls the flush of a removed handler and not that of the remaining one |
| LogRegistry.LogHandlers.RegisterHandler | libs/psp/util/log.c:24-50 | in place: the specified registration with its error codes |
| LogRegistry.LogHandlers.UnregisterHandler | libs/psp/util/log.c:52-62 | in place: the specified removal with its error codes |
| LogRegistry.LogHandlers.Printf | libs/psp/util/log.c:64-88 | calls the registered handlers, or none if nothing is registered or the text does not fit |
| LogRegistry.LogHandlers.Flush | libs/psp/util/log.c:90-98 | calls the flushes set in the first slots, as many as there are handlers |

## Left out

- MsgBuffer.DefaultFileHandler: does not model the write to the file, nor the two build flags that select it, which is output.
- Screen.DebugScreen.DrawChar32: a write outside the 512 by 272 array is recorded, but what it does to other memory is not modelled.
- FlushLoop.FlushMessages: other threads are given a finite, arbitrary budget of accepted messages, because against producers that never pause the loop does not end; that no message starves even then is ProtocolLiveness.NoStarvation.
- HandlerCalls.RegisterHandler: the result of a signal that fails for another reason than an overflow, such as a deleted semaphore, is not modelled, because the semaphore lives as long as the library.
- HandlerCalls.UnregisterHandler: the same.
- `vsnprintf` and the printf library: parameters, as said above.
- Kernel calls beyond the contracts listed under Assumptions: files, stdout, display mode, delays, thread priorities.
- A failing free of a pool block or a failing `sceKernelSetEventFlag`: the code ignores both results.
- `detect_psplink`, the USB delays, debug dumps, K1 registers, `api.c` and `putchar_.c`: no state to reason about.
- Wall-clock time: the timeout of `_stop` is an exit that may be taken at any moment.
- Handlers that register or unregister from inside a callback.
- 16-bit pixel formats and their colour conversions, `drawchar_16` and non-zero `vram_offset`.
- `scr_init`, `scr_printf`, `scr_puts`, and the setters of colours, flags, font and base address: wrappers or single assignments.
- `sdk/include`, the build files, the test applications, `cb.c`, `sys.c` and `umd.c`: declarations and thin calls.
