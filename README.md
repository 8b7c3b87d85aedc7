# TLM-2.0 base-protocol components in Dafny

This project models four small SystemC/TLM-2.0 components that follow the
base protocol of IEEE 1666-2011, clause 14. It proves properties of each one.

- **Transaction pool** (`mm`, module `MemManager`). An intrusive free list of
  reusable generic payloads, kept as a doubly linked chain of `access` nodes.
  The nodes are an arena of indices, with `next`, `prev` and `trans`
  sequences and the `free_list`/`empties` pointers. `Pool.Allocate` and
  `Pool.Free` rewire those fields as the C++ does. They are proved against
  an abstract view (`PoolView`: the freed payloads in order, and the node
  count). Lemmas on that view prove LIFO reuse, the free-list balance, and
  that the node count is the high-water mark of the free list.
- **Initiator `Core`** (module `CoreInitiator`). The `request_in_progress`
  slot and the BEGIN_REQ/END_REQ exclusion rule. Also the backward path,
  the PEQ callback and `check_transaction`.
- **DSP target** (module `DspTarget`). Five registers at offsets
  0/4/8/12/16, and the single-outstanding-response discipline
  (`response_in_progress` and the FIFO `response_wait_list`). The register
  decode is proved against the value-level `Access` function. Lemmas on
  `Access` state isolation, write-then-read, and the error cases.
- **Memory, Router and DMI initiator** (module `Platform`). Ordered
  validation and word access in `Memory`. Address decoding, address
  restoration, DMI grant translation and invalidation ranges in `Router`.
  The "use DMI or fall back to `b_transport`" decision in `Initiator`. A
  DMI consistency lemma ties the translated pointer to the memory word that
  `b_transport` reaches.

Module `Tlm` holds the shared vocabulary: commands, statuses, phases, sync
values, the `Payload` class, `Event` records, and the `tlm_dmi` record.
Module `Scenarios` holds client methods that drive the model through
base-protocol exchanges: pool reuse, exclusion, the DSP queue with an
address error, a routed write of 5 to 0x10, a word written through
`b_transport` and read back through DMI, and invalidation followed by
fallback.

Environment. The SystemC kernel, the sockets and the payload event queues
are library code, so they are not modelled:

- A call into a peer that is not shown (`nb_transport_fw` from `Core`,
  `nb_transport_bw` from the DSP) is recorded in an outbox sequence
  (`forward`, `backward`).
- The peer's answer (sync value, updated phase, updated delay, and for
  `Core::nb_transport_fw` the response status the target writes into the
  payload) is a method parameter.
- `peq.notify` appends an `Event(payload, phase, delay)` to a `peq`
  sequence.
- A PEQ delivering an entry is a call of the callback method.
- Delays are natural numbers of nanoseconds.

Assumptions stated explicitly:

- The code never initialises `response_in_progress` (include/dsp.h:35) or
  `dmi_ptr_valid` (src/main.cpp:13). Both start false.
- Registers and memory words are 4 little-endian bytes.
- `is_response_error()` is true for every status except OK, INCOMPLETE
  included. This follows the standard's numbering, where errors and
  INCOMPLETE are `<= 0`.
- The platform uses the sizes the top level instantiates: 4 targets of 256
  bytes.

Where the code behaves differently from what a reader of the base protocol
might expect, the model follows the code:

- `send_response` on TLM_COMPLETED releases the payload and clears the flag,
  but does not pop the wait list (include/dsp.h:203-207).
- A queued packet goes through the register decode twice: once when first
  continued, and again after END_RESP reschedules it with `internal_ph`. A
  queued write is therefore applied twice.
- The wait list is FIFO, but it is not a global order. A packet popped on
  END_RESP is only rescheduled 50 ns later. A continuation that runs in
  between can send its response first. The popped packet then re-enters
  at the tail.
- `Router::get_direct_mem_ptr` leaves the payload's address in local form.
  It does not restore it (src/main.cpp:191).
- DMI and `b_transport` disagree at unaligned addresses. Through the pointer,
  address `t*SIZE + k` is host byte k of the memory. `Memory::b_transport`
  serves word `k/4` (src/main.cpp:129-131), whose first byte is `4*(k/4)`.
  `UnalignedDmiDiffersFromTransport` gives an instance (offset 5). The
  initiator's loop only visits multiples of 4, where the two paths agree
  (`DmiReadAligned`, `DmiWriteAligned`).
- For every address the initiator's loop can use, the validation in
  `Memory::b_transport` passes: length 4, width 4, no byte enable, offset
  below 256. So the error report in `Initiator::thread` is unreachable
  (`Initiator.TransportAccess` ensures status OK).

## Model

| member | source | states |
|---|---|---|
| `Tlm.CopyPrefix` | src/main.cpp:128-131 | `memcpy` of `len` bytes: byte k of the result is the source's for k < len and the destination's otherwise, and the length is unchanged |
| `Tlm.Payload.constructor` | include/mem_manager.h:51 | a newly constructed payload has status INCOMPLETE, DMI not allowed, reference count 0, no byte enable |
| `Tlm.Payload.Acquire` | include/core.h:47 | `acquire()` adds one reference |
| `Tlm.Payload.SetWordRequest` | src/main.cpp:56-63 | the attribute setters of a one-word request: command, address, data, length 4, width 4, no byte enable, DMI hint cleared, INCOMPLETE; the reference count is untouched |
| `Tlm.InitDmi` | src/main.cpp:72 | `tlm_dmi::init()` grants no access and covers the whole range starting at 0 |
| `MemManager.FreeView` | include/mem_manager.h:61-71 | `free` keeps the free list no longer than the node count |
| `MemManager.AllocateView` | include/mem_manager.h:43-52 | `allocate` keeps the free list no longer than the node count |
| `MemManager.Pool.constructor` | include/mem_manager.h:12 | a fresh manager has an empty free list and no nodes |
| `MemManager.Pool.Allocate` | include/mem_manager.h:37-54 | on a non-empty free list, returns the most recently freed payload unchanged and pops it; on an empty one, returns a fresh default payload and leaves the chain as it was; the node count never changes and every node keeps its payload |
| `MemManager.Pool.Free` | include/mem_manager.h:56-72 | pushes the payload; a new node is created exactly when there is no empty node; afterwards every node holds a payload it held before or the one just freed |
| `MemManager.FreeThenAllocate` | include/mem_manager.h:43-48 | `free(t)` followed immediately by `allocate()` returns t and restores the free list |
| `MemManager.FreeAllPushes` | include/mem_manager.h:69-71 | freeing t1..tk pushes them in order and reuses nothing |
| `MemManager.AllocatesPop` | include/mem_manager.h:43-48 | k allocates on a free list of at least k payloads reuse its last k entries, newest first |
| `MemManager.AllocatesPopFree` | include/mem_manager.h:43-48 | those k allocates pop exactly the last k entries of the free list |
| `MemManager.LifoReuse` | include/mem_manager.h:43-48 | freeing t1..tk then allocating k times returns tk..t1 and leaves the free list as before |
| `MemManager.RunAppend` | include/mem_manager.h:37-72 | running two call sequences one after the other is running their concatenation |
| `MemManager.FreeListBalance` | include/mem_manager.h:45-47 | free-list length = initial length + frees - reusing allocates, and reusing allocates never exceed what was available |
| `MemManager.NodeCountIsHighWater` | include/mem_manager.h:61-68 | from a fresh pool, the node count is the high-water mark of the free-list length |
| `MemManager.NodeCountIsHighWaterFrom` | include/mem_manager.h:61-68 | from any pool, the node count is the larger of the initial count and the high-water mark |
| `MemManager.ReuseThenFreeCreatesNoNode` | include/mem_manager.h:46-47 | after a reusing allocate, the next free creates no node; on a fresh pool it creates one |
| `CoreInitiator.Core.constructor` | include/core.h:24-32 | no request in progress, `data[i] == i`, an empty pool, nothing sent or queued |
| `CoreInitiator.Core.NewTransaction` | include/core.h:44-57 | takes the payload the pool gives, acquires it once, and sets every attribute to its mandatory value, whatever a reused payload held; the pool's nodes keep the payloads they held, and every other pooled payload is unchanged |
| `CoreInitiator.Core.Issue` | include/core.h:59-85 | issues BEGIN_REQ with 1 ns iff the slot was empty, and then the slot holds the payload and the status the target wrote; TLM_UPDATED re-queues the returned phase and delay; TLM_COMPLETED clears the slot, reports an error iff that status is an error, and releases once; of the payload only the status and the reference count may change |
| `CoreInitiator.Core.NbTransportBw` | include/core.h:140-145 | always returns TLM_ACCEPTED and only enqueues the phase and delay |
| `CoreInitiator.Core.PeqCb` | include/core.h:149-177 | END_REQ, or BEGIN_RESP for the outstanding payload, clears the slot and notifies; BEGIN_RESP for another payload leaves it; BEGIN_REQ and END_RESP are fatal; BEGIN_RESP checks, releases once and forwards END_RESP with 1 ns; of the payload only the reference count may change |
| `CoreInitiator.Core.CheckTransaction` | include/core.h:180-199 | reports iff the status is an error, and releases exactly once |
| `DspTarget.RegisterAt` | include/dsp.h:107-131 | an offset selects a register iff it is 0, 4, 8, 12 or 16, and then the register offset/4 |
| `DspTarget.Access` | include/dsp.h:100-160 | the register decode keeps five registers and the buffer length |
| `DspTarget.AccessStatus` | include/dsp.h:105-160 | READ/WRITE give OK at a register offset and ADDRESS_ERROR elsewhere, and an error changes neither registers nor buffer |
| `DspTarget.IgnoreChangesNothing` | include/dsp.h:105-133 | a command that is neither READ nor WRITE changes no register, no data and no status |
| `DspTarget.ReadKeepsRegisters` | include/dsp.h:107-128 | a read changes no register and copies the first `len` bytes of the selected one into the buffer |
| `DspTarget.WriteIsolation` | include/dsp.h:135-156 | a write changes only the selected register, and only its first `len` bytes |
| `DspTarget.WriteThenRead` | include/dsp.h:110-156 | a 4-byte write followed by a 4-byte read at the same offset returns the value written |
| `DspTarget.Dsp.constructor` | include/dsp.h:43-52 | command register TLM_IGNORE_COMMAND, others 0 (status READY), an empty wait list, no response in progress |
| `DspTarget.Dsp.NbTransportFw` | include/dsp.h:54-58 | only schedules the phase with the given delay and returns TLM_ACCEPTED |
| `DspTarget.Dsp.PeqForDataCb` | include/dsp.h:75-174 | BEGIN_REQ acquires once, sends END_REQ with 1 ns and schedules the continuation at returned delay + 50 ns; END_RESP releases, clears the flag and pops the head of a non-empty list, rescheduling it at 50 ns; other base phases change nothing |
| `DspTarget.Dsp.InternalPhase` | include/dsp.h:97-172 | the register access as `Access` states, then a tail append to the wait list if a response is in progress, else `send_response` |
| `DspTarget.Dsp.AccessRegisters` | include/dsp.h:100-160 | the switch on command and offset does exactly what `Access` states |
| `DspTarget.Dsp.SendEndReq` | include/dsp.h:176-186 | END_REQ on the backward path with 1 ns, then `internal_ph` at the delay the callee left plus 50 ns |
| `DspTarget.Dsp.SendResponse` | include/dsp.h:188-208 | marks a response in progress and sends BEGIN_RESP with zero delay; TLM_COMPLETED releases and clears the flag without draining the list; TLM_UPDATED re-queues the phase |
| `Platform.Route` | src/main.cpp:179-184 | `target*SIZE + offset` is the original address and the offset is below SIZE; the target is in range iff the address is below N_TARGETS*SIZE |
| `Platform.RouteCompose` | src/main.cpp:184 | recomposing a (target, offset) pair and decoding it again gives the same pair |
| `Platform.Validate` | src/main.cpp:112-126 | ADDRESS_ERROR iff the address is out of range; otherwise BYTE_ENABLE_ERROR iff a byte enable is set; otherwise BURST_ERROR iff len > 4 or width < len; OK iff none |
| `Platform.Serve` | src/main.cpp:103-138 | `b_transport` keeps the word count and the buffer length |
| `Platform.ServeErrorChangesNothing` | src/main.cpp:112-126 | on any validation error, memory and buffer are unchanged and DMI is not allowed |
| `Platform.ServeWriteThenRead` | src/main.cpp:128-137 | a 4-byte write then a 4-byte read of the same address returns the value written, with status OK and DMI allowed |
| `Platform.MemoryGrant` | src/main.cpp:142-149 | read and write access over [0, SIZE-1] |
| `Platform.TranslateGrant` | src/main.cpp:194-198 | start and end move up by `t*SIZE`; pointer + start still names the same host byte, so the pointer moves down by as much; the other fields are unchanged |
| `Platform.GrantCoversExactlyTarget` | src/main.cpp:179-198 | an address lies in the window the router grants for target t iff it decodes to t |
| `Platform.DmiConsistency` | src/main.cpp:196-198 | inside target t's translated window, the address decodes to t and pointer + address is host byte `offset` of target t's memory; for a 4-aligned address that is the first byte of word `offset/4`, the word `b_transport` serves |
| `Platform.ReadBytes` | src/main.cpp:42 | the DMI read `memcpy`: byte k of the result is host byte `off + k`, i.e. byte b of word j where `4*j + b == off + k` |
| `Platform.WriteBytes` | src/main.cpp:48 | the DMI write `memcpy`: host bytes `off .. off+3` become the source bytes, and every other byte is kept |
| `Platform.WriteBytesTouches` | src/main.cpp:48 | a 4-byte copy changes no word other than `off/4`, and `off/4 + 1` only when `off` is unaligned |
| `Platform.WriteWords` | src/main.cpp:48 | the DMI write on the memory's word array leaves exactly `WriteBytes` of the old contents |
| `Platform.DmiReadAligned` | src/main.cpp:42 | at an aligned offset, a DMI read gives word `off/4`, the same data as a `b_transport` read there |
| `Platform.DmiWriteAligned` | src/main.cpp:48 | at an aligned offset, a DMI write replaces exactly word `off/4`, the same memory as a `b_transport` write there |
| `Platform.TransportWriteThenDmiRead` | src/main.cpp:42 | a word written with `b_transport` at an aligned address reads back unchanged through DMI |
| `Platform.UnalignedDmiDiffersFromTransport` | src/main.cpp:42 | in a freshly built memory, DMI and `b_transport` at offset 5 return different data |
| `Platform.BackwardRange` | src/main.cpp:205-207 | the forwarded range decodes to (id, start) and (id, end) and keeps its length |
| `Platform.Memory.constructor` | src/main.cpp:94-101 | every word i starts as `4*i` |
| `Platform.Memory.BTransport` | src/main.cpp:103-138 | memory, buffer and status are exactly what `Serve` gives; `dmi_allowed` is set when `Serve` allows DMI and kept as it was otherwise; the delay is zeroed on success and kept on error |
| `Platform.Memory.GetDirectMemPtr` | src/main.cpp:140-150 | always true, read/write, range [0, SIZE-1], pointer at `mem[0]`, 1 ns latencies |
| `Platform.Router.constructor` | src/main.cpp:161-173 | one bound memory per initiator socket |
| `Platform.Router.BTransport` | src/main.cpp:175-185 | the target `address/SIZE` serves the transaction at `address%SIZE`, and afterwards the payload's address is the original |
| `Platform.Router.GetDirectMemPtr` | src/main.cpp:187-201 | returns the target's status unchanged and its grant translated by `TranslateGrant`; the payload keeps the local address |
| `Platform.Initiator.constructor` | src/main.cpp:18-22 | no valid grant and no errors |
| `Platform.Initiator.InvalidateDirectMemPtr` | src/main.cpp:24-27 | clears the grant's validity whatever range is received |
| `Platform.Initiator.Step` | src/main.cpp:36-79 | takes the DMI path iff the grant is valid and `start <= i <= end`, with the effects `DmiAccess` states and the payload, grant and reports unchanged; otherwise the `b_transport` effects `TransportAccess` states |
| `Platform.Initiator.DmiAccess` | src/main.cpp:37-53 | checks the permission; a read sets `data` to `ReadBytes` of the target's memory at the offset and keeps the memory; a write sets the memory to `WriteBytes` and keeps `data`; the host address is the target's base + offset, and the latency is 1 ns |
| `Platform.Initiator.TransportAccess` | src/main.cpp:54-79 | memory, data and status are what `Serve` gives at the routed offset; a grant is requested (and becomes valid) iff the target allowed DMI |

## Left out

- `CoreInitiator.Core.Issue`: of what a target may write into the payload during `nb_transport_fw`, only the response status is modelled. A read completed at once would also fill the data buffer, but `check_transaction` only prints that data.
- The SystemC kernel: `wait`, `sc_event`, threads and simulated time. `wait(end_request_event)` is `Issue` returning false. A delay is a number of nanoseconds on a record.
- The internals of `peq_with_cb_and_phase` and of the sockets: delivery order and timing are the library's. The model records what is scheduled or sent, in order.
- The payload's `acquire`/`release` beyond the reference count. The release hook that calls `mm::free` is not shown, so `Pool.Free` is not called from a release.
- Data pointers: a payload's buffer is its own byte sequence. The aliasing of the buffer with `Core::data` is not modelled. `NewTransaction` copies `data[k]` into the payload, and a DSP read does not flow back into `Core::data`. The `Initiator`'s single `data` word is copied in before and out after `b_transport`.
- Host memory outside the targets' arrays. The DMI copy acts on the memory of the address's target; `DmiConsistency` shows that this is the memory the pointer designates. A 4-byte DMI copy that would run past the end of a memory (offsets 253 to 255) reads or writes beyond the array in the source, so `Step` and `DmiAccess` require such an access to stay inside. The loop's aligned addresses always do.
- `DspTarget.Dsp.PeqForDataCb`, `DspTarget.Dsp.InternalPhase` and `DspTarget.Dsp.AccessRegisters`: these require `data_length <= 4`. A longer `memcpy` into a 4-byte register field is undefined in the source.
- The list-node code at include/dsp.h:164-166 uses an uninitialised pointer. The model appends the packet at the tail of the list, which is what the code means to do. `list.h` is not part of this model.
- The DSP's empty `b_transport`, `nb_transport_bw` and `peq_for_int_cb`, and its interrupt socket. They have no behaviour.
- `Top`, `sc_main`, socket binding, and the fixed workloads of `Core::thread_process` and `Initiator::thread`. One step of each loop is modelled; the trailing `wait(10 ns)` is not.
- All console output, `sprintf` text and the `DEBUG` counters. A report is a counter (`errorReports`). `SC_REPORT_FATAL` is the `fatal` flag.
- Aborting on the `assert` on DMI permissions in `Initiator::thread`. It is a Dafny `assert` in `DmiAccess`, proved from the router's grants, which always permit both directions.
- Integer widths: addresses are unbounded naturals. uint64 wrap-around and 32-bit truncation of `target_nr` cannot occur below `N_TARGETS*SIZE`, which the router's callers must respect.
- The template parameters of `Memory` and `Router`: the model fixes them at 256 bytes and 4 targets.
