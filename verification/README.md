# EasyLib networking header codec and ZooKeeper client adapter, in Dafny

This project models two independent parts of the `ldd` library:

1. **The fixed-layout message header** (`ldd/net/internal/protocol.cc`). A
   16-byte header holds a magic byte, a type, a 32-bit id, a 16-bit body
   type, a 24-bit body size, an extension count, a 16-bit extension length
   and a CRC-16 of the first 14 bytes. The extension header that follows it
   is a run of `(type, len)` byte pairs. `Header::Parser` and
   `Header::Builder` become pure reads and updates of a `seq<bv8>` buffer.
   C's `uint8_t`/`uint16_t`/`uint32_t` become `bv8`/`bv16`/`bv32`, so
   truncation and wrap-around are those of the source. The CRC is boost's
   `crc_ccitt_type` (CRC-16/CCITT-FALSE: polynomial 0x1021, initial value
   0xFFFF, no reflection, no final XOR), computed bit by bit.
2. **The client adapter `Keeper::Impl`** (`ldd/cage/internal/keeper_impl.cc`).
   It sits between asynchronous callers, the native ZooKeeper C engine and a
   host event loop. The adapter's state is the `Session` datatype. The
   engine's answers (`zookeeper_init`, `zookeeper_interest`,
   `zookeeper_process`, the submission functions `zoo_a*`, the negotiated
   timeout) are parameters, so each contract covers every answer the engine
   may give. Fatal `CHECK`s and `LOG(FATAL)` become the `Abort` outcome.

Files: `wrappers.dfy` (Option, Exec), `crc16.dfy`, `header.dfy`,
`ext_header.dfy`, `keeper_state.dfy` (state and invariant),
`watch_registry.dfy`, `fd_events.dfy` (interest/event bit translation),
`keeper.dfy` (lifecycle and event loop), `keeper_ops.dfy` (the operation
template and `Multi`), `keeper_trace.dfy` (runs of events).

Three behaviours of the code are worth stating up front:
- An accepted `Exists`/`Get`/`GetChildren`/`GetChildrenWithStat` appends
  its watcher to the registry even when the watcher is empty. The native
  watch is installed only for a non-empty one.
- A failed interest query always arms a 100 ms wait, because the
  out-parameter timeout is copied only on success. A successful query that
  suggests a zero timeout is armed with zero.
- `Close` also drops the session listener. A session opened again after a
  close therefore never gets the session watcher
  (`Keeper.ReopenWithoutSessionWatch`).

Completions and watchers that the engine runs inside `zookeeper_process`
may call back into the adapter: open it, close it, or start another
operation. The model takes these re-entrant calls as part of the engine's
answer (`Keeper.ProcessReply.callbacks`) and runs them in order
(`Keeper.RunCallbacks`).

## Model

| member | source | states |
|---|---|---|
| `Crc16.CheckValue` | ldd/net/internal/protocol.cc:22-24 | the checksum of ASCII "123456789" is 0x29B1, the standard check value of CRC-16/CCITT-FALSE |
| `Crc16.ResidueOfMessage` | ldd/net/internal/protocol.cc:22-31 | a message followed by its own checksum (high byte first) leaves a zero register, and no other pair of trailing bytes does |
| `Crc16.FeedAppend` | ldd/net/internal/protocol.cc:22-24 | feeding bytes in two pieces gives the same register as feeding them at once |
| `Header.IsValidCases` | ldd/net/internal/protocol.cc:14-34 | `IsValid` is false when byte 0 is not the magic, false when the stored CRC differs from the CRC of bytes 0..13, and true otherwise |
| `Header.ValidIffZeroResidue` | ldd/net/internal/protocol.cc:14-34 | a header is valid iff its magic is right and the CRC over all 16 bytes is zero |
| `Header.BodySize` | ldd/net/internal/protocol.cc:48-50 | the body size read back is always below 2^24 |
| `Header.Build` | ldd/net/internal/protocol.cc:66-72 | the built header is valid, keeps bytes 1..13 and every field, and leaves an already-valid header unchanged |
| `Header.BuildDependsOnlyOnFields` | ldd/net/internal/protocol.cc:66-72 | two buffers that agree on bytes 1..13 build to the same header |
| `Header.SetType` | ldd/net/internal/protocol.cc:74-76 | `type()` returns the value set; no byte other than byte 1 changes |
| `Header.SetId` | ldd/net/internal/protocol.cc:78-80 | `id()` (big-endian bytes 2..5, read at lines 40-42) returns the value set; no other byte changes |
| `Header.SetBodyType` | ldd/net/internal/protocol.cc:82-84 | `body_type()` returns the value set; no byte outside 6..7 changes |
| `Header.SetBodySize` | ldd/net/internal/protocol.cc:86-90 | `body_size()` returns the low 24 bits of the value set (all of it when below 2^24); the extension count in byte 11 survives; no byte outside 8..10 changes |
| `Header.SetExtCount` | ldd/net/internal/protocol.cc:92-94 | `ext_count()` returns the value set; the body size survives; only byte 11 changes |
| `Header.SetExtLen` | ldd/net/internal/protocol.cc:96-98 | `ext_len()` returns the value set; no byte outside 12..13 changes |
| `Header.SetAll` | ldd/net/internal/protocol.cc:74-98 | after every setter, in order, on a zeroed buffer, each getter returns its field (the body size cut to 24 bits) |
| `Header.Encode` | ldd/net/internal/protocol.cc:66-98 | setting every field and then building yields a valid header |
| `Header.Parse` | ldd/net/internal/protocol.cc:14-58 | parsing succeeds exactly on valid headers, and the body size parsed fits 24 bits |
| `Header.ParseEncode` | ldd/net/internal/protocol.cc:36-98 | parsing an encoded header gives back every field, the body size truncated to 24 bits; the fields exactly when the body size fits |
| `Header.EncodeParse` | ldd/net/internal/protocol.cc:14-98 | every valid header is the encoding of the fields parsed from it |
| `ExtHeader.IsValid` | ldd/net/internal/protocol.cc:106-122 | true iff the 16-bit wrapping sum of the len bytes of the first `ext_count` items equals `ext_len` |
| `ExtHeader.GetExtItemAsWritten` | ldd/net/internal/protocol.cc:124-136 | refuses exactly the indices above the count; otherwise yields the two bytes at `index * kUnitSize` |
| `ExtHeader.AsWrittenAcceptsOnePastLast` | ldd/net/internal/protocol.cc:126-129 | the index equal to the count is accepted as written and yields bytes past the last item, while the corrected bound refuses it |
| `ExtHeader.GetExtItem` | ldd/net/internal/protocol.cc:124-136 | corrected bound: yields an item exactly for indices below the count, and then the item at that index |
| `ExtHeader.NewBuilder` | ldd/net/internal/protocol.cc:138-141 | a new builder writes into the caller's buffer, unchanged, and holds no items |
| `ExtHeader.AddExtItem` | ldd/net/internal/protocol.cc:143-151 | the count goes up by one, the items already written stay, the new `(type, len)` is appended, and no other byte changes |
| `ExtHeader.AddAll` | ldd/net/internal/protocol.cc:143-151 | adding a list of items appends exactly that list to the builder's items and leaves every byte past the last written item as it was |
| `ExtHeader.BuildThenParse` | ldd/net/internal/protocol.cc:106-151 | a parser over what the builder wrote reads back the items in order, and `GetExtItem` yields item `i` for every `i` below the count and nothing at or above it; the buffer read is the caller's, with every byte past the items unchanged |
| `KeeperState.NewSession` | ldd/cage/internal/keeper_impl.cc:16-22 | a new adapter is closed, holds the given listener, and satisfies the invariant |
| `Keeper.Timeout` | ldd/cage/internal/keeper_impl.cc:37-42 | zero when closed, the engine's negotiated timeout when open |
| `Keeper.Open` | ldd/cage/internal/keeper_impl.cc:44-61 | with a handle, the session opens, recoverable, with the session watcher iff a listener is set and exactly the one wait `UpdateEvent` computes for it armed (aborting iff the interest query reports bad arguments); with `errno` set and not `ENOMEM`, it returns false and nothing changes; otherwise it aborts |
| `Keeper.Close` | ldd/cage/internal/keeper_impl.cc:63-73 | a no-op when closed; otherwise the session is closed, the listener dropped, both registries emptied and the outstanding wait cancelled |
| `Keeper.CloseIdempotent` | ldd/cage/internal/keeper_impl.cc:63-73 | closing twice is closing once |
| `Keeper.ReopenWithoutSessionWatch` | ldd/cage/internal/keeper_impl.cc:44-73 | a session reopened after a close never has the session watcher |
| `Keeper.Interest` | ldd/cage/internal/keeper_impl.cc:75-86 | a closed session gets `InvalidState` without the engine being asked and with the out-values untouched; an open one gets the engine's answer, its timeout only on success |
| `Keeper.Process` | ldd/cage/internal/keeper_impl.cc:88-93 | a closed session gets `InvalidState` without calling the engine; an open one hands the interest to the engine and takes on its status; with no callbacks only the unrecoverable flag changes; callbacks that never reopen arm nothing; processing keeps the in-processing invariant |
| `Keeper.Perform` | ldd/cage/internal/keeper_impl.cc:44-327 | an entry point called on the adapter (open, close, an operation) aborts when opening an open session or with a negative timeout, and keeps both the invariant and the in-processing invariant |
| `Keeper.RunCallbacks` | ldd/cage/internal/keeper_impl.cc:88-93 | the callbacks run inside `zookeeper_process` keep the in-processing invariant; when none of them reopens the adapter they cannot abort, arm no wait, and leave the outstanding waits as they were or cancelled |
| `Keeper.ClosedSessionObservers` | ldd/cage/internal/keeper_impl.cc:37-93 | when not open, the timeout is zero and `Interest` and `Process` return `InvalidState` without touching the engine |
| `Keeper.Arm` | ldd/cage/internal/keeper_impl.cc:385-386 | plain helper: `event_.AsyncWait` adds one outstanding wait at the end and counts it; its use is stated by `Keeper.UpdateEvent` |
| `Keeper.UpdateEvent` | ldd/cage/internal/keeper_impl.cc:358-387 | aborts iff the query reports bad arguments; otherwise arms exactly one wait on the engine's descriptor, with the translated mask and the engine's timeout, or 100 ms when the query failed; the armed timeout is zero only when a successful query asked for zero |
| `FdEvents.EventsOf` | ldd/cage/internal/keeper_impl.cc:378-383 | the armed mask is readable iff the interest has read, writable iff it has write, and nothing else |
| `FdEvents.InterestOf` | ldd/cage/internal/keeper_impl.cc:390-396 | the interest fed back has read iff the events are readable, write iff writable, and nothing else |
| `FdEvents.TranslationsInverse` | ldd/cage/internal/keeper_impl.cc:378-396 | the two translations undo each other on the bits they carry |
| `Keeper.HandleEventAsWritten` | ldd/cage/internal/keeper_impl.cc:389-405 | consumes the fired wait, feeds the translated interest to the engine, never proceeds after a bad-arguments status, and calls `UpdateEvent` once more exactly when the session is open and recoverable after processing, arming the wait `UpdateEvent` computes from the engine's interest answer |
| `Keeper.HandleEvent` | ldd/cage/internal/keeper_impl.cc:389-405 | corrected re-arm: feeds the translated interest to the engine; when no callback reopens the adapter, aborts iff processing or the re-arming query reports bad arguments (a reopening callback can also abort through `Open`'s fatal checks); keeps the invariant, so exactly one wait is outstanding afterwards iff the session is open and recoverable; the wait it arms is the one `UpdateEvent` computes from the engine's interest answer; without a reopening callback it arms exactly one wait iff the session ends open and recoverable |
| `Keeper.HandleEventAgreesWithoutReopen` | ldd/cage/internal/keeper_impl.cc:389-405 | when no callback reopens the adapter, the corrected and the written `HandleEvent` agree |
| `Keeper.ReopenDuringProcessingArmsTwice` | ldd/cage/internal/keeper_impl.cc:44-53 | a callback that closes and reopens the adapter during processing leaves two waits armed under the written `HandleEvent`, and one under the corrected one |
| `KeeperOps.Register` | ldd/cage/internal/keeper_impl.cc:171-177 | plain helper: the registry update of an accepted request, an append to the node registry for `Exists`/`Get`, the child registry for `GetChildren*` (the same code at lines 198-204, 288-294 and 315-321), and no change otherwise; what it means is stated by `KeeperOps.AcceptedNodeWatchAppends`, `KeeperOps.AcceptedChildWatchAppends` and `KeeperOps.RegistryFrame` |
| `WatchRegistry.Append` | ldd/cage/internal/keeper_impl.cc:172-177 | the path's list gains the watcher at its end (created if absent); every other path's list is unchanged |
| `WatchRegistry.AppendOrder` | ldd/cage/internal/keeper_impl.cc:172-177 | two watchers registered on a path in turn end its list in registration order |
| `KeeperOps.SubmissionOf` | ldd/cage/internal/keeper_impl.cc:168-170 | the native watch is installed exactly for a watched operation with a non-empty watcher |
| `KeeperOps.Call` | ldd/cage/internal/keeper_impl.cc:95-327 | the callback is either invoked once at once or handed to the engine, never both or neither: with `InvalidState` and no submission when closed, with the submission status when it fails, and not at all when accepted, in which case only the request's registry changes |
| `KeeperOps.ClosedSessionRejects` | ldd/cage/internal/keeper_impl.cc:95-102 | on a closed session every operation fails at once with `InvalidState` and reaches nothing |
| `KeeperOps.RegistryFrame` | ldd/cage/internal/keeper_impl.cc:158-327 | a call that is not accepted, or another path, leaves both registries' lists for that path unchanged |
| `KeeperOps.UnwatchedLeavesRegistries` | ldd/cage/internal/keeper_impl.cc:95-156 | the six request kinds that take no watcher parameter (`AddAuth`, `Create`, `Delete`, `Set`, `GetAcl`, `SetAcl`) never change the adapter's state |
| `KeeperOps.AcceptedNodeWatchAppends` | ldd/cage/internal/keeper_impl.cc:158-210 | an accepted `Exists`/`Get` puts its watcher last on its path's node list and leaves the child registry alone |
| `KeeperOps.AcceptedChildWatchAppends` | ldd/cage/internal/keeper_impl.cc:275-327 | an accepted `GetChildren`/`GetChildrenWithStat` puts its watcher last on its path's child list and leaves the node registry alone |
| `KeeperOps.BuildBatch` | ldd/cage/internal/keeper_impl.cc:339-346 | one native op and one result slot per sub-operation, in order |
| `KeeperOps.Multi` | ldd/cage/internal/keeper_impl.cc:329-356 | when closed, fails at once with `InvalidState` and builds nothing; when open, builds exactly one slot per sub-operation in order, submits them as one batch, and follows the same callback rule |
| `KeeperTrace.Apply` | ldd/cage/internal/keeper_impl.cc:44-405 | with the corrected `HandleEvent` (see ## Findings): every single event (an entry point called, or the armed wait firing with callbacks re-entering) preserves the adapter's invariant |
| `KeeperTrace.RunKeepsInv` | ldd/cage/internal/keeper_impl.cc:358-405 | with the corrected `HandleEvent` (see ## Findings): every run that does not abort preserves the invariant: at most one wait outstanding, exactly one while open and recoverable, none once unrecoverable, and nothing held while closed |
| `KeeperTrace.FromNew` | ldd/cage/internal/keeper_impl.cc:16-22 | with the corrected `HandleEvent` (see ## Findings): from a freshly constructed adapter, every reachable state has at most one wait outstanding, an open and recoverable one has exactly one, and a closed one has none and no node or child watchers |
| `KeeperTrace.AsWrittenKeepsInvWithoutReopen` | ldd/cage/internal/keeper_impl.cc:389-405 | with the `HandleEvent` of the source as written: a run in which no callback reopens the adapter during processing is the same run as with the corrected one, and so keeps the invariant |

## Findings

| source | as written | input that shows it | evidently intended | confidence | as-written member | corrected member |
|---|---|---|---|---|---|---|
| ldd/net/internal/protocol.cc:126-129 | `GetExtItem` refuses only `index > ext_count_`, so the index equal to the count passes and reads the two bytes just after the last item | `ext_count = 0`, buffer `[5, 7]`, `index = 0`: returns true with type 5, len 7, though there is no item | refuse `index >= ext_count_` | medium; not executed | `ExtHeader.GetExtItemAsWritten` (shown by `ExtHeader.AsWrittenCounterexample` and `ExtHeader.AsWrittenAcceptsOnePastLast`) | `ExtHeader.GetExtItem` (used by `ExtHeader.BuildThenParse`) |
| ldd/cage/internal/keeper_impl.cc:402-404 | `HandleEvent` calls `UpdateEvent` whenever the session is open and recoverable after `zookeeper_process`, even when a completion run during processing closed and reopened the adapter, whose `Open` already armed a wait (line 53) | an open session with one wait; the wait fires; a completion calls `Close()` then `Open()`; both interest queries succeed: two `AsyncWait` calls in one firing, two waits outstanding | re-arm only when no wait was armed during processing, so one wait stays outstanding | low; not executed (needs a callback that reopens, and what a second `AsyncWait` on the same event does is not part of this model) | `Keeper.HandleEventAsWritten` (shown by `Keeper.ReopenDuringProcessingArmsTwice`) | `Keeper.HandleEvent` (used by `KeeperTrace.Apply`; agrees with the written one by `Keeper.HandleEventAgreesWithoutReopen` when no callback reopens) |

## Left out

- The completion functions, the `WatchNode`/`WatchChild`/`WatchSession` dispatch, `CallbackWrapper` and `FailureResult` live in headers that are not part of this model. An accepted call ends with the wrapper handed to the engine; delivery of the completion and of watch notifications is not modelled.
- A `Multi` started from a callback inside `zookeeper_process` is not a `Keeper.Action`. `KeeperOps.Multi` leaves the adapter's state unchanged, so leaving it out of the callbacks loses no state change.
- The model sets the unrecoverable flag once per `zookeeper_process`, before the callbacks run. Whether the engine decides it before or after running them is not known from the adapter.
- The engine is opaque. `zookeeper_init`, `zookeeper_interest`, `zookeeper_process`, the `zoo_a*` submissions, `is_unrecoverable` and `zoo_recv_timeout` are parameters. The model lets the unrecoverable flag change only during `zookeeper_process`.
- `zookeeper_close`'s return code is only logged, so it is not modelled. `LOG` output is not modelled either.
- ACL vector allocation and copying, `errno` plumbing and `boost::bind` are memory and glue code. Requests carry their ACLs as plain values.
- The event loop (`net::EventLoop`, `event_.AsyncWait`, `event_.Cancel`) is reduced to the list of outstanding waits and a count of armed waits. A second `AsyncWait` counts as a second outstanding wait. What the event loop really does with it is not part of this model.
- `kMagic`, `kByteSize` and `kUnitSize` are declared in protocol.h, which is not part of this model. The code's offsets only imply `kByteSize >= 16` (the CRC sits at `kByteSize - 2`) and `kUnitSize >= 2`; the model takes the smallest sizes the offsets allow, 16 and 2. `Header.ValidIffZeroResidue` and `Header.EncodeParse` depend on the CRC directly following byte 13, that is on `kByteSize == 16`. The magic value is a stand-in that no proof depends on.
- `FdEvent::kReadable`/`kWritable` and the default value of `ldd::util::TimeDiff` come from headers that are not part of this model. The masks are taken as two distinct single bits and the default timeout as zero.
- The buffer pointers' `CHECK_NOTNULL` and the raw-memory `reinterpret_cast` reads are replaced by byte sequences. The length requirements on these sequences stand for the source's unchecked assumption that the memory is there.
- `ExtHeader.AddExtItem`: the builder's count is an unbounded natural. The type of `ext_count_` is declared in protocol.h, which is not part of this model. Its wrap-around if more than 255 items are added (for a `uint8_t`) is not modelled.
- `ExtHeader.GetExtItemAsWritten`: a negative index, which the source neither refuses nor can read safely, is not modelled; the index is a natural number.
- `Keeper::Impl::~Impl` only calls `Close`, which is modelled. `IsOpen` is the `open` field. `IsUnrecoverable` is taken to be the `unrecoverable` field. This assumes `is_unrecoverable(zh_)` answers for the open handle. The adapter calls it only after `IsOpen()` (line 402). What it returns for a NULL handle is not modelled, and a closed session reads as recoverable.
- `ldd/protocol/server/store_proto.h` holds only declarations, with no behaviour to model. `ldd/net/other/main.cc` is process start-up.
