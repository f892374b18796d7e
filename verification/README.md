# Verification model of the macOS AMD GPU driver

A Dafny model of the parts of the driver that own memory the GPU can reach, and of the
parsers and renderers around it, with proofs of what each step keeps and of what holds over
whole runs. The GPU, its two memory hubs, firmware and failing calls are nondeterministic:
any acknowledgement may fail to arrive, a posted write may be lost or land in two halves, and
the GPU may walk the page table or write a fence between any two steps of the driver.

Verify everything with `dafny verify dfyconfig.toml` (Dafny 4.11).

| module | models |
|---|---|
| Words | bytes, 64-bit words, alignment and powers of two |
| GartAllocator | the first-fit aperture allocator |
| GartState, GartBookkeeping, GartDriver | the GART mapping protocol: hardware view, bookkeeping, driver calls |
| ClientSessions, ClientShapes | session leases; allocation shapes |
| DriverState, DriverLifetime | clients, storage, quarantine, Stop GPU, client and driver Stop |
| ScratchSizing, AqlState, AqlQueues | scratch sizes and register words; persistent AQL queues |
| ClientSubmission | raw submissions, fences and waits |
| BoTable, SharedBuffers | the paged buffer table; exported VRAM |
| SqSlot, StopBarrier | the seqlock reader; the interrupt drain barrier |
| DiscoveryFormat, Discovery, DiscoveryRoundTrip | the IP discovery binary: meaning, parser, encoder |
| Terminal, Clipping, ScreenUpdate | terminal operations, clipping, differential screen update |
| Base64, KittyImage | base64; images as graphics commands, from the emitted bytes to the receiver's images |
| RomReader | the cached reader of the ATOM ROM |
| History | the monitor's rate window and buckets |

A class keeps the fields that the source updates in place; a pure module beside it holds the
specification and the lemmas. `Run` methods take an arbitrary list of calls and state what holds
over every run. A ghost `trace` or `history` records every state in between.

Choices worth knowing. A page-table entry is two 32-bit words, as it is written. Masks such as
`& ~(a - 1)` are `RoundUp`, the power-of-two test is `PowerOfTwo`, and `|` of disjoint fields is
`+`. Bytes are numbers below 256. Client identities are numbers that are not reused. Rates and
sample values are reals. A terminal passes over an ESC that opens neither a CSI sequence nor a
graphics command, as the interpreter's loop does; no encoded operation has such an ESC. The
allocators of video memory grant any addressable range that is disjoint from the live ones, or
refuse.

What the proofs found:

- `aql_queue_service` returns the old scratch block while the queue is mapped
  (dext/amdgpu/amdgpu_aql.cpp:101), which the general rule "no block is returned between a map
  attempt and an acknowledged unmap" would forbid. `AqlState.ScratchIsReturnedWhileMapped` is a
  concrete case, `AqlState.ReplacementReturnsMapped` and `AqlQueues.AqlQueues.Service` state exactly
  when it happens, and what the code relies on instead is proved: the processor is then waiting
  with no user of the old scratch.
- A row is clipped to `columns - 1` glyphs only if there is more than one column
  (amdgpu_mtop/render.h:46); `Clipping.RowFitsIff`.
- The SDMA fence slot is cleared before `beginSDMA` polls (dext/MacAMDGPU.cpp:4564-4567). That would
  lose a finished job's result, and is harmless only because admission polled already
  (`ClientSubmission.ClearingAPendingSlot`).
- The seqlock reader can return a torn payload after exactly 2^32 sequence steps within one read, and
  never earlier (`SqSlot.WrapTears`, `SqSlot.TornOnlyByWrap`).
- After a failed callback the ROM reader's cached value may no longer belong to its cached offset
  (dext/amdgpu/amdgpu_clock.h:49-52). Reading stops there, so no result is affected; the model
  promises nothing about a reader after a failure.
- The branch that frees a granted scratch block because the encoder rejects it
  (dext/amdgpu/amdgpu_aql.cpp:97-99) cannot be taken for addressable grants
  (`ScratchSizing.EveryCandidateIsEncoded`).

## Model

Rows marked as main results are the theorems the project is for; the others are the steps and
specifications that these rest on.

| member | source | states |
|---|---|---|
| GartAllocator.GARTApertureAllocator.Init | dext/amdgpu/amdgpu_gart_allocator.h:24-32 | Succeeds exactly for a nonempty page-aligned aperture inside 64 bits that, if one was set before, is the same one; an initialised aperture never changes |
| GartAllocator.GARTApertureAllocator.Find | dext/amdgpu/amdgpu_gart_allocator.h:34-61 | **Main result.** First fit: on success the lowest aligned offset that no live reservation overlaps, and the first free record; on failure with a free record and legal arguments no offset fits at all, so 129 passes always suffice |
| GartAllocator.GARTApertureAllocator.FurthestCollision | dext/amdgpu/amdgpu_gart_allocator.h:51-56 | One scan returns the furthest end among the colliding reservations, or the candidate itself exactly when nothing collides |
| GartAllocator.GARTApertureAllocator.Reserve | dext/amdgpu/amdgpu_gart_allocator.h:63-70 | **Main result.** A success adds one reservation with a new id, disjoint from all live ones, aligned and in bounds, at the lowest offset that fits; a failure changes nothing |
| GartAllocator.GARTApertureAllocator.Owns | dext/amdgpu/amdgpu_gart_allocator.h:72-78 | True exactly for the identity of a live reservation, so a stale binding is recognised |
| GartAllocator.GARTApertureAllocator.Release | dext/amdgpu/amdgpu_gart_allocator.h:80-89 | Removes exactly the named reservation if it is live, and nothing otherwise |
| GartAllocator.GARTApertureAllocator.BytesUsed | dext/amdgpu/amdgpu_gart_allocator.h:91-95 | The sum of the live sizes, which never exceeds the aperture (so cannot overflow), and zero exactly when nothing is live |
| GartAllocator.SizesAreCovered | dext/amdgpu/amdgpu_gart_allocator.h:91-95 | The sizes of disjoint live reservations add up to the number of offsets they cover, at most the aperture size |
| GartState.EntryDecodes | dext/amdgpu/amdgpu_gart.cpp:153-156 | A page-table entry written for a legal bus page translates to exactly that page, and an entry of which only one 32-bit half has landed does not translate |
| GartState.InvImpliesSafe | dext/amdgpu/amdgpu_gart.cpp:50-64 | **Main result.** The protocol invariant implies safety: every translation in the table or in either hub's TLB leads to memory that an owned binding keeps prepared |
| GartState.WalkKeepsInv | dext/amdgpu/amdgpu_gart.cpp:50-64 | A table walk by either hub at any moment keeps the invariant |
| GartState.WriteKeepsInv | dext/amdgpu/amdgpu_gart.cpp:153-156 | Any 32-bit write of an entry of an owned range towards its final or its cleared value keeps the invariant |
| GartState.PublishKeepsInv | dext/amdgpu/amdgpu_gart.cpp:140-149 | Publishing ownership of a disjoint, prepared range before any entry is written keeps the invariant |
| GartState.ClearedAndFlushedIsQuiet | dext/amdgpu/amdgpu_gart.cpp:250-255 | Cleared entries and two acknowledged invalidations together leave no translation of the binding anywhere |
| GartBookkeeping.ReadyEntriesTranslate | dext/amdgpu/amdgpu_gart.cpp:146-155 | **Main result.** Entry i of a ready binding translates to busAddr + 4096*i and to nothing else; the binding's reservation is live, its pages are in the table and gartMCAddr is the aperture base plus its offset |
| GartBookkeeping.UnreservedEntriesAreClear | dext/amdgpu/amdgpu_gart.cpp:248-255 | A table entry that no live reservation covers is zero |
| GartBookkeeping.BindingsAreReservations | dext/amdgpu/amdgpu_gart.cpp:140-148 | The live reservations are exactly the ranges that bindings hold, and no two bindings share a page |
| GartBookkeeping.WritesAgree | dext/amdgpu/amdgpu_gart.cpp:153-161 | Writes inside the pages of one binding that is not ready disturb no other binding's entries |
| GartBookkeeping.PublishAgrees | dext/amdgpu/amdgpu_gart.cpp:137-149 | A newly reserved binding agrees with the allocator and with every other binding |
| GartBookkeeping.RetirementAgrees | dext/amdgpu/amdgpu_gart.cpp:257-266 | Dropping a binding, its DMA mapping and its reservation together keeps all the others in agreement |
| GartBookkeeping.EmptyApertureMoves | dext/amdgpu/amdgpu_gart.cpp:106-113 | With no reservation live no binding holds a range, so the aperture base may be moved |
| GartBookkeeping.AdoptionKeepsObjects | dext/amdgpu/amdgpu_gart.cpp:217-228 | A binding that takes over the new buffer and DMA command is their only owner |
| GartBookkeeping.ReleaseObjects | dext/amdgpu/amdgpu_gart.cpp:262-266 | Releasing one binding's buffer and command releases no object that another binding names |
| GartBookkeeping.BoundKeepsPointers | dext/amdgpu/amdgpu_gart.cpp:224-228 | Whatever the bind of the prepared segment did, the binding can take over its objects without losing or sharing one |
| GartDriver.GartDriver.Init | dext/amdgpu/amdgpu_gart.cpp:66-96 | Succeeds exactly when the GMC is up with an addressable page-aligned aperture whose table lies in the visible BAR, and the allocator is new or already on that aperture; success adopts that aperture, any failure leaves the GART disabled, and bindings and reservations are untouched |
| GartDriver.GartDriver.ConfigureHostWindow | dext/amdgpu/amdgpu_gart.cpp:98-115 | Each refusal has exactly one cause: not enabled, an invalid window, a live reservation. The aperture moves at most once and only while no binding holds a range, so no mapped address ever moves; past the refusals the move is marked even if the hubs could not be programmed |
| GartDriver.GartDriver.MoveWindow | dext/amdgpu/amdgpu_gart.cpp:107-114 | The move sets the base of GART, GMC and allocator together and keeps all agreements, whether or not the hubs accept it |
| GartDriver.GartDriver.ProgramWindow | dext/amdgpu/gmc_v12_0.cpp:573-591 | After a success both hubs were flushed, and neither TLB holds a translation that the table no longer has; a failed register readback or flush is reported, and nothing but TLB contents changes in any case |
| GartDriver.GartDriver.Invalidate | dext/amdgpu/amdgpu_gart.cpp:50-64 | MMHUB, then GFXHUB; on success neither TLB holds a translation that the table no longer has |
| GartDriver.GartDriver.WriteVerified | dext/amdgpu/amdgpu_vram_io.h:19-39 | Words written, then all read back: success means the range holds the source; a failure may have left any part of it, and nothing outside it changes |
| GartDriver.GartDriver.ClearVerified | dext/amdgpu/amdgpu_vram_io.h:62-76 | Clears in chunks of 256 bytes; success means every entry of the range is zero |
| GartDriver.GartDriver.BindRange | dext/amdgpu/amdgpu_gart.cpp:117-166 | **Main result.** Either nothing changed, or the binding owns a new disjoint reservation and is ready exactly on success; success always means a complete, aligned mapping; a failure after publication keeps ownership |
| GartDriver.GartDriver.BindFresh | dext/amdgpu/amdgpu_gart.cpp:133-165 | The same for a binding without a range: find, bounds of the table, reserve, publish, write, invalidate |
| GartDriver.GartDriver.ReserveAndPublish | dext/amdgpu/amdgpu_gart.cpp:137-149 | Ownership is published with the reservation before any entry is written, or nothing changes |
| GartDriver.GartDriver.Upload | dext/amdgpu/amdgpu_gart.cpp:153-165 | `ready` is set exactly when all entries were verified and both hubs acknowledged |
| GartDriver.GartDriver.BindExisting | dext/amdgpu/amdgpu_gart.cpp:168-173 | The same promise for DMA memory that the caller keeps prepared |
| GartDriver.GartDriver.AllocateBacking | dext/amdgpu/amdgpu_gart.cpp:191-215 | Every failure releases the buffer and the command made so far; success leaves one new buffer and one new prepared command |
| GartDriver.GartDriver.BindSysmem | dext/amdgpu/amdgpu_gart.cpp:175-236 | **Main result.** Success gives a complete mapping of the rounded size; on every exit the objects newly alive are exactly those that the binding took over |
| GartDriver.GartDriver.BindOrUndo | dext/amdgpu/amdgpu_gart.cpp:216-236 | An unusable segment or an unpublished bind is undone through gart_unbind; if that fails the binding keeps both objects |
| GartDriver.GartDriver.BindBacked | dext/amdgpu/amdgpu_gart.cpp:224-228 | Objects are recorded in the binding whatever the outcome of the bind |
| GartDriver.GartDriver.Unbind | dext/amdgpu/amdgpu_gart.cpp:238-268 | **Main result.** On success the entries are gone from the table and both TLBs and exactly what the binding owned is released; on any failure everything it owned is retained |
| GartDriver.GartDriver.Detach | dext/amdgpu/amdgpu_gart.cpp:242-256 | `ready` is cleared first; success means nothing of the binding can be translated any more |
| GartDriver.GartDriver.ClearAndFlush | dext/amdgpu/amdgpu_gart.cpp:250-255 | Clearing and both invalidations; success means the binding is quiet, and no other page changed |
| GartDriver.GartDriver.Retire | dext/amdgpu/amdgpu_gart.cpp:257-267 | Objects, reservation and binding go together after DMA completion, or all are retained |
| GartDriver.GartDriver.ReleaseAfterReset | dext/amdgpu/amdgpu_gart.cpp:270-281 | After a verified reset the binding's objects go whatever CompleteDMA answers, and no other binding's |
| GartDriver.GartDriver.Restart | dext/amdgpu/amdgpu_gart.cpp:66-96 | **Main result.** After a verified reset with every binding released, nothing has leaked: the next session has no buffer, no DMA command, a cleared table of any size, an empty aperture wherever the GMC puts it, and no binding left over |
| GartDriver.GartDriver.Run | dext/amdgpu/amdgpu_gart.cpp:50-281 | **Main result.** Over any sequence of calls, resets and restarts, with any failures and walks in between: every state the GPU could observe in any session is safe, and within a session no reservation id is live twice |
| ClientSessions.AttachKeepsConsistent | dext/amdgpu/amdgpu_client_lifecycle.h:13-24 | Attaching keeps the accounts: participants counts the attached clients, an exclusive owner is alone, a device in bring-up has at most the lease holder |
| ClientSessions.ClaimKeepsConsistent | dext/amdgpu/amdgpu_client_lifecycle.h:25-30 | A successful exclusive claim means the claimer is the only attached client |
| ClientSessions.DetachKeepsConsistent | dext/amdgpu/amdgpu_client_lifecycle.h:35-40 | Detaching keeps the accounts |
| ClientSessions.ResetExcludesOthers | dext/amdgpu/amdgpu_client_lifecycle.h:31-34 | canReset holds if and only if no other client is attached |
| ClientSessions.ResetLeavesNobody | dext/MacAMDGPU.cpp:1670-1703 | An admitted, verified reset returns the table to its first state |
| ClientSessions.StepKeepsConsistent | dext/MacAMDGPU.cpp:739-764 | Every attach with failing PCI open, claim, detach, end of bring-up and reset keeps the accounts |
| ClientSessions.EveryRunIsConsistent | dext/amdgpu/amdgpu_client_lifecycle.h:8-41 | **Main result.** The accounts hold after every sequence of events of real clients |
| ClientSessions.SessionTable.Attach | dext/amdgpu/amdgpu_client_lifecycle.h:13-24 | The fields and the caller's flag end as the outcome about which the accounts are proved |
| ClientSessions.SessionTable.ClaimExclusive | dext/amdgpu/amdgpu_client_lifecycle.h:25-30 | Likewise for the exclusive claim |
| ClientSessions.SessionTable.Detach | dext/amdgpu/amdgpu_client_lifecycle.h:35-40 | Likewise for detaching, which clears lease and claim of that client only |
| ClientShapes.AllocationShape | dext/amdgpu/amdgpu_client_lifecycle.h:44-59 | **Main result.** Succeeds with the least power of two that covers both alignments and the least multiple of it that covers the size; fails exactly for a zero size, a bad minimum or a result beyond 64 bits |
| ClientShapes.NextPower | dext/amdgpu/amdgpu_client_lifecycle.h:51-55 | The doubling loop stops at the least sufficient power and never leaves 64 bits |
| DriverState.CoreIsSafe | dext/MacAMDGPU.cpp:1594-1596 | **Main result.** The invariant implies that everything a raw job, a firmware queue or a page-table mapping can reach over an enabled bus is still held by its client |
| DriverState.RetiredIsReleasable | dext/MacAMDGPU.cpp:1562-1582 | Queues unmapped, mappings unbound and no raw job together justify releasing a client's storage |
| DriverState.QuarantineKeepsAccounts | dext/MacAMDGPU.cpp:1826-1832 | Entering the quarantine with admission closed keeps the accounts |
| DriverState.FreeingKeepsQuarantine | dext/MacAMDGPU.cpp:1587-1591 | Freeing the head of the quarantine list frees no client twice |
| DriverState.EndedLast | dext/MacAMDGPU.cpp:1788-1821 | The last participant's close ends in a verified reset that releases everything, or in quarantine with admission closed |
| DriverState.EndedOthers | dext/MacAMDGPU.cpp:1805-1816 | A close with others attached releases that client alone or quarantines it; nobody else loses storage, a mapping or a queue |
| DriverState.StoppedInv | dext/MacAMDGPU.cpp:1698-1714 | After a verified Stop GPU nothing is held and the accounts start over |
| DriverState.FreeingEndsEverything | dext/MacAMDGPU.cpp:1396-1410 | When the stopped driver object is freed, the quarantine holds all that is left, and releasing it releases everything |
| DriverLifetime.MacAMDGPU.Quiesce | dext/MacAMDGPU.cpp:1597-1655 | Success is a function reset with bus mastering verified off; a failure at any phase at most stopped bus mastering |
| DriverLifetime.MacAMDGPU.Connect | dext/MacAMDGPU.cpp:1451-1494 | No client starts on a stopping driver; a started client is new |
| DriverLifetime.MacAMDGPU.EnsureOpen | dext/MacAMDGPU.cpp:739-788 | Success means admission is open, PCI is open and the caller is attached; a failed open detaches only a caller that this call attached |
| DriverLifetime.MacAMDGPU.Admit | dext/MacAMDGPU.cpp:887-941 | An admitted call finds the driver running and not blocked, the caller attached and no raw job alive; a raw submission's caller is alone |
| DriverLifetime.MacAMDGPU.Poll | dext/amdgpu/amdgpu_client_lifecycle.h:95-120 | Completion is accepted only when the raw job has finished |
| DriverLifetime.MacAMDGPU.BringUp | dext/MacAMDGPU.cpp:3031-3063 | Admission is closed by this call exactly if it reports a failure after work may have reached the hardware; success ends bring-up with the lease given back; nothing is released |
| DriverLifetime.MacAMDGPU.BoAlloc | dext/MacAMDGPU.cpp:4237-4350 | Success adds one buffer under a new handle; a partially published mapping keeps its entry and closes admission; other failures leave nothing |
| DriverLifetime.MacAMDGPU.BoFree | dext/MacAMDGPU.cpp:4394-4441 | Success removes exactly that buffer and its mapping; queue backing is busy; a failed unbind keeps the buffer and closes admission |
| DriverLifetime.MacAMDGPU.SubmitRaw | dext/MacAMDGPU.cpp:4525-4621 | An accepted submission is the only raw job: its client is the only one attached, the earlier job is over, and the buffers at stake are exactly the client's; a refusal leaves the raw job as it was |
| DriverLifetime.MacAMDGPU.QueueCreate | dext/MacAMDGPU.cpp:3937-3975 | Success fills a free slot backed by live buffers; a failure leaves slots, firmware and admission alone, or, if the map may have reached firmware, keeps exactly the new slot with its backing and closes admission |
| DriverLifetime.MacAMDGPU.QueueDestroy | dext/MacAMDGPU.cpp:3976-3995 | Success empties the caller's slot; an unacknowledged unmap retains it and closes admission |
| DriverLifetime.MacAMDGPU.RetireQueues | dext/MacAMDGPU.cpp:1550-1560 | Success leaves the client no queue; whatever happens, no other client's slot changes and a slot of the client is untouched, marked or emptied |
| DriverLifetime.MacAMDGPU.RetireStorage | dext/MacAMDGPU.cpp:1564-1582 | Mappings are unbound one by one; success releases all of the client's storage; a failure keeps what may still be reachable, and no other client loses a buffer or a mapping |
| DriverLifetime.MacAMDGPU.ReleaseStorage | dext/MacAMDGPU.cpp:1502-1548 | Releases the client's storage only where reset, closed PCI or retirement made it unreachable |
| DriverLifetime.MacAMDGPU.ReleaseQuarantine | dext/MacAMDGPU.cpp:1584-1592 | Empties the list, freeing every quarantined client once, in order |
| DriverLifetime.MacAMDGPU.StopGpu | dext/MacAMDGPU.cpp:1657-1718 | **Main result.** Success releases everything and reopens admission; any failure retains all backing, and after admission leaves admission closed |
| DriverLifetime.MacAMDGPU.AdmitStop | dext/MacAMDGPU.cpp:1670-1692 | Stop GPU is admitted only when no other client is attached, and closes admission |
| DriverLifetime.MacAMDGPU.FinishStop | dext/MacAMDGPU.cpp:1773-1842 | **Main result.** A client ends without storage or whole in quarantine with admission closed, at nobody else's expense; admission reopens only with a verified reset; quarantined clients are freed at most once |
| DriverLifetime.MacAMDGPU.CloseLast | dext/MacAMDGPU.cpp:1788-1804 | The last close resets and releases, or closes PCI and quarantines |
| DriverLifetime.MacAMDGPU.CloseOneOfMany | dext/MacAMDGPU.cpp:1805-1815 | With others attached there is no reset: the client's storage is retired or quarantined |
| DriverLifetime.MacAMDGPU.DriverStop | dext/MacAMDGPU.cpp:1372-1394 | Driver Stop gates new work and ends bus mastering; storage stays |
| DriverLifetime.MacAMDGPU.DriverFree | dext/MacAMDGPU.cpp:1396-1410 | **Main result.** Runs when no client is left, and frees every quarantined client |
| DriverLifetime.Step | dext/MacAMDGPU.cpp:1847-1916 | Each call keeps the invariant and the order of moments |
| DriverLifetime.Run | dext/MacAMDGPU.cpp:1550-1842 | **Main result.** Over every run: whatever the GPU can reach is held at every step; a buffer that disappears between two steps went after PCI was closed for good, after a verified reset, or with no raw job pending and neither a queue nor a mapping on it; admission reopens only across a verified reset; no client is freed twice or both freed and quarantined |
| ScratchSizing.GeometryIsSized | dext/amdgpu/amdgpu_aql_resources.h:15-31 | The sizes are accepted exactly for a supported layout with in-range counts, and then cover the requested lanes and waves within all register fields |
| ScratchSizing.Reduce | dext/amdgpu/amdgpu_aql.cpp:92-96 | **Main result.** The loop ends without underflow at the largest wave count, in steps of 32, for which the allocator grants the size, or reports that it grants none |
| ScratchSizing.SmallestCandidateFits | dext/amdgpu/amdgpu_aql.cpp:89-95 | The smallest candidate of every accepted geometry is 32 waves and needs less than 2^31 bytes |
| ScratchSizing.EveryCandidateIsEncoded | dext/amdgpu/amdgpu_aql_resources.h:32-45 | **Main result.** Every candidate size granted at an addressable 16 KiB-aligned base is accepted by the encoder, so the rejection after a grant cannot happen |
| ScratchSizing.TmpringDecodes | dext/amdgpu/amdgpu_aql_resources.h:54 | Both fields of the packed ring-size word decode back |
| ScratchSizing.EncodedWordsDecode | dext/amdgpu/amdgpu_aql_resources.h:46-54 | All encoded words fit 32 bits and decode back to base, size, lane bytes and waves, which the block covers |
| AqlState.InvIsSafe | dext/amdgpu/amdgpu_aql.cpp:224-233 | The invariant implies that a queue the command processor may own uses only allocated blocks and live ring and metadata buffers |
| AqlState.ReplacementReturnsMapped | dext/amdgpu/amdgpu_aql.cpp:101-102 | **Main result.** Exact condition: replacing scratch returns a block of a possibly mapped queue if and only if that queue may be mapped and already has scratch |
| AqlState.ScratchIsReturnedWhileMapped | dext/amdgpu/amdgpu_aql.cpp:101 | A concrete mapped queue that shows the old block returned before any unmap |
| AqlState.ServiceReturnsMapped | dext/amdgpu/amdgpu_aql.cpp:186-223 | The same condition for a whole service call |
| AqlState.ReplacementIsOrderly | dext/amdgpu/amdgpu_aql.cpp:83-104 | Allocate, return the old block, take the new one: at each step the processor either keeps its scratch or is waiting for other scratch |
| AqlState.GivingBackUndoes | dext/amdgpu/amdgpu_aql.cpp:153-156 | Returning both blocks undoes their allocation exactly |
| AqlState.TakeStorageKeepsInv | dext/amdgpu/amdgpu_aql.cpp:128 | A granted block is held by one slot only |
| AqlState.ReturnStorageKeepsInv | dext/amdgpu/amdgpu_aql.cpp:231 | Storage of a queue the processor does not own may be returned, once |
| AqlState.ReturnScratchKeepsInv | dext/amdgpu/amdgpu_aql.cpp:230 | Likewise for scratch |
| AqlQueues.Scan | dext/amdgpu/amdgpu_aql.cpp:196-214 | Returns the scratch request of the first published kernel packet that has one, looking at no more than the ring and stopping at the first unpublished packet |
| AqlQueues.ChooseBlock | dext/amdgpu/amdgpu_aql.cpp:83-100 | The block chosen is a candidate size that the encoder accepts; a failure means no candidate was granted |
| AqlQueues.AqlQueues.AllocateScratch | dext/amdgpu/amdgpu_aql.cpp:83-104 | Either the slot's scratch is replaced by a granted block of a candidate size for the requested lane bytes that the encoder accepts, or nothing changed |
| AqlQueues.AqlQueues.Prepare | dext/amdgpu/amdgpu_aql.cpp:128-156 | Every failure before the map attempt gives back exactly what was allocated; a success serves the requested scratch |
| AqlQueues.AqlQueues.OpenQueue | dext/amdgpu/amdgpu_aql.cpp:106-164 | Success maps the slot; a failed map keeps the blocks and marks the slot retained; any earlier failure leaves no trace |
| AqlQueues.AqlQueues.CloseQueue | dext/amdgpu/amdgpu_aql.cpp:224-233 | Blocks go back exactly once, after an acknowledged unmap; otherwise the slot is retained whole |
| AqlQueues.AqlQueues.Kick | dext/amdgpu/amdgpu_aql.cpp:172-185 | The doorbell becomes the maximum of what was published: it never moves back |
| AqlQueues.AqlQueues.Service | dext/amdgpu/amdgpu_aql.cpp:186-223 | **Main result.** Acts only on a pure scratch request of a mapped queue; the new block serves the first request published in the ring, the signal is cleared, and a block is returned while mapped exactly when the queue had scratch |
| AqlQueues.AqlQueues.Create | dext/MacAMDGPU.cpp:3937-3975 | Success claims an empty slot for two live buffers that no queue of the owner uses, under a new handle; a failure leaves nothing or closes admission |
| AqlQueues.AqlQueues.Destroy | dext/MacAMDGPU.cpp:3976-3995 | Success empties the owner's slot; a failure retains it and closes admission |
| AqlQueues.AqlQueues.FreeBo | dext/MacAMDGPU.cpp:4394-4406 | A ring or metadata buffer of an owned slot is never freed |
| AqlQueues.Run | dext/amdgpu/amdgpu_aql.cpp:83-233 | **Main result.** Over every run: at each step the processor uses only live storage, every allocated block is held by exactly one slot, doorbells are monotone, and ring and metadata of owned slots stay live |
| ClientSubmission.CompleteKeepsFences | dext/amdgpu/amdgpu_client_lifecycle.h:109-118 | Seeing the expected value completes exactly the pending job, which the GPU wrote, and loses no earlier result |
| ClientSubmission.BeginSdmaKeepsFences | dext/amdgpu/amdgpu_client_lifecycle.h:121-134 | Reusing the slot under the next value loses no earlier completion |
| ClientSubmission.EmitKeepsFences | dext/amdgpu/cp_v12_0.cpp:144-158 | The emitted value is one that the slot cannot show yet |
| ClientSubmission.ReportedWasWritten | dext/MacAMDGPU.cpp:4875-4897 | A fence that was handed out and is reported was written by the GPU and is not the pending one |
| ClientSubmission.Settled | dext/MacAMDGPU.cpp:4875-4897 | **Main result.** A fence handed out is reported if and only if it is not the pending one |
| ClientSubmission.ClearingAPendingSlot | dext/MacAMDGPU.cpp:4561-4567 | Clearing the slot before the poll of beginSDMA is harmless for a pending job exactly as long as the GPU has not written it |
| ClientSubmission.ClientSubmission.Poll | dext/amdgpu/amdgpu_client_lifecycle.h:95-120 | Completion exactly when the pending job's own value was written and could be read; the result is latched and the observer fires once |
| ClientSubmission.ClientSubmission.BeginSDMA | dext/amdgpu/amdgpu_client_lifecycle.h:121-134 | A successful value is the next one, never zero and never all-ones, and no earlier job is in flight |
| ClientSubmission.ClientSubmission.BeginCP | dext/amdgpu/amdgpu_client_lifecycle.h:135-146 | Success means nothing was pending; failure changes no job |
| ClientSubmission.ClientSubmission.SubmitSDMA | dext/MacAMDGPU.cpp:4548-4595 | Success leaves this submission pending under a new value; a busy refusal leaves slot, value and job as they were |
| ClientSubmission.ClientSubmission.EmitFence | dext/amdgpu/cp_v12_0.cpp:144-158 | The counter advances even if the packet does not fit; a returned fence is new and becomes the expected one |
| ClientSubmission.ClientSubmission.SubmitGFX | dext/MacAMDGPU.cpp:4596-4670 | The same for the graphics ring, for a command submission and for the older direct form |
| ClientSubmission.ClientSubmission.Await | dext/MacAMDGPU.cpp:4873-4903 | Success means the GPU wrote this very fence; a timeout means it is not reported |
| ClientSubmission.ClientSubmission.Wait | dext/MacAMDGPU.cpp:4855-4905 | The same for a command submission: success means its fence was written, or that nothing was submitted on it |
| ClientSubmission.ClientSubmission.WaitLegacy | dext/MacAMDGPU.cpp:4913-4937 | Accepts exactly the last direct fence, with the same promise |
| ClientSubmission.Run | dext/MacAMDGPU.cpp:4525-4937 | **Main result.** Over every run: a fence is reported if and only if it is not pending, only after the GPU wrote it, and no observer fires twice |
| BoTable.HandleRoundTrip | dext/MacAMDGPU.cpp:522-533 | Index and generation of a handle decode back |
| BoTable.InsertRefines | dext/MacAMDGPU.cpp:4220-4235 | Using a free slot under the next generation adds exactly one new handle to the plain map |
| BoTable.RemoveRefines | dext/MacAMDGPU.cpp:4434-4440 | Freeing an entry removes exactly its handle |
| BoTable.SwapIdlePageRefines | dext/MacAMDGPU.cpp:551-562 | Dropping or adding a page without used entries does not change the map |
| BoTable.BoTable.Lookup | dext/MacAMDGPU.cpp:543-549 | Any number resolves if and only if it is a live handle, then to that handle's own buffer |
| BoTable.BoTable.FindFreeSlot | dext/MacAMDGPU.cpp:564-586 | Existing pages keep their place and contents; no resources exactly when the generations are used up or every entry of every page is in use |
| BoTable.BoTable.Alloc | dext/MacAMDGPU.cpp:4216-4350 | Success adds a handle that was never live or retired; pages in use do not move; an uncertain mapping keeps its entry without giving the handle out |
| BoTable.BoTable.Free | dext/MacAMDGPU.cpp:4394-4441 | Success retires exactly that handle; a failure changes nothing; unknown handles are refused |
| BoTable.BoTable.ReleaseAll | dext/MacAMDGPU.cpp:1510-1538 | All handles are retired and all pages dropped |
| BoTable.Run | dext/MacAMDGPU.cpp:519-586 | **Main result.** Over every run the table resolves exactly the live handles, never a freed one, and hands out no handle twice |
| SharedBuffers.LastHolderIsLast | dext/amdgpu/amdgpu_shared_buffers.h:31-34 | A count of one belongs exactly to the only entry that holds the range |
| SharedBuffers.PublishKeepsInv | dext/MacAMDGPU.cpp:4352-4368 | Exporting turns a private range into a record with one reference |
| SharedBuffers.RetainKeepsInv | dext/MacAMDGPU.cpp:4369-4393 | Importing adds one entry and one reference |
| SharedBuffers.ReleaseKeepsInv | dext/MacAMDGPU.cpp:4409-4419 | Releasing removes one entry and one reference, and the range with the last |
| SharedBuffers.SharedVram.Find | dext/amdgpu/amdgpu_shared_buffers.h:14-19 | Finds the record that carries the token, if any; the zero token finds nothing |
| SharedBuffers.SharedVram.Export | dext/MacAMDGPU.cpp:4352-4368 | A repeated export returns the same record; a refusal has one of the listed causes and changes nothing |
| SharedBuffers.SharedVram.Import | dext/MacAMDGPU.cpp:4369-4393 | Refused exactly if no record carries the token with this size and room for one more reference; success adds an entry on that record, and a refusal changes nothing |
| SharedBuffers.SharedVram.Release | dext/MacAMDGPU.cpp:4409-4419 | The range goes back to its allocator exactly when no other entry of any client holds it |
| SharedBuffers.SharedVram.ReleaseClient | dext/MacAMDGPU.cpp:1510-1535 | Releases every entry of one client and no other |
| SharedBuffers.Run | dext/amdgpu/amdgpu_shared_buffers.h:5-35 | **Main result.** Over every run each count equals the number of entries that hold the record, the allocated ranges are exactly the held ones, and each grant is freed at most once |
| SqSlot.Slot.Read | dext/MacAMDGPU.cpp:2366-2390 | A successful read returns the three words published together under the returned sequence, if fewer than 2^32 steps of the sequence passed during the read; a quiet published slot can always be read |
| SqSlot.TornOnlyByWrap | dext/MacAMDGPU.cpp:2367-2375 | **Main result.** Five loads at any moments of a writer that pass the check agree with one moment, unless the sequence went once around |
| SqSlot.WrapTears | dext/MacAMDGPU.cpp:2375 | **Main result.** And once around is enough to tear a read, so the bound is exact |
| StopBarrier.StopBarrier.Drained | dext/MacAMDGPU.cpp:1753-1757 | A drain callback retires its source; only the last one, with the sentinel gone, dispatches |
| StopBarrier.StopBarrier.CancelSource | dext/MacAMDGPU.cpp:1750-1768 | Nothing is dispatched while the cancel loop runs, even by synchronous callbacks; a source that can neither cancel nor disable stays |
| StopBarrier.StopBarrier.Stop | dext/MacAMDGPU.cpp:1723-1771 | A second Stop does nothing; a failed one changes nothing; afterwards exactly the promised and the stuck sources are left |
| StopBarrier.StopBarrier.DispatchedExactlyOnce | dext/MacAMDGPU.cpp:1727-1770 | FinishStop has been dispatched once if the loop ended and no source is left, and not at all otherwise or if a source is stuck |
| StopBarrier.Run | dext/MacAMDGPU.cpp:1723-1771 | **Main result.** For any sources and any order of callbacks: at most one dispatch, exactly when all sources drained, never with a stuck source |
| Discovery.ComputeChecksum | dext/amdgpu/amdgpu_discovery.cpp:39-43 | The 16-bit sum of all bytes |
| Discovery.ReadBases | dext/amdgpu/amdgpu_discovery.cpp:230-249 | At most eight bases, the high bits of wide ones dropped, read inside the record |
| Discovery.ParseRecord | dext/amdgpu/amdgpu_discovery.cpp:211-283 | One record is decoded and applied to the table exactly if it lies inside the table end, else parsing fails |
| Discovery.ParseRecords | dext/amdgpu/amdgpu_discovery.cpp:206-284 | A die's records: the fold of its decoded records, or failure exactly where the decoding fails |
| Discovery.ParseDies | dext/amdgpu/amdgpu_discovery.cpp:194-285 | All dies: the fold of all decoded records in order |
| Discovery.DiscoveryParse | dext/amdgpu/amdgpu_discovery.cpp:128-310 | **Main result.** For every byte string: success exactly if the declared part decodes, and then the device table is exactly the decoded one; otherwise it is unchanged |
| DiscoveryFormat.TailIsIgnored | dext/amdgpu/amdgpu_discovery.cpp:152-164 | Bytes behind the declared size have no influence |
| DiscoveryRoundTrip.RecsDecode | dext/amdgpu/amdgpu_discovery.cpp:206-284 | An encoded record list decodes to itself |
| DiscoveryRoundTrip.DiesDecode | dext/amdgpu/amdgpu_discovery.cpp:194-285 | An encoded die directory with its dies decodes to all their records |
| DiscoveryRoundTrip.RoundTrip | dext/amdgpu/amdgpu_discovery.cpp:128-310 | **Main result.** Parsing the encoding of any encodable dies, with or without a GC_INFO table and with any tail, gives the fold of their records and the geometry that the words of the GC table mean; it is refused exactly if that table is one to refuse |
| DiscoveryRoundTrip.GcDecodes | dext/amdgpu/amdgpu_discovery.cpp:45-90 | A GC_INFO table standing at its offset under its own checksum decodes to what its words mean, or is refused, for every version and every list of words that fits the format |
| DiscoveryRoundTrip.EveryGfxHasATable | dext/amdgpu/amdgpu_discovery.cpp:45-90 | Every plausible geometry is the meaning of some table |
| DiscoveryRoundTrip.LastRecordWins | dext/amdgpu/amdgpu_discovery.cpp:251-263 | The last instance-0 record of a known block decides its version and the bases it lists |
| Terminal.ParseOfEncoded | scripts/preview-mtop-terminal.py:9-31 | **Main result.** Parsing the bytes of any valid glyphs, control bytes, CSI sequences and graphics commands gives back those operations |
| Terminal.Interpret | scripts/preview-mtop-terminal.py:9-31 | The text part of the loop computes the effect of the parsed operations, and fails exactly where the text does not parse; a lone ESC is passed over |
| Clipping.ClipColumns | amdgpu_mtop/render.h:22-37 | The loop computes the clipped text, a prefix of its input |
| Clipping.ClipMeansOps | amdgpu_mtop/render.h:22-37 | Clipping the bytes of a line is clipping its operations: no glyph or style sequence is cut apart |
| Clipping.ClipKeepsFirst | amdgpu_mtop/render.h:22-37 | The clipped line has the first glyphs of the line, as many as fit |
| Clipping.RowFitsIff | amdgpu_mtop/render.h:46 | **Main result.** Emitted rows have at most columns-1 glyphs for all lines if and only if columns exceeds one |
| ScreenUpdate.ExecRow | amdgpu_mtop/render.h:48 | Drawing a row changes that row alone, to the image of its line, whatever the terminal showed before |
| ScreenUpdate.ChangesShow | amdgpu_mtop/render.h:45-50 | Redrawing only the changed rows shows all of the new rows |
| ScreenUpdate.UpdateShows | amdgpu_mtop/render.h:41-53 | The emitted bytes parse, and executing them shows the new frame, given a screen that shows the old one or a cleared one |
| ScreenUpdate.Frame.Update | amdgpu_mtop/render.h:41-53 | The bytes emitted are the clear on a change of size and one drawing for each changed row; the remembered rows are the clipped lines, padded to the height |
| ScreenUpdate.Session.Draw | amdgpu_mtop/render.h:41-53 | After each frame the terminal shows the image of every clipped line |
| ScreenUpdate.Redraw | amdgpu_mtop/render.h:41-53 | One frame on a fresh Frame and a blank terminal shows the image of every clipped line |
| ScreenUpdate.Run | amdgpu_mtop/render.h:38-54 | **Main result.** After any sequence of frames and sizes the screen equals the one of the last frame drawn from scratch |
| Base64.RoundIsEncoding | amdgpu_mtop/render.h:59-61 | One round emits the encoding of section 4 of RFC 4648 of its one to three bytes |
| Base64.Encode | amdgpu_mtop/render.h:55-64 | The loop computes that encoding for every input |
| Base64.RoundTrip | amdgpu_mtop/render.h:55-64 | **Main result.** Decoding gives back every input, and the length is four characters for each started group of three |
| KittyImage.PixelImage | amdgpu_mtop/render.h:98-112 | The bytes emitted for a Kitty terminal are the cursor move, a delete and the chunks of the encoded image, or nothing for no image |
| KittyImage.ChunksAreWellChunked | amdgpu_mtop/render.h:105-110 | Every payload has at most 4096 bytes, exactly the last chunk is marked m=0, and exactly the first carries the placement |
| KittyImage.ChunksArrive | scripts/preview-mtop-terminal.py:13-17 | Performing the chunks adds up their payloads to the encoded text, and the image is shown when the last one arrives |
| KittyImage.Interpret | scripts/preview-mtop-terminal.py:9-31 | The whole loop over any bytes computes what the text does to screen and images, and fails exactly where the interpreter does |
| KittyImage.PlayKeepsText | scripts/preview-mtop-terminal.py:9-31 | Graphics commands leave the text alone: the screen of the whole loop is the one of its text part |
| KittyImage.FieldReadsBack | scripts/preview-mtop-terminal.py:11-12 | Each field of a command reads back as it was written, the last one of its key |
| KittyImage.CommandIsReceived | scripts/preview-mtop-terminal.py:11-17 | The text of every command, split at semicolon, commas and equals signs, does to the images what the command means |
| KittyImage.CommandsArrive | scripts/preview-mtop-terminal.py:9-18 | The framed bytes of any commands do, in order, what the commands mean, and leave the screen alone |
| KittyImage.ImageArrives | amdgpu_mtop/render.h:98-112 | **Main result.** After the emitted bytes, whatever the terminal showed and held before: no cell changed, the cursor is in the second column of the row, nothing is pending, exactly this image stands there under its id, its data decodes to the original bytes, and no other image changed |
| RomReader.LaneIsByte | dext/amdgpu/amdgpu_clock.h:46-54 | Shifting and masking a dword gives the image's own byte |
| RomReader.ROMReader.LoadByte | dext/amdgpu/amdgpu_clock.h:45-55 | A byte of the image, from the cache or by one aligned request inside the limit |
| RomReader.ROMReader.Read | dext/amdgpu/amdgpu_clock.h:42-57 | Without a failing callback, exactly the direct little-endian value or a refusal exactly outside the limit; every request aligned and inside the limit |
| RomReader.ROMReader.Table | dext/amdgpu/amdgpu_clock.h:58-62 | Accepts exactly the tables that direct decoding accepts, with their version |
| RomReader.TimestampFrequency | dext/amdgpu/amdgpu_clock.h:74-119 | **Main result.** The same frequency or refusal as direct decoding of the image; every request is aligned and inside the declared length |
| RomReader.OutsideIsIgnored | dext/amdgpu/amdgpu_clock.h:84-118 | Bytes behind the declared length have no influence on the result |
| History.SpanBelowThree | amdgpu_mtop/history.h:75-81 | After trimming, a window of two or more readings spans less than three seconds and no counter difference underflows |
| History.EverySampleOnce | amdgpu_mtop/history.h:107-115 | Every shown point falls into exactly one column |
| History.ColumnsAreInOrder | amdgpu_mtop/history.h:111-112 | Later points never fall further left, and a point of this moment falls into the last column |
| History.History.Rate | amdgpu_mtop/history.h:56-95 | Rates come from the trimmed window and exist exactly if it covers a second; a reset or gap starts over; a repeated reading repeats the last rates |
| History.History.Average | amdgpu_mtop/history.h:73-88 | New rates cover at least one and less than three seconds and are the differences over that time |
| History.History.TrimWindow | amdgpu_mtop/history.h:75-76 | The loop keeps the shortest window that still covers a second |
| History.History.Append | amdgpu_mtop/history.h:96-98 | A clock that went back starts over, an equal time replaces the last point |
| History.History.DropOld | amdgpu_mtop/history.h:99-100 | What is kept is the latest part, within a minute and 1200 points |
| History.History.Add | amdgpu_mtop/history.h:51-101 | The new sample is the last point, and the points are the latest part of all kept since the last restart |
| History.History.Buckets | amdgpu_mtop/history.h:102-118 | **Main result.** Each column is the mean of exactly the shown points that fall into it, or empty |
| History.Run | amdgpu_mtop/history.h:51-101 | **Main result.** After any samples: strictly increasing times, at most 1200 points and 60 seconds, and every shown rate covers at least one and less than three seconds |

## Left out

- IOKit, DriverKit and SwiftUI plumbing, logging and the argument checks of the selectors: foreign calls without state of their own.
- The inside of MMIO, PCI configuration and firmware calls: such a call succeeds, fails or times out by choice, and only its success tells the driver anything. The bus-mastering bit, function reset and PCI close are single steps.
- The atomic requester experiment that Stop GPU and driver Stop also restore.
- One-shot AQL dispatch (`aql_launch`), the contents of queue descriptors and compute masks.
- The legacy DMA buffer of a client with its bump cursor, and the contents of raw command buffers. A raw packet that writes a fence slot or arbitrary memory, and references from running kernels to data buffers, are not tracked by the driver and so not by the model.
- Ordering below sequentially consistent steps: atomics, fences and the host data path flush are single steps.
- HDP cache effects: a table write is visible to walks when it lands.
- The firmware pin interface and power states.
- CS handles with their 16-bit generation, which may repeat; a submission is named by a number.
- Reuse of a client's address for another client: clients are numbered.
- client_subrange and client_wait_ns, straight-line range checks.
- Version fields, counts and error texts of the discovery result, and the on-die bootstrap of discovery. A comment speaks of the first GC record, but the code reports the last; only the table is modelled.
- TimestampClockDiagnostics.
- iTerm output, PNG compression, palettes and charts: an image is its bytes.
- KittyImage.Interpret: a size in a command must be plain decimal digits; the signs, blanks and underscores that Python's `int` also takes count as a failure.
- Glyph widths: each glyph is one cell, as in the interpreter; wide and combining characters are not modelled.
- A terminal that is resized and resized back between two frames, which the frame cannot notice.
- Clock minima and maxima, the busy ratio and non-finite values in the monitor's history.
- AqlQueues.Run: a mapped queue may lose its old scratch block in a service call, so "never between map and unmap" is stated for storage always and for scratch unless the processor waits for other scratch.
- SqSlot.Slot.Read: claims nothing about a read during which the 32-bit sequence goes once around.
- RomReader.TimestampFrequency: claims nothing about the value when a callback failed.
- BoTable.BoTable.Alloc: which allocation fails is nondeterministic; the allocator behind it is not modelled here.
