# Verified models of the Symbiote exception path, CPU evacuation and kld

Symbiote lets application threads run in supervisor mode. This project models, in Dafny, the parts of
the repository whose correctness is hardest to see, and proves what they promise:

- **Exception-frame interposition** (`examples/kcuttest`). A module clones the interrupt descriptor table,
  sends every gate without an IST to a per-vector stub on IST7, and lets an assembly trampoline move the
  frame from the IST page to the stack the original handler expects. `Machine`, `Trampoline`, `Nesting`,
  `Idt`, `EfAdaptor`, `PfAdaptor`, `Dispatch`.
- **Exclusive CPUs** (`examples/kcuttest/evacuate.kc`). A task pins itself to a CPU and pushes all others off
  it; masks are saved on one LIFO list that any release, and any failed acquire, drains. `Evacuate`,
  `EvacuateRuns`.
- **kld's synthetic file system** (`examples/tools/src/kld/fs.c`). Inode table with an intrusive free list,
  two indexes per directory, removal that purges emptied ancestors, cleanup in one pass. `Tree`, `FsModel`,
  `FsDuplicates`, `Fs`.
- **kld's symbol libraries** (`examples/tools/src/kld/elf.c`, `main.c`). kallsyms lines split per module into
  growing tables, written as ELF string and symbol tables, and read back. `Elf`, `Kallsyms`.
- Two smaller pieces: the older push/pop/XOR interposer (`Interposer`) and the hexadecimal address parser
  (`HexParse`).

Code that updates state is a class or a method with the source's own fields and loops. Each such method is
proved against a function or predicate on values, and the theorems are about those.

## Main results

1. *The detour is invisible.* `Trampoline.TakeException`, `Dispatch.DispatchException`: from any delivered
   state outside the double-fault branch, the original handler starts with all registers but rsp and both GS
   bases as delivered, on the frame copied just below the right stack. The words it finds there are those
   delivered, unless an error code was pushed, the task is elevated and CR2 is a user address: then CS and SS
   are those of user mode, bit 2 of the error code is set, and every other bit and word is as delivered. The
   processor's stack and entry point come from the fields of the redirected gate itself.
2. *The double-fault branch, as coded.* It is a test of signs, not of the guard page; the two agree exactly
   under the condition of `Trampoline.DoubleFaultGuardAgreement`. That branch also forgets to undo `swapgs`:
   it leaves the delivered state alone if and only if the delivered GS base was already the kernel's
   (`Trampoline.TakeException`, `Trampoline.UntouchedIff`). `Trampoline.SwapgsIsLost` and
   `Trampoline.SwapgsIsLostInRun` give an input on which it does not: a fault of the kernel's own `iretq` with
   an old kernel address in CR2.
3. *Nested exceptions are safe* although all of them land on one IST page: `Nesting.NestingSafety` at every
   depth of every run, `Nesting.ExceptionIsBracketed` for the state an exception leaves behind.
4. *Handlers are preserved* over every run of redirections and at every instant, on every CPU: while handlers
   are being saved one by one, and while the CPUs reload in any order. Each instant is judged by the handlers
   saved at that instant. No page is freed while a CPU can use it. `EfAdaptor.HandlerPreservation`,
   `EfAdaptor.ChangedOverRuns`, `EfAdaptor.Adaptor.InitInRun`, `Idt.IdtAdaptor.Activate`. The three-vector
   installer preserves them exactly under the condition of `PfAdaptor.LeadsIff`: a refused call that was told a
   wrong handler notes it all the same, and a later right call then installs it (`PfAdaptor.RefusedCallPoisons`).
5. *Masks come back, or exactly these do not.* `EvacuateRuns.RunKeeps`, `EvacuateRuns.LifoRestoration`: over
   any run of overlapping acquires, releases, failed acquires, failed saves and task exits, whenever the list is
   empty a live task has the mask it started with if and only if no acquire of the run changed its mask while
   its save failed and no older save existed. `EvacuateRuns.MaskStaysIff` says before an acquire whose mask it
   changes.
6. *Held CPUs are exclusive* until the next drain: `EvacuateRuns.ExclusivityOverRuns`. On the only CPU exactly
   the tasks of `EvacuateRuns.SignalledExactly` are killed. Init and kernel threads are left alone over every
   run: `EvacuateRuns.ExemptOverRuns`.
7. *Cleanup is total, exactly for distinct names.* `Fs.Session`: after any creations that fit the table, with
   distinct names among siblings, one pass removes every item once, touches no freed one, trips no assert, and
   frees all inodes. `FsDuplicates.CleanupPassesIff`: with any repeated sibling name it cannot get to its end.
   `Tree.PurgedExactly` says without recursion what purging deletes.
8. *Every line is found again.* `Kallsyms.PrcKallsyms`: each line of the listing is in the library of its
   module, after the earlier lines of that module, with its address and with the binding and type of its letter;
   reading the library gives back its name and address. Libraries read back exactly if every symbol is
   addressable with 32 bits: `Kallsyms.LibraryReadsBack`, `Elf.ElfRoundTrip`.

## Reading the model

- A 64-bit word is an `int` in range; wrap-around, sign and single bits are written out (`Machine`).
- Memory maps the byte address of each 64-bit word to its value. All accesses of the modelled runs coincide
  or do not overlap, so this is exact.
- Delivery follows section 6.14 of the Intel SDM, volume 3A: SS, RSP, RFLAGS, CS, RIP and, for some vectors, an
  error code, pushed below the IST top. RFLAGS bit 29 is reserved, hence 0 on delivery.
- `THREAD_SIZE` is 16 KiB, the kernel's value for x86-64.
- Assumed of the kernel: the IST top is page aligned and its page is apart from the destination words; a
  negative active GS base is the per-CPU base, and otherwise the per-CPU base is the inactive one; a task that
  acquires a CPU is running on an online CPU of its own mask; nobody else writes masks; online CPUs do not
  change.
- Page allocation, `kmalloc` and CPU-mask allocation, the order of cross-calls, the order of the task list, the
  result of raising a priority, and the exit of tasks are parameters, so every outcome is covered.
- Asserts of the C code are Dafny asserts; use of freed memory and buffer overruns are unprovable steps.

Where code and comments disagree the code is followed: the comment before the double-fault test speaks of the
page below the kernel stack (`examples/kcuttest/pfasm.kS:203`), the code tests a sign.

## Model

| member | source | states |
|---|---|---|
| Machine.Cpu.RepMovsq | examples/kcuttest/pfasm.kS:243-246 | the copy loop moves exactly rcx words between disjoint ranges and writes nothing else |
| Machine.UserBitOnly | examples/kcuttest/pfasm.kS:235 | the rewritten error code has bit 2 set and every other bit as before |
| Trampoline.Stub | examples/kcuttest/efasm.kS:57-67 | stub v leaves the saved handler of v as a return address and every register but rsp as it was |
| Trampoline.Spill | examples/kcuttest/pfasm.kS:174-185 | rdi, rsi, rcx lie below the return address and rdi holds the interrupted rsp |
| Trampoline.ChooseNoErrCode | examples/kcuttest/pfasm.kS:322-338 | the destination is the interrupted kernel stack or tss.sp0, both GS bases end as they began, and GS-relative reads happen only with the per-CPU base active |
| Trampoline.FixIstNoErrCode | examples/kcuttest/pfasm.kS:302-366 | the frame without error code is moved word for word, registers and GS bases kept, handler entered |
| Trampoline.ActivateKernelGs | examples/kcuttest/pfasm.kS:187-192 | the per-CPU base is active afterwards and RFLAGS is marked exactly if swapgs was used |
| Trampoline.ChooseErrCode | examples/kcuttest/pfasm.kS:195-221 | the destination, and that the double-fault jump is taken exactly under the coded guard |
| Trampoline.RewriteFrame | examples/kcuttest/pfasm.kS:223-238 | EC, CS and SS change exactly when the task is elevated and CR2 is non-negative |
| Trampoline.ShownIsFound | examples/kcuttest/pfasm.kS:223-238 | the words of the frame one by one: as delivered, or with CS 0x33, SS 0x2b and only bit 2 of the error code set |
| Trampoline.CopyFrame | examples/kcuttest/pfasm.kS:241-249 | the words above rsp are copied just below rdi and rsp points at the copy |
| Trampoline.UnmarkSwap | examples/kcuttest/pfasm.kS:251-254 | swapgs is undone exactly if the mark is there, and the mark is removed |
| Trampoline.Unspill | examples/kcuttest/pfasm.kS:256-275 | the spilled registers and the return address are taken from the new stack |
| Trampoline.JumpToDoubleFault | examples/kcuttest/pfasm.kS:210-215 | the spilled registers are restored and the double-fault handler entered |
| Trampoline.FixIstErrCode | examples/kcuttest/pfasm.kS:174-275 | both ways out of the trampoline with error code, complete |
| Trampoline.ParityTellsErrorCode | examples/kcuttest/pfasm.kS:170-172 | below a page-aligned top the parity of rsp tells whether an error code was pushed |
| Trampoline.FixIst | examples/kcuttest/pfasm.kS:164-277 | the entry of every stub: either trampoline, chosen by parity |
| Trampoline.TakeException | examples/kcuttest/pfasm.kS:164-366 | stub and trampoline are invisible outside the double-fault branch, and the words below the chosen stack top are stated one by one; inside it the frame stays, and the delivered state is untouched if and only if the delivered GS base was negative |
| Trampoline.UntouchedIff | examples/kcuttest/pfasm.kS:187-215 | what the double-fault branch does is invisible exactly if the kernel's GS base was active before |
| Trampoline.DoubleFaultGuardIsASignTest | examples/kcuttest/pfasm.kS:199-208 | for every stack the guard is: error code, kernel rsp, kernel CR2, and a stack top whose fifth page below is a kernel address |
| Trampoline.DoubleFaultGuardAgreement | examples/kcuttest/pfasm.kS:199-208 | the coded guard and the documented one agree exactly when CR2 is a user address or on the fifth page below the stack's top |
| Trampoline.StaleCr2GoesToDoubleFault | examples/kcuttest/pfasm.kS:199-215 | an input on which they differ: a kernel fault with a stale kernel address in CR2 |
| Trampoline.SwapgsIsLost | examples/kcuttest/pfasm.kS:187-215 | on that input, after the kernel's own swapgs, the double-fault handler starts with the GS bases exchanged |
| Trampoline.SwapgsIsLostInRun | examples/kcuttest/pfasm.kS:164-215 | the same of delivery, stub and trampoline as executed |
| Nesting.FaultStep | examples/kcuttest/pfasm.kS:182-275 | a further exception keeps every outer frame intact although it reuses the IST page |
| Nesting.NestingSafety | examples/kcuttest/pfasm.kS:182-275 | over every run and at every depth, live frames are intact and properly nested, and interrupted kernel stacks unchanged |
| Nesting.ExceptionIsBracketed | examples/kcuttest/pfasm.kS:182-275 | whatever nests inside, an exception ends on the rsp it began with, outer frames live, the interrupted kernel stack unchanged |
| Nesting.TakeFault | examples/kcuttest/pfasm.kS:164-277 | delivery, stub and trampoline as executed are one step of such a run |
| Idt.OffsetRoundTrip | examples/kcuttest/idtadaptor.h:14-22 | splitting an address over a gate and recombining it are inverse, both ways, low part first, and touch no other field |
| Idt.IdtAdaptor.Clone | examples/kcuttest/idtadaptor.kc:13-33 | the clone equals the active table; without a page nothing changes |
| Idt.IdtAdaptor.WriteGate | examples/kcuttest/efadaptor.kc:254-258 | one gate of an unused clone changes, the active table does not |
| Idt.IdtAdaptor.FreePage | examples/kcuttest/idtadaptor.kc:54-56 | only an allocated clone that no CPU uses is freed, never the original |
| Idt.IdtAdaptor.LoadEverywhere | examples/kcuttest/idtadaptor.kc:44-51 | in any order of cross-calls each CPU always sees the old or the new complete table, and all end on the new one |
| Idt.IdtAdaptor.NoteHandlers | examples/kcuttest/efadaptor.kc:240-242 | a saved handler becomes visible to the stubs at an instant of its own, while every CPU uses the old table |
| Idt.IdtAdaptor.Activate | examples/kcuttest/idtadaptor.kc:44-59 | at every instant each IDTR is the original table or an unfreed clone; afterwards only the new clone is allocated |
| Idt.IdtAdaptor.Release | examples/kcuttest/idtadaptor.kc:61-63 | an unused clone is freed once and the active table kept |
| EfAdaptor.ProcessAllKeeps | examples/kcuttest/efadaptor.kc:196-264 | from a kept state no mismatch occurs and the state stays kept |
| EfAdaptor.HandlerPreservation | examples/kcuttest/efadaptor.kc:196-264 | over every run of calls the effective handler of every vector is the original, IST gates are untouched, no mismatch |
| EfAdaptor.KeptGate | examples/kcuttest/efadaptor.kc:238-258 | a redirected gate has IST 7, the address of its own 32-byte stub, its handler saved, and segment, type, privilege and present bit as before |
| EfAdaptor.ChangedOverRuns | examples/kcuttest/efadaptor.kc:196-264 | over every run a gate is changed exactly if some call lists it and it had no IST |
| EfAdaptor.MismatchIff | examples/kcuttest/efadaptor.kc:240-249 | a call fails exactly if it lists a vector without IST whose gate enters another handler than the one saved; a saved handler never changes |
| EfAdaptor.DirtyCountsRedirections | examples/kcuttest/efadaptor.kc:300-312 | the count is the number of changed gates, which are the listed ones without IST, each redirected to its own stub |
| EfAdaptor.VectorsProcessed | examples/kcuttest/efadaptor.kc:300-312 | the vectors processed are the list and the inclusive range, which must hold at least two |
| EfAdaptor.OldTableStillKept | examples/kcuttest/efadaptor.kc:240-249 | saving handlers for the new table does not disturb the one in use |
| EfAdaptor.EveryInstantReachesOriginal | examples/kcuttest/efadaptor.kc:240-328 | with the handlers saved at that instant, whichever of the two tables a CPU has loaded, every vector leads to its original handler |
| EfAdaptor.Adaptor.SetupTss | examples/kcuttest/efadaptor.kc:131-171 | each CPU without a stack in the seventh IST slot gets one if a page is given, other slots stay; failure is reported exactly if some CPU gets none |
| EfAdaptor.Adaptor.CleanupTss | examples/kcuttest/efadaptor.kc:173-194 | the slot is cleared on every CPU and no other is |
| EfAdaptor.Adaptor.Process | examples/kcuttest/efadaptor.kc:196-264 | one gate and its saved handler change as specified, all return codes; each change of a saved handler is an instant |
| EfAdaptor.Adaptor.ProcessEach | examples/kcuttest/efadaptor.kc:300-312 | the vectors are processed in turn up to the first mismatch, each instant showing a prefix of the handlers saved |
| EfAdaptor.Adaptor.Conclude | examples/kcuttest/efadaptor.kc:317-335 | an edited clone is activated, an unedited or refused one released; a refusal clears the stacks |
| EfAdaptor.Adaptor.Redirect | examples/kcuttest/efadaptor.kc:296-335 | activation exactly if a gate changed, release otherwise; on a mismatch the table stays, the stacks go, and what was saved before it stays saved |
| EfAdaptor.Adaptor.Init | examples/kcuttest/efadaptor.kc:266-337 | all outcomes; a CPU with redirected gates has an IST7 stack unless a mismatch met redirected gates |
| EfAdaptor.Adaptor.InitInRun | examples/kcuttest/efadaptor.kc:266-337 | within a run: the only failure is a missing stack, the result counts changed gates, every instant reaches original handlers by the handlers saved then |
| PfAdaptor.InstallChangesOnlyThreeOffsets | examples/kcuttest/pfadaptor.kc:60-118 | only the offsets of vectors 14, 8 and 13 change; refusal exactly on a foreign handler |
| PfAdaptor.InstallIsIdempotent | examples/kcuttest/pfadaptor.kc:60-122 | a second run activates nothing exactly when no expected handler is the adaptor's own |
| PfAdaptor.SavedOnce | examples/kcuttest/pfadaptor.kc:60-105 | a noted handler never changes, and a call notes a wrong one exactly if it gets to a vector without a note and expects something else than the original |
| PfAdaptor.LeadsIff | examples/kcuttest/pfadaptor.kc:38-130 | over every run of calls with any expectations, vectors 14, 8 and 13 lead to their original handlers exactly if no call expected all three of them or no call noted a wrong one |
| PfAdaptor.TruthfulCallsNeverPoison | examples/kcuttest/pfadaptor.kc:38-130 | calls that expect the original handlers note no wrong one |
| PfAdaptor.RefusedCallPoisons | examples/kcuttest/pfadaptor.kc:60-78 | an input on which handlers are lost: a refused call with a wrong page-fault handler, then a right one |
| PfAdaptor.Adaptor.Init | examples/kcuttest/pfadaptor.kc:38-130 | all or nothing: a refused run leaves the active table, a clean one activates nothing; the saved handlers in every case, those of a refused run included |
| PfAdaptor.Adaptor.InitInRun | examples/kcuttest/pfadaptor.kc:38-130 | one more call of a run, with the exact condition under which the three vectors still lead to their original handlers |
| Dispatch.DispatchException | examples/kcuttest/efadaptor.kc:1-9 | by the IST and the offset of the gate of a redirected vector, the handler first installed for it starts and finds the delivered words, or those dressed up for it |
| Evacuate.Evacuator.SaveTaskAffinity | examples/kcuttest/evacuate.kc:23-45 | a saved mask goes in front and takes a reference; a failed allocation changes nothing |
| Evacuate.Evacuator.RestoreSavedAffinities | examples/kcuttest/evacuate.kc:50-81 | the list is drained newest first; 0 or -1 tells whether the caller was on it |
| Evacuate.Evacuator.IsAncestor | examples/kcuttest/evacuate.kc:84-96 | true exactly if some number of parent steps from the caller, none of them at init, lead to the task |
| Evacuate.Evacuator.KillOthers | examples/kcuttest/evacuate.kc:137-166 | exactly the unspared threads are counted, and signalled under policies above 0 |
| Evacuate.Evacuator.MigrateOthers | examples/kcuttest/evacuate.kc:170-211 | every thread of the list is treated, failed saves and stuck threads included, and the result is the number of threads moved |
| Evacuate.Evacuator.AcquireExclusiveCpu | examples/kcuttest/evacuate.kc:213-327 | every outcome of an acquire, with the drain on any failure |
| Evacuate.Evacuator.ReleaseExclusiveCpu | examples/kcuttest/evacuate.kc:329-351 | a release drains the list for everyone |
| EvacuateRuns.MigrateIsPointwise | examples/kcuttest/evacuate.kc:170-211 | each thread is treated once and independently of the order of the task list |
| EvacuateRuns.DrainTaskRestoresBase | examples/kcuttest/evacuate.kc:50-81 | the newest-first walk leaves the oldest saved mask and returns one reference per entry |
| EvacuateRuns.DrainTaskInGeneral | examples/kcuttest/evacuate.kc:50-81 | for any saved masks: the oldest one with an online CPU is left, or none is applied |
| EvacuateRuns.DrainRestores | examples/kcuttest/evacuate.kc:50-81 | a drain puts every live task back to its base mask and own references |
| EvacuateRuns.EvictView | examples/kcuttest/evacuate.kc:269-301 | masks only shrink, never to nothing, and the old mask is saved unless that save fails |
| EvacuateRuns.MaskStaysIff | examples/kcuttest/evacuate.kc:103-211 | before an acquire: it leaves a mask alone exactly if the task is stuck, dead, init, a kernel thread, elsewhere, or already pinned there; a changed mask is the caller's CPU, or the online rest of the old one |
| EvacuateRuns.RecordedExactly | examples/kcuttest/evacuate.kc:170-203 | whose mask is saved, with a reference: the caller's and that of every live user task but init on the CPU, stuck or not, if the save succeeds |
| EvacuateRuns.EvictKeepsBaseIff | examples/kcuttest/evacuate.kc:187-203 | a base mask never grows, and survives exactly if its save succeeds, an older save exists, or the mask is one that stays |
| EvacuateRuns.RunKeeps | examples/kcuttest/evacuate.kc:213-351 | over every run, failed saves included: own references are constant, masks are non-empty parts of the base, and a live task's base is the same exactly if no event of the run loses it |
| EvacuateRuns.LifoRestoration | examples/kcuttest/evacuate.kc:213-351 | whenever the list is empty again a task has its first references, and if alive its first mask exactly if no event of the run lost it |
| EvacuateRuns.SavesSucceedLosesNothing | examples/kcuttest/evacuate.kc:23-45 | nothing of a task is lost if its saves succeed |
| EvacuateRuns.FailedAcquireChangesMaskIff | examples/kcuttest/evacuate.kc:313-326 | an acquire that fails from an empty list changes the mask of a task, live or dead, exactly if it changed it without a record |
| EvacuateRuns.UnsavedMaskIsLost | examples/kcuttest/evacuate.kc:187-203 | an input on which a failed save makes a release lose a mask |
| EvacuateRuns.AncestorIffDescends | examples/kcuttest/evacuate.kc:84-96 | the ancestors found are the ends of the paths of parents from the caller on which every pid is above 1 |
| EvacuateRuns.SignalledExactly | examples/kcuttest/evacuate.kc:101-166 | an acquire newly signals a task exactly if there is one CPU, the policy is 1 or more, the task is alive, and (below policy 2) it has neither pid 1 nor the kernel-thread flag, is neither the caller nor an ancestor of it below init, and is not in its session |
| EvacuateRuns.SessionIsSafe | examples/kcuttest/evacuate.kc:128-131 | below policy 2 nobody in the caller's session is signalled |
| EvacuateRuns.ExemptOverRuns | examples/kcuttest/evacuate.kc:101-211 | over every run, a task with pid 1 or the kernel-thread flag that does not acquire a CPU keeps its mask, is never recorded, and below policy 2 never signalled |
| EvacuateRuns.AcquireReturns | examples/kcuttest/evacuate.kc:213-327 | the result in every case; on the only CPU under policy 0, -22 exactly if some live task is not spared |
| EvacuateRuns.EvictExcludes | examples/kcuttest/evacuate.kc:290-301 | after an acquire no other user task but init may run on the CPU, unless it can run nowhere else |
| EvacuateRuns.ExclusivityOverRuns | examples/kcuttest/evacuate.kc:213-351 | until the next drain this holds for every holder, and two user tasks hold one CPU only if the later could run nowhere else |
| EvacuateRuns.HoldersAreDistinct | examples/kcuttest/evacuate.kc:213-351 | concurrent user holders have different CPUs unless the later one could run nowhere else |
| Tree.PurgedExactly | examples/tools/src/kld/fs.c:286-290 | purging deletes exactly the ancestors all of whose descendants lie on one line with the removed item |
| Tree.SurvivorsStayBusy | examples/tools/src/kld/fs.c:286-290 | a directory that survives a purge still lists something |
| FsModel.FreeListPush | examples/tools/src/kld/fs.c:120-129 | freeing keeps the list acyclic, duplicate free and complete |
| FsModel.FreeListPop | examples/tools/src/kld/fs.c:103-118 | so does allocating |
| FsModel.AscendingStep | examples/tools/src/kld/fs.c:103-118 | over creations the inode handed out is the lowest free one, and free and used inodes partition the table |
| FsModel.IndexIsChildren | examples/tools/src/kld/fs.c:131-161 | a directory's index by inode is exactly the set of items naming it, and both indexes are empty together |
| FsModel.ReachesRoot | examples/tools/src/kld/fs.c:163-220 | every item reaches the root through its dir fields |
| FsModel.AddKeepsIndexedIff | examples/tools/src/kld/fs.c:131-161 | a creation keeps both indexes right exactly when no sibling has the name |
| FsModel.RemovedIndexed | examples/tools/src/kld/fs.c:255-284 | removing a leaf keeps all indexes right and removes nothing else |
| FsModel.SweepStep | examples/tools/src/kld/fs.c:769-778 | after the turn of an inode every earlier survivor lists something and every later item is still there |
| FsDuplicates.TryRemoveLeaf | examples/tools/src/kld/fs.c:223-293 | with every item listed, removal passes all asserts and goes on to the directory exactly if that held nothing else |
| FsDuplicates.RemoveKeepsOrphans | examples/tools/src/kld/fs.c:255-290 | a removal that passes the asserts never removes an unlisted item nor lists it again |
| FsDuplicates.SweepPassesIff | examples/tools/src/kld/fs.c:769-778 | the pass over the table gets to its end, with nothing left, exactly if every item is listed |
| FsDuplicates.ListedWasRequested | examples/tools/src/kld/fs.c:131-161 | an entry of the name index is an item created there with that name |
| FsDuplicates.OrphansIff | examples/tools/src/kld/fs.c:131-161 | after any creations every item is listed exactly if no two siblings were given the same name |
| FsDuplicates.CleanupPassesIff | examples/tools/src/kld/fs.c:163-220 | after any creations that fit, cleanup empties the heap if sibling names are distinct and otherwise trips an assert or a freed item |
| FsDuplicates.SameNameTwice | examples/tools/src/kld/fs.c:154-160 | the smallest failing input |
| Fs.FileSystem.constructor | examples/tools/src/kld/fs.c:77-95 | the fresh table is one ascending free list |
| Fs.FileSystem.InoAlloc | examples/tools/src/kld/fs.c:103-118 | the first free inode is taken, its descriptor has no item, no assert fires |
| Fs.FileSystem.InoFree | examples/tools/src/kld/fs.c:120-129 | the inode goes in front of the free list |
| Fs.FileSystem.CreateRoot | examples/tools/src/kld/fs.c:662-668 | inode 0 is reserved and inode 1 is the root |
| Fs.FileSystem.Create | examples/tools/src/kld/fs.c:163-220 | the next inode, the item listed in its directory; all invariants survive exactly if the name is new there |
| Fs.FileSystem.CreateAll | examples/tools/src/kld/fs.c:163-220 | the creations build exactly the specified heap, each finding its name free |
| Fs.FileSystem.Unlist | examples/tools/src/kld/fs.c:255-273 | both indexes lose the item and stay equally large, and emptiness is reported exactly |
| Fs.FileSystem.RemoveItem | examples/tools/src/kld/fs.c:223-293 | a directory that lists something is refused unchanged; else exactly the item, or with purging exactly the purged chain, is deleted; with purging it agrees with removal on values |
| Fs.FileSystem.SweepTable | examples/tools/src/kld/fs.c:765-778 | one pass removes every item, no visited item is already freed |
| Fs.FileSystem.Cleanup | examples/tools/src/kld/fs.c:765-787 | all inodes are free at the end and both closing asserts hold |
| Fs.Session | examples/tools/src/kld/fs.c:651-791 | any creations that fit, with distinct sibling names, then cleanup |
| Elf.OffsetReadsName | examples/tools/src/kld/elf.c:66-70 | every offset is positive and reads back its name |
| Elf.StrTab.AddStr | examples/tools/src/kld/elf.c:18-23 | the string and its NUL are appended within the buffer |
| Elf.StrTab.Fill | examples/tools/src/kld/elf.c:66-70 | the table is the packed names, and the buffer is filled to its end exactly if it was sized by the tally |
| Elf.FillSymbols | examples/tools/src/kld/elf.c:92-101 | the symbol table: a null symbol, then one per entry |
| Elf.SectionNameTable | examples/tools/src/kld/elf.c:43-64 | the section-name buffer is filled exactly |
| Elf.Generate | examples/tools/src/kld/elf.c:26-135 | the image has the sections in order with their links, no buffer is overrun, and the buffer for the names has exactly the surplus of the tally to spare |
| Elf.SymbolRoundTrip | examples/tools/src/kld/elf.c:92-101 | a written symbol is kept and reads back as its entry exactly if its offset fits 32 bits, or the cut offset leads to the same name and not to an empty symbol |
| Elf.ElfRoundTrip | examples/tools/src/kld/elf.c:209-265 | for all entries: reading a generated image yields the names and addresses twice, in order, exactly if all of them are addressable in that sense |
| Elf.EntriesReadBack | examples/tools/src/kld/elf.c:196-265 | then each entry's name and address is at its place in both halves, with size, binding and type as the reader sets them |
| Elf.SymbolsAsWritten | examples/tools/src/kld/elf.c:92-101 | address, size, absolute section index, weak bit and function type of each written symbol, the same in both symbol sections |
| Elf.SectionsAreNamed | examples/tools/src/kld/elf.c:43-135 | each section has its name, type and link |
| Elf.SmallTablesAreAddressable | examples/tools/src/kld/elf.c:92-101 | they are if the string table has at most 2^32 bytes |
| Elf.CutOffsetLosesName | examples/tools/src/kld/elf.c:92-101 | an input past that on which the round trip fails |
| Elf.Push | examples/tools/src/kld/elf.c:250-256 | growth by doubling loses nothing and the tally is kept; the tables of `main.c` lines 549 to 560 grow the same way |
| Elf.AddSection | examples/tools/src/kld/elf.c:236-259 | one section adds its kept symbols in order |
| Elf.ElfReadSyms | examples/tools/src/kld/elf.c:209-265 | all entries in section order, and the tally the next writer needs |
| Elf.ReadNamesAreCStrings | examples/tools/src/kld/elf.c:195-207 | whatever is read can be written again |
| Elf.RoundTrip | examples/tools/src/kld/main.c:656-678 | write, read, write again, with exact tallies both times |
| Kallsyms.BracketsStripped | examples/tools/src/kld/main.c:528-533 | the name between the brackets of a module token is recovered |
| Kallsyms.TokenCut | examples/tools/src/kld/main.c:528-533 | of any token the first character goes, and the last if it closes |
| Kallsyms.LetterDecides | examples/tools/src/kld/main.c:392-440 | name and address of the line, weak exactly for V and W, function exactly for those and T, the other types by their letters |
| Kallsyms.SupportedLetters | examples/tools/src/kld/main.c:396-429 | the letters accepted |
| Kallsyms.LineIsPlaced | examples/tools/src/kld/main.c:519-577 | each line's name and address is in the table of its module right after the earlier lines of that module |
| Kallsyms.SplitIsPartition | examples/tools/src/kld/main.c:519-577 | the tables are the partition of the lines by module, in line order |
| Kallsyms.SplitLines | examples/tools/src/kld/main.c:519-578 | the loop builds exactly that partition |
| Kallsyms.WriteSo | examples/tools/src/kld/main.c:580-608 | the tally of a table is exact: the buffer for its names ends full |
| Kallsyms.EachLineInItsLibrary | examples/tools/src/kld/main.c:519-608 | in the library of its module a line's symbol has its address and the binding and type of its letter, at the place given by the number of earlier lines of that module; if addressable, name and address read back there in both halves |
| Kallsyms.LineIsFound | examples/tools/src/kld/main.c:580-608 | so every line is found in one library |
| Kallsyms.LibrariesAreNamed | examples/tools/src/kld/main.c:580-608 | and every library is that of some line |
| Kallsyms.PrcKallsyms | examples/tools/src/kld/main.c:490-608 | one library per module, and one for the kernel exactly if it has a symbol, each line in its place, each from a table with an exact tally |
| Kallsyms.LibraryReadsBack | examples/tools/src/kld/main.c:580-608 | a written library reads back as the symbols of its table, twice, exactly if they are addressable |
| Interposer.RetToPageFault | examples/idtr_interposer/kmod/common.h:20-27 | the XOR exchange enters the page-fault handler with every register kept |
| Interposer.PushRegs | examples/idtr_interposer/kmod/common.h:32-49 | fifteen registers are saved in pt_regs order, word by word |
| Interposer.PopRegs | examples/idtr_interposer/kmod/common.h:52-69 | and restored from it |
| Interposer.InterposerHandler | examples/idtr_interposer/kmod/common.h:73-79 | for every well-behaved callee only the error code changes |
| Interposer.XorCancels | examples/idtr_interposer/kmod/common.h:23-25 | the law behind the exchange |
| Interposer.DfJmpToC | examples/idtr_interposer/kmod/interpos.c:6-12 | a double fault reaches the page-fault handler as a user write |
| Interposer.TfJmpToC | examples/idtr_interposer/kmod/interpos.c:15-31 | a page fault reaches it with the user bit set |
| HexParse.HornerCons | examples/misc/findlibkallsyms.c:51-59 | the leading digit weighs a power of sixteen, so summing from the right is evaluating from the left |
| HexParse.HexStr2Ull | examples/misc/findlibkallsyms.c:34-62 | the longest numeral's value modulo 2^64, and its length |
| HexParse.DigitValues | examples/misc/findlibkallsyms.c:41-57 | the digits, in either case, and their values |
| HexParse.StartIsKept | examples/misc/findlibkallsyms.c:96-103 | the start is stored exactly if the line starts with a numeral, whatever follows |
| HexParse.ParseRange | examples/misc/findlibkallsyms.c:93-104 | the two numerals of a line, with the underflow past the line's end, and the start that is stored even if the second numeral is missing |
| HexParse.RangeRoundTrip | examples/misc/findlibkallsyms.c:93-104 | a printed range parses back to its two addresses |

## Left out

- Elf.Generate: the data of the `.hash` and `.dynamic` sections and the program headers, and so any claim about run-time lookup.
- `ef_adaptor_cleanup_tss` giving its page back: it clears the field before using it; only the clearing is modelled.
- The test-handler mode of `ef_adaptor_init`, the build option that borrows the NMI stack, debug counters, dumps, and the debug stack check.
- EfAdaptor.Adaptor.Init: assumes that the page for the clone is available, because the source uses the result unchecked.
- PfAdaptor.Adaptor.Init: assumes the same, for the same reason.
- The three page-fault fix-up entries that `pf_adaptor_init` installs (`pf_adaptor_asm_fix_err_code_u`, `_uw`, `_gp`).
- Unaligned accesses that overlap another word in part; none occurs when the moved frame is apart from the IST words.
- PF_NO_SETAFFINITY tasks, and task creation between acquire and release.
- Elf.ElfReadSyms: the growing table is a value that is replaced, so `realloc` moving it is not expressed.
- Kallsyms.SplitLines: the same, and the table of each module is a value in a map.
- Kallsyms.PrcKallsyms: lines arrive split into fields, because the splitting is done by sscanf; a type letter the source asserts against is a precondition.
- Fs.FileSystem.Create: creation after a removal, which trips an assert because the descriptor keeps the removed item, and a full table, where growing is not implemented.
- FUSE callbacks, reply buffers, extended attributes, epoll and signal handling of kld; file names, paths and module specifications of `main.c`.
- TCP shortcuts, module loaders, page swapping, code generators, plotting and test programs: thin calls into code not shown, or text plumbing.
