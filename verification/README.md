# NovaHypervisor, verified model

NovaHypervisor is an Intel VT-x hypervisor that runs under Windows as a driver. This project models
its four stateful parts in Dafny and proves what they keep over whole runs.

* **EPT engine** (`Mtrr`, `IntrusiveList`, `PageTables`, `TableMemory`, `HookProtocol`, `HookRuns`,
  `HookTheorems`, `HookWitnesses`, `Ept`). One `Ept` object per processor holds a 512 GB identity
  map of 2 MB pages, splits large pages into 512 small ones on demand, takes memory types from the
  memory type range registers, and keeps an intrusive list of hooked pages. An access the hook
  denies is let through for one instruction when it comes from the kernel image, and closed again by
  the monitor trap; any other access gets a page fault.
* **Pool allocator** (`Spinlock`, `RequestList`, `PoolProtocol`, `PoolTheorems`, `PoolManager`,
  `PoolClient`, `Ownership`, `HostExits`). Slots are claimed under a lock, frees travel through a
  bounded request list to a free thread, growth through a second one to an allocation thread. The
  pool backs the split tables and the hook records, so `Ownership` puts the pool and the `Ept` of
  every processor into one state machine in which the split tables are words of the pool's memory,
  and `HostExits` lets the exits of all processors run in it.
* **VM-exit handler** (`Vmcs`, `EventInjection`, `ExitProtocol`, `VmexitHandler`, `ExitTheorems`,
  `RawExits`, `ExitRuns`). Exit dispatch, event injection, RIP advance and leaving VMX operation.
* **Log formatter** (`ComLogger`, `FormatTheorems`, `FormatArguments`). A bounded printf with its
  own digit arithmetic.

The layering is the same everywhere. A class or method changes arrays, lists and fields in place as
the C++ does, and is verified against a specification function (`*Protocol`, `PageTables`,
`RequestList.Inserted`, `ComLogger.Formatted`). The theorems are about those functions: invariants
of every step, then of every run, then what a user of the code is promised. What a function of the
specification means is stated once more without it, in registers, bits, numbers and letters
(`RawExits`, `FormatArguments`, `Mtrr.BuiltTypeAt`, `PoolTheorems.RequestServes`). Concurrency is a
state machine whose steps are the lock-protected sections.

Some promises fail in the code. Each time the exact condition is proved under which the code keeps
them, and an input at which it does not:

| promise | kept exactly when | fails at |
|---|---|---|
| a page has the protection it was given (the repository's README.md:64) | `HookTheorems.GivenProtectionIff` | `HookWitnesses.WriteNotGiven`, `HookWitnesses.LaterReadNotGiven` |
| every step keeps tables, list and grant tied | `HookTheorems.StepKeepsInvIff` | the next three rows |
| a second access opens a page before the trap | `HookTheorems.SecondGrantIff` | `HookWitnesses.SecondGrantFails` |
| a page is unhooked before the trap | `HookTheorems.UnhookUnderGrantIff` | `HookWitnesses.UnhookUnderGrantFails` |
| one physical page is hooked under two virtual ones | `HookTheorems.AliasOrderIff` | `HookWitnesses.AliasFails` |
| a hook request frees dead buffers, once | `HookTheorems.HookFreesSafelyIff`, `Ownership.StepConservesBlocks` | `HookWitnesses.FailedRecordFails`, `Ownership.FailedRecordZeroesTable` |
| uncacheable ranges take precedence | `Mtrr.UncacheablePrecedenceIff`, `Mtrr.BuiltPrecedenceIff` | `Mtrr.UncacheablePrecedenceFails` |
| the page table can be built | `Ept.NewEpt` | `Mtrr.LaterLargePageStraddles` |

What comes from outside is a parameter: register contents, the physical address of a hooked page, what
the operating system and the pool return, the results of CR, MSR, CPUID and XSETBV emulation and of
forwarded hypercalls, and what other threads do between two attempts. Table writes that the code
follows with an INVEPT are visible at once.

## Model

| member | source | states |
|---|---|---|
| Mtrr.MtrrMap.BuildMtrrMap | NovaHypervisor/Ept.cpp:104-180 | for every register content with up to 255 variable ranges the array is never indexed past its 343 entries, and the enabled ranges are the fixed ones (if enabled) followed by the valid variable ones that are not write-back |
| Mtrr.MtrrMap.AddFixedRanges | NovaHypervisor/Ept.cpp:123-159 | the eleven fixed registers give 88 descriptors in order |
| Mtrr.MtrrMap.AddVariableRanges | NovaHypervisor/Ept.cpp:161-178 | each valid register adds its range; a write-back one is overwritten by the next |
| Mtrr.MtrrMap.GetMemoryType | NovaHypervisor/Ept.cpp:750-784 | the loop with its two breaks computes the fold of the ranges, or the default type when nothing matched |
| Mtrr.MtrrMap.IsValidForLargePage | NovaHypervisor/Ept.cpp:831-844 | true exactly when no enabled range straddles the 2 MB page |
| Mtrr.FixedRangesTile | NovaHypervisor/Ept.cpp:123-159 | the 88 fixed descriptors tile the first megabyte without gap or overlap |
| Mtrr.FixedRangesWin | NovaHypervisor/Ept.cpp:755-763 | with fixed ranges enabled every page below 1 MB gets its fixed-range byte whatever the variable ranges are, except that 0xFF reads as the default type |
| Mtrr.FirstLargePageStraddles | NovaHypervisor/Ept.cpp:321-325 | with fixed ranges enabled 2 MB page 0 is never valid as a large page, which is why it gets a case of its own |
| Mtrr.SplittingKeepsMemoryType | NovaHypervisor/Ept.cpp:286-289 | when a 2 MB page is valid as a large page, each of its 512 small pages gets the memory type of the large one |
| Mtrr.VariableCoversIff | NovaHypervisor/Ept.cpp:161-170 | when bit k is the lowest one of the mask, the descriptor covers exactly the 2^k pages from the base page on |
| Mtrr.AlignedBaseMatches | NovaHypervisor/Ept.cpp:161-170 | for a base aligned to that size these are the pages that agree with the base in all bits from bit k on, as section 11.11.3 of Intel SDM Vol 3A has it |
| Mtrr.BuiltTypeAt | NovaHypervisor/Ept.cpp:750-784 | from 1 MB on, and below it with the fixed ranges off, a page has the type that prevails among the registers over it, the default type with none, and is uncacheable with the registers off |
| Mtrr.OneRangeDecides | NovaHypervisor/Ept.cpp:750-784 | a page in the range of exactly one register has that register's type, one in the range of none the default type |
| Mtrr.PrevailingBehind | NovaHypervisor/Ept.cpp:765-768 | of several types the one behind the first uncacheable one prevails |
| Mtrr.PrevailingLast | NovaHypervisor/Ept.cpp:775-776 | without an uncacheable one before it the last prevails |
| Mtrr.StraddlesIff | NovaHypervisor/Ept.cpp:831-844 | a range of whole pages straddles a large page exactly when it covers one of its small pages and not another |
| Mtrr.UncacheablePrecedenceIff | NovaHypervisor/Ept.cpp:765-776 | at an address that only variable ranges cover, one of them uncacheable, the page is uncacheable exactly when the first uncacheable match is the last match or is followed by another |
| Mtrr.BuiltPrecedenceIff | NovaHypervisor/Ept.cpp:104-180 | so it is at every page from 1 MB on, for every register content, 0xFF being no type a valid range may have |
| Mtrr.UncacheablePrecedenceFails | NovaHypervisor/Ept.cpp:765-768 | registers with an uncacheable megabyte and a write-through one over it, which is reported write-through |
| Mtrr.LaterLargePageStraddles | NovaHypervisor/Ept.cpp:321-330 | registers for which 2 MB page 1 is not valid as a large page |
| IntrusiveList.ListHead.InsertHead | NovaHypervisor/Ept.cpp:696 | the entry becomes the first of the well-formed ring, every other entry and record is kept |
| IntrusiveList.ListHead.InsertTail | NovaHypervisor/PoolManager.cpp:105-106 | the entry becomes the last of the well-formed ring, every other entry and record is kept |
| IntrusiveList.ListHead.SetRecord | NovaHypervisor/PoolManager.cpp:176-178 | one record changes in place, the ring and the other records stay |
| IntrusiveList.ListHead.Remove | NovaHypervisor/Ept.cpp:922-923 | exactly the removed entry leaves the ring, which stays well formed, and the entry links to itself |
| PageTables.IndicesOfPage | NovaHypervisor/HypervisorDefinitions.h:303-315 | the four index macros take an address below 512 GB apart into the page number and the table positions |
| PageTables.WalkRights | NovaHypervisor/HypervisorDefinitions.h:653-731 | the hardware gives an address a right exactly when every entry from PML4 down grants it |
| PageTables.WalkReaches | NovaHypervisor/Ept.cpp:357-372 | under the upper two levels that construction builds, the hardware walk of any address reaches the PML2 slot and PML1 index of its page |
| Ept.NewEpt | NovaHypervisor/Ept.cpp:5-33 | a new object exists exactly when the list head and the table can be allocated, the processor supports the features and no large page but the first straddles a range, and then it is the identity map with an empty list; otherwise the exception raised, or the null dereference, each under its exact condition |
| Ept.Ept.AllocateAndCreateIdentityPageTable | NovaHypervisor/Ept.cpp:343-393 | ready exactly when the memory is there and no large page but the first straddles a range, and then the tables are the identity map; otherwise it fails for memory, or dereferences the table pointer that is not yet set |
| Ept.Ept.SetupPml2Entry | NovaHypervisor/Ept.cpp:313-331 | the slot gets its own frame and the memory type of its page, uncacheable for a straddled page 0; a straddled later page does not get ready |
| Ept.Ept.GetPml2Entry | NovaHypervisor/Ept.cpp:221-230 | the PML2 slot of an address, or none above 512 GB |
| Ept.Ept.GetPml1Entry | NovaHypervisor/Ept.cpp:192-209 | the 4 KB entry of an address, or none above 512 GB or when the large page is not split |
| Ept.Ept.SetPml1 | NovaHypervisor/Ept.cpp:859-872 | one entry of one split table changes, everything else in the tables and the list stays |
| Ept.Ept.SplitLargePage | NovaHypervisor/Ept.cpp:243-300 | a null buffer is refused; otherwise the tables become those of the split: 512 identity entries with their own memory types behind a full-access pointer; an already split page frees the buffer |
| Ept.Ept.FillSplit | NovaHypervisor/Ept.cpp:274-289 | the filled array is the 512 identity entries of the large page |
| Ept.Ept.GetHookedPage | NovaHypervisor/Ept.cpp:1009-1032 | finds the first record with this virtual page, and returns null exactly when there is none |
| Ept.Ept.RootModePageHook | NovaHypervisor/Ept.cpp:632-705 | every branch of the hook operation: result, freed blocks and new tables and list, as the specification function gives them |
| Ept.Ept.HookEntry | NovaHypervisor/Ept.cpp:669-705 | the record is filled in and linked and the restricted entry written, exactly when the entry and the record exist |
| Ept.Ept.PageUnhookVmcall | NovaHypervisor/Ept.cpp:907-931 | in root mode the record found is removed, its original entry written back and its block returned; nothing changes otherwise |
| Ept.Ept.UnhookAllPagesVmcall | NovaHypervisor/Ept.cpp:943-962 | in root mode the list ends empty, every original entry is back, and every record's block is returned once, in list order |
| Ept.Ept.HandleHookedPage | NovaHypervisor/Ept.cpp:489-548 | handled exactly when the entry denies the access; from the kernel image the original entry is written, otherwise the page fault with the mirrored error code is pended |
| Ept.Ept.HandlePageHookExit | NovaHypervisor/Ept.cpp:440-474 | finds the record of the physical page, handles the access, remembers a grant and arms the monitor trap |
| Ept.Ept.HandleEptViolation | NovaHypervisor/Ept.cpp:561-575 | decodes the qualification, reads the linear address and RIP from the VMCS and hands over |
| Ept.Ept.HandleMonitorTrapFlag | NovaHypervisor/Ept.cpp:603-606 | the record's changed entry is written back |
| HookProtocol.RestrictAccessKeepsReadOnly | NovaHypervisor/Ept.cpp:676-679 | a restricted entry keeps the read permission asked for and never write or execute: the one-bit fields drop them |
| HookRuns.StepKeepsInv | NovaHypervisor/Ept.cpp:440-606 | every hook, unhook, unhook-all, violation and monitor-trap step that respects the pending grant, hooks no page twice and gets the record it asks for keeps the invariant that ties tables, list and grant together |
| HookRuns.HookKeepsInv | NovaHypervisor/Ept.cpp:632-705 | the hook step keeps it, in each of its branches |
| HookRuns.RemoveKeepsInv | NovaHypervisor/Ept.cpp:920-925 | removing one record and restoring its entry keeps it |
| HookRuns.WalkUnderInv | NovaHypervisor/Ept.cpp:192-209 | the walk of any address is what the records and the pending grant say, or the large page's translation |
| HookRuns.WholeRunIdentity | NovaHypervisor/Ept.cpp:343-393 | after any run of steps every address below 512 GB translates to its own frame with the memory type of its page; only page 0's type can change, when it is split |
| HookTheorems.HookUnhookRoundTrip | NovaHypervisor/Ept.cpp:676-704 | two reachable states without pending grant and with the same pages protected have the same frame, rights and memory type at every address above page 0, whatever hooks came and went |
| HookTheorems.UnhookAllRestores | NovaHypervisor/Ept.cpp:943-962 | unhook-all empties the list and gives back the constructed map outside page 0 |
| HookTheorems.GrantProtocol | NovaHypervisor/Ept.cpp:440-474 | in every reachable state the trap is armed exactly while a grant is pending, then exactly that record's live entry is the original one, and the trap returns all to changed entries |
| HookTheorems.StepKeepsInvIff | NovaHypervisor/Ept.cpp:440-606 | at its return a step has kept the invariant exactly when the page of a request that gets its record was not hooked yet and, while a grant is pending, its page is not unhooked and no other page is opened |
| HookTheorems.SecondGrantIff | NovaHypervisor/Ept.cpp:464-467 | only one grant is remembered: a second one before the trap is survived exactly when the access goes to the page that is open already |
| HookTheorems.UnhookUnderGrantIff | NovaHypervisor/VmexitHandler.cpp:198-205 | unhooking between a grant and its trap leaves the record the trap uses on the list exactly when another page is unhooked, and then the invariant holds before and after the trap |
| HookTheorems.NoWidening | NovaHypervisor/Ept.cpp:676-679 | in every reachable state a hooked page without pending grant has the read right that the request which created its record asked for, and no other |
| HookTheorems.GivenProtectionIff | README.md:64 | the permissions last given and accepted are the permissions the page has exactly when they include neither write nor execute, and read as much as those of the request that created the record |
| HookTheorems.GrantOnlyFromKernel | NovaHypervisor/Ept.cpp:608-619 | a grant comes from a denied access by an instruction inside the kernel image, to that physical page |
| HookTheorems.DeniedAccessIff | NovaHypervisor/Ept.cpp:608-619 | a denied access to a hooked page opens it, remembers its record and arms the trap exactly when the image's base and size are not zero, the size is at most 256 MB, base plus size does not wrap, and RIP lies between them; otherwise only a page fault is pended |
| HookTheorems.BlockedViolation | NovaHypervisor/Ept.cpp:498-507 | any other violation changes neither tables nor list and pends a page fault, exactly for a denied access to a hooked page, whose error code bits mirror the access |
| HookTheorems.HookAcceptedIff | NovaHypervisor/Ept.cpp:632-705 | a request is accepted exactly when it does not come from root mode before the launch, does not ask for write without read, and finds its page hooked or a physical page below 512 GB and both blocks |
| HookTheorems.HookAddsRecord | NovaHypervisor/Ept.cpp:676-704 | an accepted request for a page not hooked adds one record, with its own virtual and physical page and a live entry that keeps everything of the original but the rights: read by bit 0 of the permissions, no write, no execute; any other request leaves the records alone |
| HookTheorems.OpenPageFullRights | NovaHypervisor/Ept.cpp:274-278 | a page that is not hooked, or whose grant is pending, has every right |
| HookTheorems.AboveUnmapped | NovaHypervisor/Ept.cpp:357-372 | in every reachable state nothing above 512 GB is mapped |
| HookTheorems.AttributesClear | NovaHypervisor/Ept.cpp:279-281 | no entry in use ignores the PAT or suppresses virtualization exceptions |
| HookTheorems.RehookChangesNothing | NovaHypervisor/Ept.cpp:646-649 | hooking a hooked page again is accepted and changes nothing |
| HookTheorems.UnhookRemovesOne | NovaHypervisor/Ept.cpp:916-928 | unhooking removes exactly the record of the page, or nothing when there is none |
| HookTheorems.AliasOrderIff | NovaHypervisor/Ept.cpp:690-704 | of two virtual pages hooked on one physical page, both unhooked again, the page has its original entry back, and the invariant holds, exactly when the one hooked later is unhooked first; whichever record of the list the earlier one is |
| HookTheorems.UnhookAllWithAlias | NovaHypervisor/Ept.cpp:943-962 | unhook-all undoes such a second hook: it leaves what it leaves without it |
| HookTheorems.HookFreesSafelyIff | NovaHypervisor/Ept.cpp:683-687 | the buffers a hook request frees are dead and freed once exactly unless it passes its checks, has its buffer and an address below 512 GB, and cannot allocate its record |
| HookWitnesses.GrantReachable | NovaHypervisor/Ept.cpp:440-474 | two hooks and a violation lead from any new object to a state with a grant pending |
| HookWitnesses.SecondGrantFails | NovaHypervisor/Ept.cpp:464-467 | there a violation of the other page breaks the invariant |
| HookWitnesses.UnhookUnderGrantFails | NovaHypervisor/VmexitHandler.cpp:198-205 | there unhooking the granted page takes the trap's record off the list |
| HookWitnesses.WriteNotGiven | NovaHypervisor/Ept.cpp:676-679 | a page protected with read and write has the read right only |
| HookWitnesses.LaterReadNotGiven | NovaHypervisor/Ept.cpp:646-649 | a page protected with execute and then with read, both accepted, has no right at all |
| HookWitnesses.FailedRecordFails | NovaHypervisor/Ept.cpp:683-687 | the first request of a new object, without its record, frees a table in use |
| HookWitnesses.AliasFails | NovaHypervisor/Ept.cpp:690-704 | a page hooked twice and unhooked in hooking order stays restricted with an empty list |
| Vmcs.Vmcs.SetMonitorTrapFlag | NovaHypervisor/VmxHelper.cpp:501-507 | only the monitor trap control changes |
| EventInjection.ClearPendingInjection | NovaHypervisor/EventInjection.cpp:35-39 | the three entry fields are zeroed, the rest is kept |
| EventInjection.ReinjectEventFromIdtVectoring | NovaHypervisor/EventInjection.cpp:67-89 | an interrupted event becomes pending exactly when none is pending yet, masked, with its error code and length |
| EventInjection.InjectEventFromVmExitInterruption | NovaHypervisor/EventInjection.cpp:101-123 | a valid exit event becomes pending, masked, with its own error code or zero and the length of software events only |
| EventInjection.InjectInterruption | NovaHypervisor/EventInjection.cpp:138-157 | the entry fields describe the event asked for |
| EventInjection.InjectBreakpoint | NovaHypervisor/EventInjection.cpp:169-172 | a breakpoint is a software exception with the exit instruction length |
| EventInjection.InjectPageFault | NovaHypervisor/EventInjection.cpp:212-215 | the fault address is in CR2 and the page fault with its error code pending |
| EventInjection.ReinjectedIsLegal | NovaHypervisor/EventInjection.cpp:73-87 | after reinjection the entry fields pass section 26.2.1.3 of Intel SDM Vol 3C, and the handler's own event stays in front |
| EventInjection.InjectedIsLegal | NovaHypervisor/EventInjection.cpp:101-157 | each injected event passes the same checks |
| VmexitHandler.ResumeToNextInstruction | NovaHypervisor/VmxHelper.cpp:110-120 | RIP moves by the exit instruction length, modulo 2^64, nothing else changes |
| VmexitHandler.ClearVmcsState | NovaHypervisor/VmxHelper.cpp:76-84 | a failing VMCLEAR leaves VMX operation at once |
| VmexitHandler.VmxVmxoff | NovaHypervisor/Vmx.cpp:429-459 | the saved RIP is past the VMCALL, the saved RSP is the guest's, and no VMX instruction faults unless VMCLEAR failed |
| VmexitHandler.VmcallHandler | NovaHypervisor/VmcallHandler.cpp:17-69 | every call number with its status, its effect on the tables and the list, and the blocks it frees |
| VmexitHandler.HandleOnVmcs | NovaHypervisor/VmexitHandler.cpp:126-250 | the cases that touch the VMCS only: fields and action |
| VmexitHandler.HandleTrap | NovaHypervisor/VmexitHandler.cpp:198-205 | the remembered page is closed and forgotten and the trap disarmed |
| VmexitHandler.HandleCall | NovaHypervisor/VmexitHandler.cpp:218-226 | a VMCALL with the three magic registers goes to the driver's handler, any other is forwarded; RAX is the status |
| VmexitHandler.DispatchExit | NovaHypervisor/VmexitHandler.cpp:126-251 | the switch leaves the processor as the specification of the exit reason says |
| VmexitHandler.CloseExit | NovaHypervisor/VmexitHandler.cpp:253-263 | shutting down wins over advancing RIP, and reinjection comes last |
| VmexitHandler.VmexitHandler | NovaHypervisor/VmexitHandler.cpp:111-265 | the whole handler, from clearing the old event to the return value |
| ExitTheorems.HandlerEvent | NovaHypervisor/VmexitHandler.cpp:126-251 | after the switch the exit's own event is pending (the exception the exit is about, a general-protection fault for a refused emulation, the page fault of a blocked access) or none, and it is legal |
| ExitTheorems.EventAtEntry | NovaHypervisor/VmexitHandler.cpp:259-260 | for every well-formed exit that stays in VMX operation exactly the event due is pending, the exit's own before the interrupted one, with its own error code and length, and it passes the VM-entry checks of section 26.2.1.3 of Intel SDM Vol 3C |
| ExitTheorems.RipDiscipline | NovaHypervisor/VmexitHandler.cpp:253-257 | RIP moves past the instruction exactly once and exactly when it was carried out, never with an injected event; leaving VMX operation puts the moved RIP into the saved state |
| ExitTheorems.NoVmxAfterVmxoff | NovaHypervisor/Vmx.cpp:429-459 | no VMX instruction faults during an exit, except the second VMXOFF after a failed VMCLEAR |
| ExitTheorems.ExitIsStep | NovaHypervisor/VmexitHandler.cpp:198-226 | whatever the exit, tables, list, grant and trap change as the hook protocol's step says, or not at all, and a fault of the protocol is the event delivered |
| RawExits.HookCall | NovaHypervisor/VmcallHandler.cpp:32-40 | VMCALL 3 in its registers: RAX for each outcome, and a record for RDX aligned down whose entry may be read if bit 0 of R8 is set, and neither written nor executed; write without read changes nothing |
| RawExits.HookCallRights | NovaHypervisor/Ept.cpp:676-704 | the walk of the page then has the read right of R8 and no other |
| RawExits.UnhookCall | NovaHypervisor/VmcallHandler.cpp:49-56 | VMCALL 6: exactly the record of RDX aligned down goes, its original entry is back, and RAX says whether there was one |
| RawExits.UnhookAllCall | NovaHypervisor/VmcallHandler.cpp:57-60 | VMCALL 7: the list is empty and every original entry is back |
| RawExits.OtherCall | NovaHypervisor/VmcallHandler.cpp:22-66 | VMCALLs 1, 4 and 5 succeed, 2 leaves VMX operation with the moved RIP saved, any other number is refused; none touches tables or list |
| RawExits.DriverCallAdvances | NovaHypervisor/VmexitHandler.cpp:218-226 | every driver call but VMXOFF advances the guest and keeps the rest of its state |
| RawExits.ForwardedCall | NovaHypervisor/VmexitHandler.cpp:218-226 | a VMCALL without the three magic values is forwarded, with the result in RAX |
| RawExits.GrantedExit | NovaHypervisor/Ept.cpp:489-548 | in the bits of the qualification: a denied access to a hooked page from the kernel image opens exactly that page and arms the trap |
| RawExits.BlockedExit | NovaHypervisor/Ept.cpp:498-528 | from anywhere else nothing changes and a page fault is pended, with its address and its error code in terms of the qualification |
| RawExits.OtherViolationExit | NovaHypervisor/Ept.cpp:440-474 | any other violation changes nothing |
| RawExits.TrapExit | NovaHypervisor/VmexitHandler.cpp:198-205 | exit 37 closes the page of the remembered record and disarms the trap |
| RawExits.GuestVmxExit | NovaHypervisor/VmexitHandler.cpp:148-163 | exits 19 to 27 set the carry flag, keep the other flags and advance |
| RawExits.EmulatedExit | NovaHypervisor/VmexitHandler.cpp:165-193 | completed CR, MSR and XSETBV emulations advance |
| RawExits.RefusedExit | NovaHypervisor/VmexitHandler.cpp:165-193 | refused ones pend a general-protection fault with error code 0 and do not advance |
| RawExits.PlainExit | NovaHypervisor/VmexitHandler.cpp:126-250 | HLT, INVD, UMONITOR, UMWAIT and a completed CPUID advance, every exit without a case of its own resumes the guest |
| RawExits.ExceptionExit | NovaHypervisor/VmexitHandler.cpp:127-138 | a reported exception or NMI is delivered, with its own error code and, for types 4 to 6, its length |
| RawExits.InterruptedEvent | NovaHypervisor/VmexitHandler.cpp:259-260 | an interrupted event is delivered again when the exit has none of its own, and nothing is pending otherwise |
| ExitRuns.ExitRunRefines | NovaHypervisor/VmexitHandler.cpp:111-265 | every run of exits is a run of the hook protocol |
| ExitRuns.ExitRunDiscipline | NovaHypervisor/VmexitHandler.cpp:218-264 | over every run a VMX instruction is executed outside VMX operation exactly if some exit leaves it with a failing VMCLEAR; in VMX operation the last pending event is legal |
| ExitRuns.ExitRunIdentity | NovaHypervisor/VmexitHandler.cpp:111-265 | whatever allowed exits a processor takes from a state the invariant allows, every address keeps its identity frame and memory type, and the trap is armed exactly while a grant is pending |
| ExitRuns.LaunchedInv | NovaHypervisor/Ept.cpp:728-731 | a processor launched after any run of hook operations is in such a state |
| RequestList.RequestList.Insert | NovaHypervisor/RequestList.hpp:30-45 | accepted exactly below 100 requests, into the first free slot; the count stays the number of used slots and the last return is never reached |
| RequestList.RequestList.Pop | NovaHypervisor/RequestList.hpp:47-61 | takes the first used slot's request, the default one exactly when the list is empty; the last return is never reached |
| RequestList.RequestList.GetListSize | NovaHypervisor/RequestList.hpp:63-66 | the number of used slots, zero exactly when nothing is queued |
| RequestList.InsertedBag | NovaHypervisor/RequestList.hpp:33-44 | insertion adds exactly one request to the bag, and is refused exactly when every slot is used |
| RequestList.PoppedBag | NovaHypervisor/RequestList.hpp:50-60 | popping takes exactly one request out of the bag, which was in it |
| RequestList.LoneConsumerPops | NovaHypervisor/PoolManager.cpp:301-310 | a consumer that saw a nonzero size and is the only one gets a real request whatever producers do in between |
| RequestList.TwoConsumersPopDefault | NovaHypervisor/RequestList.hpp:50-51 | with two consumers that is false |
| Spinlock.Spinlock.DoLock | NovaHypervisor/Spinlock.cpp:12-14 | the attempt succeeds exactly when it found 0, and leaves 1 |
| Spinlock.Spinlock.Lock | NovaHypervisor/Spinlock.cpp:16-24 | the lock is taken at the first attempt that finds it free; as long as all attempts find it taken it is not, and the next wait is the one of its attempt |
| Spinlock.WaitIsPower | NovaHypervisor/Spinlock.cpp:17-22 | the wait is a power of two, at most 65536, reached at attempt 16, and its doubling fits 32 bits |
| Spinlock.MutualExclusion | NovaHypervisor/Spinlock.cpp:12-28 | for any number of threads and any interleaving at most one is in the critical section, the word is 0 exactly when none holds the lock, and the re-read after a winning exchange never sees 0 |
| PoolClient.Retry | NovaHypervisor/PoolManager.cpp:210-219 | a retry loop stops at the first success or after 25 attempts and 655359 pauses |
| PoolClient.Allocate | NovaHypervisor/PoolManager.cpp:194-239 | at most 1310718 pauses; the block of the first successful search, provided the request was queued before the last attempt |
| PoolClient.Free | NovaHypervisor/PoolManager.cpp:252-278 | the request is queued exactly when one of the 26 insertions succeeds, within 655359 pauses |
| PoolManager.AllocationList.ClaimUnused | NovaHypervisor/PoolManager.cpp:173-181 | the first unused slot becomes used and its address is returned; none exactly when all are used |
| PoolManager.AllocationList.ReleaseAt | NovaHypervisor/PoolManager.cpp:132-140 | the first slot with the address becomes unused |
| PoolManager.PoolManager.AllocateInitial | NovaHypervisor/PoolManager.cpp:21-24 | the constructor's rounds add a slot of each kind, unless an allocation fails |
| PoolManager.PoolManager.FindFreeSlot | NovaHypervisor/PoolManager.cpp:154-182 | claims from the list of the kind only |
| PoolManager.PoolManager.AllocateInternal | NovaHypervisor/PoolManager.cpp:69-108 | a zeroed block in an unused slot at the tail, or no change when either allocation fails |
| PoolManager.PoolManager.FreeInternal | NovaHypervisor/PoolManager.cpp:111-141 | the slot with the address is zeroed and unused, nothing changes when there is none |
| PoolManager.PoolManager.ProcessAllocationOnce | NovaHypervisor/PoolManager.cpp:301-310 | one round of the allocation thread: one request, one block |
| PoolManager.PoolManager.ProcessFreeOnce | NovaHypervisor/PoolManager.cpp:334-345 | one round of the free thread: one request, one slot released |
| PoolManager.PoolManager.DrainFrees | NovaHypervisor/PoolManager.cpp:347-355 | the last loop ends, with an empty list and every queued block released |
| PoolTheorems.StepKeepsWorld | NovaHypervisor/PoolManager.cpp:69-182 | every lock-protected step of callers and threads keeps addresses distinct, unused slots zeroed and every handed-out block in exactly one place |
| PoolTheorems.PoolExclusive | NovaHypervisor/PoolManager.cpp:154-239 | under every interleaving, when callers free only what they hold, a block is in one place only and two outstanding blocks never share an address |
| PoolTheorems.FoundIff | NovaHypervisor/PoolManager.cpp:154-182 | a search succeeds exactly when a slot of the kind is unused, takes the first such slot, and changes nothing else |
| PoolTheorems.GrowthServes | NovaHypervisor/PoolManager.cpp:94-107 | growing makes a search that would have failed find the new address, zeroed, in 8192 or 80 bytes, with one slot more |
| PoolTheorems.InitialServed | NovaHypervisor/PoolManager.cpp:21-24 | after n served rounds of the constructor there are n unused slots of each kind, in order, and two empty lists of 100 requests |
| PoolTheorems.RequestServes | NovaHypervisor/PoolManager.cpp:301-310 | a queued request, the allocation thread's round and an address make a claim succeed that had failed |
| PoolTheorems.ClaimedZeroed | NovaHypervisor/PoolManager.cpp:173-181 | a claimed block was nobody's and is all zeros |
| PoolTheorems.FreeRunSpares | NovaHypervisor/PoolManager.cpp:132-140 | the free thread changes no block a caller holds |
| PoolTheorems.ListsGrow | NovaHypervisor/PoolManager.cpp:105-107 | over every run the slot lists only grow and no slot changes its address |
| PoolTheorems.ClaimFreeRoundTrip | NovaHypervisor/PoolManager.cpp:111-182 | releasing a claimed block gives the pool back as it was, whatever the holder wrote |
| PoolTheorems.DoubleFreeShares | NovaHypervisor/PoolManager.cpp:135-138 | a block freed twice is handed to two callers |
| PoolTheorems.DrainLeavesHeld | NovaHypervisor/PoolManager.cpp:347-355 | after the drain, which leaves the pool the loop's method leaves, the used slots are exactly the blocks held, being submitted or dropped |
| Ownership.StepConservesBlocks | NovaHypervisor/Ept.cpp:657-687 | an operation loses and duplicates no block, what it frees and then uses being what it used before and took, exactly unless it is a hook request that comes as far as its record and does not get it |
| Ownership.HeldIsFresh | NovaHypervisor/Ept.cpp:657-674 | a block a processor holds is no table of any processor, so hooks never reuse a live table |
| Ownership.HostStepKeeps | NovaHypervisor/PoolManager.cpp:111-182 | every step of the processors and of the pool's threads keeps the accounting of blocks and every processor's invariant |
| Ownership.LiveIsReferenced | NovaHypervisor/Ept.cpp:291-297 | a page is a live table exactly when one PML2 entry leads to it, never two |
| Ownership.SplitSlotsAccounted | NovaHypervisor/PoolManager.cpp:252-278 | in every reachable state the used SPLIT slots of a page are the PML2 entries of all processors leading to it plus the blocks held, being submitted, queued, in flight and dropped, and at most one |
| Ownership.HostIdentity | NovaHypervisor/Ept.cpp:343-393 | over every run of the whole system the hardware finds the identity, memory types included, in every processor's tables as the pool's memory holds them, and the trap is armed exactly while a grant is pending |
| Ownership.FreeThreadSparesTables | NovaHypervisor/PoolManager.cpp:135-138 | the block the free thread works on is no processor's table, and what the hardware finds in every table is the same before and after |
| Ownership.FailedRecordZeroesTable | NovaHypervisor/Ept.cpp:683-687 | when a request that splits a large page cannot allocate its record, the hardware first finds the new table as it should be, and three steps of the free path later every address of the large page has lost its frame and its rights, with the PML2 entry still leading there and the slot free to be claimed |
| Ownership.FailedRecordReachable | NovaHypervisor/Ept.cpp:683-687 | a new system gets there with the first block it hands out |
| TableMemory.WordLayout | NovaHypervisor/HypervisorDefinitions.h:653-731 | the position of each field in the 64 bits |
| TableMemory.WordReadsBack | NovaHypervisor/HypervisorDefinitions.h:653-731 | an entry with a 36-bit frame and a 3-bit memory type survives its encoding in the bits of an EPTE |
| TableMemory.StoredIsBacked | NovaHypervisor/Ept.cpp:274-289 | storing the entries that changed, and those of a new table all, leaves exactly the tables in memory |
| HostExits.ExitFrees | NovaHypervisor/VmcallHandler.cpp:17-69 | what an exit gives back to the pool are the blocks its step of the hook protocol frees |
| HostExits.ExitStepRefines | NovaHypervisor/VmexitHandler.cpp:111-265 | every exit of any processor is a step of the whole system, or changes neither tables nor pool |
| HostExits.ExitHostIdentity | NovaHypervisor/VmexitHandler.cpp:111-265 | whatever exits all processors take, with the pool's threads in between, the hardware finds the identity in every processor's tables, and no buffer's freshness is assumed |
| HostExits.LaunchedHostOk | NovaHypervisor/Ept.cpp:728-731 | the launch of every processor, with pages hooked already, leaves the whole system as it is |
| ComLogger.AppendChar | NovaHypervisor/ComLogger.cpp:92-99 | the buffer holds one more character of the output, or stays full; terminated, nothing written behind the size; a null buffer or one of size zero is left alone |
| ComLogger.AppendString | NovaHypervisor/ComLogger.cpp:101-111 | appends the text up to its terminator and the maximum, "(null)" for a null pointer |
| ComLogger.FillDigits | NovaHypervisor/ComLogger.cpp:122-128 | digit k of the array is digit k of the value, and the count stops at the leading digit or at 32 |
| ComLogger.AppendUnsigned | NovaHypervisor/ComLogger.cpp:113-137 | appends the digits most significant first; nothing for a radix outside 2 to 16 |
| ComLogger.AppendSigned | NovaHypervisor/ComLogger.cpp:139-149 | appends the sign and the digits of the magnitude |
| ComLogger.Magnitude | NovaHypervisor/ComLogger.cpp:141-146 | the wrap-around arithmetic gives the absolute value, for the minimum too |
| ComLogger.ScanConversion | NovaHypervisor/ComLogger.cpp:178-190 | skips the digits, counts up to two length letters and stops at the conversion letter |
| ComLogger.FormatMessage | NovaHypervisor/ComLogger.cpp:151-232 | for every format memory and arguments the buffer holds exactly the first bytes of the unbounded formatter's output that fit, terminated, and nothing behind its size is written; complete exactly when the scan stays inside the memory given |
| FormatTheorems.UnsignedRoundTrip | NovaHypervisor/ComLogger.cpp:116-136 | the digits, read in the radix, are the value modulo radix^32, hence the value itself for radix 4 and above |
| FormatTheorems.ExactIff | NovaHypervisor/ComLogger.cpp:122-128 | in any radix the digits are exact exactly for values below radix^32 |
| FormatTheorems.NoLeadingZero | NovaHypervisor/ComLogger.cpp:122-128 | the text of a value of up to 32 digits has no leading zero, and is one digit long for zero |
| FormatTheorems.SignedRoundTrip | NovaHypervisor/ComLogger.cpp:139-149 | every 64-bit signed value, the minimum included, reads back |
| FormatTheorems.ConversionReadsBack | NovaHypervisor/ComLogger.cpp:192-217 | every numeric conversion reads back as its argument: modulo 2^64 with two length letters and for pointers, modulo 2^32 otherwise, in two's complement for d and i |
| FormatArguments.StringsPrinted | NovaHypervisor/ComLogger.cpp:101-111 | s prints the text up to its terminator and at most 512 characters, "(null)" for a null pointer |
| FormatArguments.DigitCase | NovaHypervisor/ComLogger.cpp:122-128 | x and p print lower-case digits, X upper-case ones |
| FormatArguments.FirstArgument | NovaHypervisor/ComLogger.cpp:192-217 | behind plain text, a conversion of d, i, u, x, X, p or s with any digits and length letters prints the first argument, and the rest of the format the others |
| FormatArguments.NoArgument | NovaHypervisor/ComLogger.cpp:166-176 | plain text, doubled percent signs and unknown conversions take no argument |
| FormatArguments.ArgumentsInOrder | NovaHypervisor/ComLogger.cpp:165-231 | a format of k printing conversions prints arguments 0 to k - 1 in order |
| FormatTheorems.FormattedAppends | NovaHypervisor/ComLogger.cpp:165-231 | what is written from a position of the format on does not depend on what was written before |
| FormatTheorems.FormattedShift | NovaHypervisor/ComLogger.cpp:165-231 | the output does not depend on where in memory the format lies |
| FormatTheorems.BehindTerminator | NovaHypervisor/ComLogger.cpp:165-231 | for every text without NUL the output is that of the terminated text alone when no conversion is cut off, and else goes on with the memory behind the terminator as a format |
| FormatTheorems.TerminatorStopsIff | NovaHypervisor/ComLogger.cpp:165-166 | the output is independent of that memory exactly when no conversion is cut off, and so is the scan's staying inside the text |
| FormatTheorems.WholeIff | NovaHypervisor/ComLogger.cpp:171-190 | no conversion is cut off exactly when the text does not end, behind a whole text, in a percent sign, digits and at most two length letters |
| FormatTheorems.PlainText | NovaHypervisor/ComLogger.cpp:166-169 | a terminated text without a percent sign is its own output, whatever lies behind it |
| FormatTheorems.TrailingPercent | NovaHypervisor/ComLogger.cpp:221-229 | a trailing percent sign puts the terminator into the message, and the memory behind the format is formatted as if it were the rest of it |

## Left out

- Runs assume that a hook request that comes as far as its record gets it and hooks a physical page not hooked yet, and that under a grant its page is not unhooked and no other opened. A step that does not respect the grant or hooks a page twice breaks the invariant (`HookTheorems.StepKeepsInvIff`). A request without its record keeps it until the block it frees is reused, which zeroes a table in use (`Ownership.FailedRecordZeroesTable`). What the program does after such a step is followed for the next steps only, in the lemmas of the table above.
- Physical addresses are below 2^48, the width of the PML4 index mask.
- INVEPT, INVVPID and TLB contents: a table write takes effect at once.
- The back pointer in VMM_EPT_DYNAMIC_SPLIT, the accessed and dirty bits and the reserved bits of the entries; bit masks and shifts are written as division and remainder.
- Ept.Ept.SplitLargePage: does not model the memset of the new table before it is filled, because every entry is then stored.
- The locks of the hooked-page list: only root-mode code of the same processor touches it.
- `PageHook`, `PageUnhook`, `UnhookAllPages`, `ReleaseAllHookedPageRecords`, `GetPml1OrPml2Entry`, the destructors, DPC and IPI scheduling: wrappers around the root-mode steps, or teardown.
- CR, MSR, CPUID and XSETBV emulation and hypercall forwarding: their results are inputs; of their VMCS writes only GUEST_CR3 and GUEST_RSP are represented. The reading and writing of the guest's other general registers is not.
- VMCS set-up, launch, `VmResumeFailure`, segment registers, descriptor tables, host CR3 and CR4.
- Debug breakpoints and log lines, except for the VMCS reads that go with them.
- The error branch of `HypercallHandler` for null pointers: both arguments exist in every exit.
- The pool names a SPLIT block by the page its table is in and a HOOK block by its address; that the 8192 and 80 bytes of different blocks do not overlap is the operating system's part.
- Starting and stopping the pool's threads and their sleep; one round of each loop is a method, and the endless polling is the arbitrary interleaving of rounds.
- The contents of HOOK blocks: a record's fields are in the list of its `Ept`; the pool's memory holds the words of the split tables.
- PoolClient.Allocate: does not interleave with other threads by itself, because the answers of the pool at each attempt are arbitrary inputs; the interleavings are those of `PoolProtocol`.
- Spinlock.Spinlock.Lock: does not prove that the lock is ever released; what each attempt finds, and how many attempts are looked at, is given.
- The serial port of the logger, the bounded try-lock of the port and `PrefixForLevel`.
- ComLogger.FormatMessage: does not model what is read behind the end of the memory given for the format; `complete` tells when that happens.
- `executeOnlySupport` of an Ept and the log lines about unreported features: nothing reads them.
