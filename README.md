# FreeBSD/MIPS native register transfers, modelled in Dafny

This project models the register-transfer core of GDB's FreeBSD/MIPS native
backend (`gdb/mips-fbsd-nat.c`): how a register number is classified
(`getregs_supplies`), and how `mips_fbsd_fetch_inferior_registers` and
`mips_fbsd_store_inferior_registers` move registers between the kernel's two
register sets of the traced process (`struct reg`, read with `PT_GETREGS` and
written with `PT_SETREGS`; `struct fpreg`, read with `PT_GETFPREGS` and
written with `PT_SETFPREGS`) and the debugger's register cache.

Three modules:

- `MipsFbsdRegs` (`regs.dfy`): register numbering (`MIPS_ZERO_REGNUM` is 0,
  the number `-1` means "all registers", the program counter and the first
  floating-point register come from the architecture as `Arch`), the
  classifier `GetregsSupplies`, the banks a transfer of a register number
  touches (`Banks`), and the copies between a bank's raw block and the cache
  (`Supply`, `Collect`).
- `MipsFbsdTransfer` (`transfer.dfy`): a reference semantics over values. A
  fetch runs the selected banks in order (read, then supply); a store runs
  them in order (read, collect, write back); both stop at the first request
  the kernel refuses. The lemmas state the request order, fail-fast, the
  read-modify-write, and the store-then-fetch round trips.
- `MipsFbsdNat` (`nat.dfy`): the backend as it runs. Class `FbsdNatTarget`
  holds the kernel's two register sets and the register cache as arrays that
  are changed in place, plus a ghost log of the ptrace requests issued. The
  ptrace requests are methods whose failures come from a fault set (the
  requests the kernel refuses during the call). Fetch and store are
  straight-line methods with the source's branches and early returns. Each is
  proved to issue exactly the requests of the reference semantics, report its
  status, and leave its state. The block each function repeats once per bank
  is the per-bank method `FetchBank` or `StoreBank`.

The copies between a raw block and the cache are done by routines in
`mips-fbsd-tdep.c`, which is not part of this model. The model assumes their
layout:

- slot k of `struct reg` holds register `ZeroRegnum + k`, up to the program counter;
- slot k of `struct fpreg` holds register `fp0 + k`, for `numFpRegs` registers;
- a call for one register number moves that register alone, and a call for `-1` moves the whole bank.

A raw block may have more slots than it carries registers, and those slots pass through a store unchanged.

The code does not reject a register number that lies outside every bank, and
the model follows the code. A number below `-1`, or between the program
counter and `fp0`, issues no request and changes nothing. A number at or
above `fp0` that the floating-point block does not carry still issues
`PT_GETFPREGS`. A fetch of such a number then supplies nothing. A store of it
still writes the unchanged floating-point set back with `PT_SETFPREGS`.

## Model

| member | source | states |
|---|---|---|
| `MipsFbsdRegs.GetregsSupplies` | gdb/mips-fbsd-nat.c:36-41 | PT_GETREGS is never said to carry the "all registers" number; with a valid numbering a register it carries lies below the first floating-point register |
| `MipsFbsdRegs.Banks` | gdb/mips-fbsd-nat.c:51-65 | a transfer touches the general bank exactly when regnum is -1 or `MIPS_ZERO_REGNUM <= regnum <= pc`; it touches the floating-point bank exactly when regnum is -1, or is at least fp0 and not general; it touches both only for -1, general first, each once |
| `MipsFbsdRegs.Classification` | gdb/mips-fbsd-nat.c:51-65 | with a valid numbering, a general register selects the general bank alone, a non-general register at or above fp0 selects the floating-point bank alone, any other register other than -1 selects nothing, and no register is both general and at or above fp0 |
| `MipsFbsdRegs.MessagesDistinct` | gdb/mips-fbsd-nat.c:90-119 | the four error texts differ, so a failed read and a failed write-back of either bank are told apart |
| `MipsFbsdRegs.ErrorOf` | gdb/mips-fbsd-nat.c:55-119 | each refused request is reported with its own error: the error names the bank the request transfers (PT_GETREGS/PT_SETREGS general, PT_GETFPREGS/PT_SETFPREGS floating-point) and whether it was a read or a write-back, so no two requests share an error |
| `MipsFbsdRegs.Message` | gdb/mips-fbsd-nat.c:57-119 | the text passed to `perror_with_name` for each error; every one begins "Couldn't " |
| `MipsFbsdRegs.Supply` | gdb/mips-fbsd-nat.c:59-74 | the assumed body of `mips_fbsd_supply_gregs` and `mips_fbsd_supply_fpregs`: the cache keeps its size (what it then holds is `SupplyMoves`) |
| `MipsFbsdRegs.Collect` | gdb/mips-fbsd-nat.c:94-115 | the assumed body of `mips_fbsd_collect_gregs` and `mips_fbsd_collect_fpregs`: the raw block keeps its size (what it then holds is `CollectMoves`) |
| `MipsFbsdRegs.SupplyMoves` | gdb/mips-fbsd-nat.c:59-74 | after supply, the cache agrees with the raw block on the registers regnum selects in the bank, every other register keeps its value, and for one register number only that register can change (the stated assumption about the supply routines) |
| `MipsFbsdRegs.CollectMoves` | gdb/mips-fbsd-nat.c:94-115 | after collect, the raw block agrees with the cache on the registers regnum selects in the bank, every other slot keeps the value the kernel returned, and for one register number only that register's slot can change (the stated assumption about the collect routines) |
| `MipsFbsdTransfer.FetchPlan` | gdb/mips-fbsd-nat.c:55-69 | a fetch of the selected banks that meets no failure issues one read per bank, in bank order |
| `MipsFbsdTransfer.StorePlan` | gdb/mips-fbsd-nat.c:90-117 | a store of the selected banks that meets no failure issues, for each bank in order, its read immediately followed by its write-back |
| `MipsFbsdTransfer.Fetch` | gdb/mips-fbsd-nat.c:46-76 | `mips_fbsd_fetch_inferior_registers` on the banks `Banks` selects: it never changes the kernel's register sets, its requests are a prefix of one read per selected bank in order, and a fetch of one register number (not -1) issues at most one request |
| `MipsFbsdTransfer.Store` | gdb/mips-fbsd-nat.c:81-121 | `mips_fbsd_store_inferior_registers` on the banks `Banks` selects: it never changes the register cache, its requests are a prefix of read then write-back per selected bank in order, and a store of one register number issues at most one read and one write-back |
| `MipsFbsdTransfer.FetchBanks` | gdb/mips-fbsd-nat.c:51-75 | a fetch never changes the kernel's register sets, keeps the cache's size, and issues a prefix of its plan |
| `MipsFbsdTransfer.StoreBanks` | gdb/mips-fbsd-nat.c:86-120 | a store never changes the register cache, keeps the sizes of the kernel's register sets, and issues a prefix of its plan |
| `MipsFbsdTransfer.FetchFailFast` | gdb/mips-fbsd-nat.c:55-71 | a fetch succeeds exactly when no planned read is refused, and then it issued every planned read; a failed fetch's last request is the refused one, its error names that request, and every earlier request succeeded |
| `MipsFbsdTransfer.StoreFailFast` | gdb/mips-fbsd-nat.c:90-119 | the same for a store: a refused read ends the store with that bank's read error and no write-back for it; a refused write-back ends it with that bank's write error |
| `MipsFbsdTransfer.FetchKeeps` | gdb/mips-fbsd-nat.c:55-74 | a register that no successfully read bank selects keeps its cached value, so a bank whose read failed writes nothing into the cache |
| `MipsFbsdTransfer.FetchSupplied` | gdb/mips-fbsd-nat.c:59-74 | every bank whose read succeeded is supplied and stays supplied: the final cache agrees with that kernel block on the registers regnum selects, even when a later read failed (no rollback) |
| `MipsFbsdTransfer.StoreWritesCollected` | gdb/mips-fbsd-nat.c:90-119 | a bank whose write-back succeeded now holds exactly the block the kernel returned, overlaid by collect from the cache for regnum; every other bank is as it was |
| `MipsFbsdTransfer.FetchAgreeing` | gdb/mips-fbsd-nat.c:51-75 | a fetch that meets no failure, from kernel blocks that already agree with the cache, issues its plan and changes nothing |
| `MipsFbsdTransfer.FetchAll` | gdb/mips-fbsd-nat.c:51-75 | fetch of -1 issues PT_GETREGS and then PT_GETFPREGS; a refused PT_GETREGS ends it with "Couldn't get registers", nothing supplied and no floating-point request; a refused PT_GETFPREGS leaves the general registers supplied; success leaves the cache agreeing with both kernel sets |
| `MipsFbsdTransfer.FetchOne` | gdb/mips-fbsd-nat.c:51-75 | fetch of one general register issues PT_GETREGS alone and returns; of a non-general register at or above fp0, PT_GETFPREGS alone; of any other register, nothing and no change; only the requested register can change, and after a successful read it holds the kernel's value |
| `MipsFbsdTransfer.StoreAll` | gdb/mips-fbsd-nat.c:86-120 | store of -1 issues a prefix of PT_GETREGS, PT_SETREGS, PT_GETFPREGS, PT_SETFPREGS, and all four in that order when none is refused; each refused request ends it with its own error; a refused read or write-back leaves that set unchanged; each set written back is the collected block |
| `MipsFbsdTransfer.StoreOne` | gdb/mips-fbsd-nat.c:86-120 | store of one general register issues at most PT_GETREGS then PT_SETREGS (both when neither is refused) and never touches the floating-point set; symmetrically for a floating-point-side register; any other register issues nothing; in every kernel block only the requested register's slot can change |
| `MipsFbsdTransfer.StoreThenFetch` | gdb/mips-fbsd-nat.c:81-121 | with no refused request, a store followed by a fetch of the same register number succeeds and gives back exactly the cache that was stored |
| `MipsFbsdTransfer.StoreThenFetchSibling` | gdb/mips-fbsd-nat.c:86-99 | with no refused request, storing register i and then fetching a different register j gives j the same value as fetching it before the store |
| `MipsFbsdNat.FbsdNatTarget.PtraceGet` | gdb/mips-fbsd-nat.c:55-57 | a read request is logged, fails exactly when the kernel refuses it, and on success fills a fresh buffer with the kernel's whole set |
| `MipsFbsdNat.FbsdNatTarget.PtraceSet` | gdb/mips-fbsd-nat.c:97-99 | a write-back request is logged, fails exactly when the kernel refuses it, and on success replaces the kernel's whole set with the buffer, otherwise changes nothing |
| `MipsFbsdNat.FbsdNatTarget.SupplyRegs` | gdb/mips-fbsd-nat.c:59-60 | the cache array becomes `Supply` of the buffer over the old cache |
| `MipsFbsdNat.FbsdNatTarget.CollectRegs` | gdb/mips-fbsd-nat.c:94-95 | the buffer becomes `Collect` of the cache over the buffer the kernel filled |
| `MipsFbsdNat.FbsdNatTarget.FetchBank` | gdb/mips-fbsd-nat.c:53-59 | one bank of a fetch logs its read and leaves the state and status of the reference semantics for that bank |
| `MipsFbsdNat.FbsdNatTarget.StoreBank` | gdb/mips-fbsd-nat.c:88-99 | one bank of a store logs its read and its write-back (if reached) and leaves the state and status of the reference semantics for that bank |
| `MipsFbsdNat.FbsdNatTarget.FetchInferiorRegisters` | gdb/mips-fbsd-nat.c:46-76 | the requests appended to the log, the status and the new kernel and cache contents are those of `Fetch` on the old contents |
| `MipsFbsdNat.FbsdNatTarget.StoreInferiorRegisters` | gdb/mips-fbsd-nat.c:81-121 | the requests appended to the log, the status and the new kernel and cache contents are those of `Store` on the old contents |

## Left out

- The qtrace commands (`cmd_qtrace_start`, `cmd_qtrace_stop`, `add_qtrace_commands`): each is one ptrace call plus command registration, with no transfer logic.
- `_initialize_mips_fbsd_nat`: it creates the target with `inf_ptrace_target ()`, sets `to_fetch_registers` and `to_store_registers` to the two transfer functions, registers the target with `fbsd_nat_add_target`, and adds the qtrace commands when `PT_GETQTRACE` is defined. None of this is transfer logic.
- `ptrace` itself, `get_ptrace_pid (inferior_ptid)` and errno: a request's success or failure comes from the fault set, and an error carries its kind and text but not the operating system's reason.
- `perror_with_name`'s non-local exit: a failure is a returned `Status`, and the state it leaves is the state at the failing request.
- `gdbarch_pc_regnum`, `gdbarch_fp0_regnum` and `get_regcache_arch`: the numbering is the `Arch` value the class holds.
- The layouts of `struct reg` and `struct fpreg` and the bodies of `mips_fbsd_supply_gregs`, `mips_fbsd_supply_fpregs`, `mips_fbsd_collect_gregs` and `mips_fbsd_collect_fpregs`: `mips-fbsd-tdep.c` is not part of this model, and they are replaced by the layout assumption stated above.
- Register widths (`sizeof (register_t)`, `sizeof (f_register_t)`) and byte order: a register is one `int` in one slot.
- PtraceSet: assumes that a refused `PT_SETREGS` or `PT_SETFPREGS` leaves the kernel's set unchanged. The source does not say what the kernel does then.
- PtraceGet: after a refused read the buffer's contents are unspecified, as in the source, and nothing uses them.
