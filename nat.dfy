/** The FreeBSD/MIPS native register transfers as they run: the kernel's
    copies of the inferior's register sets and the debugger's register cache
    are arrays changed in place, the ptrace requests are methods that may be
    refused, and fetch and store are the straight-line procedures of the
    backend, each proved to do what the reference semantics says. */
module MipsFbsdNat {
  import opened MipsFbsdRegs
  import opened MipsFbsdTransfer

  class FbsdNatTarget {
    /** Register numbering of the inferior's architecture. */
    const arch: Arch
    /** The kernel's general register set (struct reg). */
    const gregs: array<int>
    /** The kernel's floating-point register set (struct fpreg). */
    const fpregs: array<int>
    /** The debugger's register cache (struct regcache). */
    const cache: array<int>
    /** Every ptrace request issued so far, in order. */
    ghost var log: seq<Request>

    ghost predicate Valid()
      reads this
    {
      && arch.Valid()
      && gregs != fpregs && gregs != cache && fpregs != cache
      && gregs.Length > arch.pcRegnum - ZeroRegnum
      && fpregs.Length >= arch.numFpRegs
      && cache.Length >= arch.fp0Regnum + arch.numFpRegs
    }

    /** The contents of the two kernel register sets and of the cache. */
    ghost function State(): Machine
      reads this, gregs, fpregs, cache
    {
      Machine(gregs[..], fpregs[..], cache[..])
    }

    /** The kernel's array for bank `b`. */
    function BankArray(b: Bank): array<int> {
      if b == General then gregs else fpregs
    }

    constructor (arch: Arch, kernelRegs: seq<int>, kernelFpregs: seq<int>, regcache: seq<int>)
      requires arch.Valid()
      requires |kernelRegs| > arch.pcRegnum - ZeroRegnum && |kernelFpregs| >= arch.numFpRegs
      requires |regcache| >= arch.fp0Regnum + arch.numFpRegs
      ensures Valid() && fresh(gregs) && fresh(fpregs) && fresh(cache)
      ensures this.arch == arch
      ensures State() == Machine(kernelRegs, kernelFpregs, regcache) && log == []
    {
      this.arch := arch;
      gregs := new int[|kernelRegs|](i requires 0 <= i < |kernelRegs| => kernelRegs[i]);
      fpregs := new int[|kernelFpregs|](i requires 0 <= i < |kernelFpregs| => kernelFpregs[i]);
      cache := new int[|regcache|](i requires 0 <= i < |regcache| => regcache[i]);
      log := [];
    }

    /** PT_GETREGS or PT_GETFPREGS into a new buffer of the bank's size. The
        kernel refuses exactly the requests in `fails`; when it answers, the
        buffer holds the bank. */
    method PtraceGet(b: Bank, fails: set<Request>) returns (ok: bool, buf: array<int>)
      requires Valid()
      modifies this`log
      ensures Valid()
      ensures log == old(log) + [ReadRequest(b)]
      ensures ok <==> ReadRequest(b) !in fails
      ensures fresh(buf) && buf.Length == BankArray(b).Length
      ensures ok ==> buf[..] == State().Block(b)
    {
      var bank := BankArray(b);
      buf := new int[bank.Length];
      ok := ReadRequest(b) !in fails;
      if ok {
        forall k | 0 <= k < buf.Length {
          buf[k] := bank[k];
        }
      }
      log := log + [ReadRequest(b)];
    }

    /** PT_SETREGS or PT_SETFPREGS from `buf`. The kernel refuses exactly the
        requests in `fails`; a refused request leaves its register set as it
        was, an answered one replaces the whole set with the buffer. */
    method PtraceSet(b: Bank, buf: array<int>, fails: set<Request>) returns (ok: bool)
      requires Valid()
      requires buf != gregs && buf != fpregs && buf != cache
      requires buf.Length == BankArray(b).Length
      modifies this`log, BankArray(b)
      ensures Valid()
      ensures log == old(log) + [WriteRequest(b)]
      ensures ok <==> WriteRequest(b) !in fails
      ensures State() == if ok then old(State()).WithBlock(b, buf[..]) else old(State())
    {
      var bank := BankArray(b);
      ok := WriteRequest(b) !in fails;
      if ok {
        forall k | 0 <= k < bank.Length {
          bank[k] := buf[k];
        }
      }
      log := log + [WriteRequest(b)];
    }

    /** mips_fbsd_supply_gregs / mips_fbsd_supply_fpregs: copy the registers
        `regnum` selects from bank `b`'s block `buf` into the cache. */
    method SupplyRegs(b: Bank, regnum: int, buf: array<int>)
      requires Valid() && buf != cache
      modifies cache
      ensures Valid()
      ensures cache[..] == Supply(arch, b, regnum, buf[..], old(cache[..]))
    {
      forall i | 0 <= i < cache.Length && Selects(arch, b, regnum, i) && i - Base(arch, b) < buf.Length {
        cache[i] := buf[i - Base(arch, b)];
      }
    }

    /** mips_fbsd_collect_gregs / mips_fbsd_collect_fpregs: overlay the
        registers `regnum` selects from the cache onto bank `b`'s block
        `buf`, leaving its other slots as they are. */
    method CollectRegs(b: Bank, regnum: int, buf: array<int>)
      requires Valid() && buf != cache
      modifies buf
      ensures Valid()
      ensures buf[..] == Collect(arch, b, regnum, cache[..], old(buf[..]))
    {
      forall k | 0 <= k < buf.Length && Selects(arch, b, regnum, Base(arch, b) + k)
                 && 0 <= Base(arch, b) + k < cache.Length {
        buf[k] := cache[Base(arch, b) + k];
      }
    }

    /** One bank of a fetch: PT_GETREGS or PT_GETFPREGS into a buffer, then
        supply the buffer into the cache for `regnum`. */
    method FetchBank(b: Bank, regnum: int, fails: set<Request>) returns (status: Status)
      requires Valid()
      modifies this`log, cache
      ensures Valid()
      ensures var r := FetchBanks(arch, regnum, [b], fails, old(State()));
        log == old(log) + r.requests && status == r.status && State() == r.after
    {
      ghost var m := State();
      assert [b][1..] == [];
      var ok, buf := PtraceGet(b, fails);
      if !ok {
        return Failed(ErrorOf(ReadRequest(b)));
      }
      SupplyRegs(b, regnum, buf);
      assert State() == m.(cache := Supply(arch, b, regnum, m.Block(b), m.cache));
      return Done;
    }

    /** One bank of a store: PT_GETREGS or PT_GETFPREGS into a buffer,
        collect the cache into the buffer for `regnum`, then PT_SETREGS or
        PT_SETFPREGS from the buffer. */
    method StoreBank(b: Bank, regnum: int, fails: set<Request>) returns (status: Status)
      requires Valid()
      modifies this`log, BankArray(b)
      ensures Valid()
      ensures var r := StoreBanks(arch, regnum, [b], fails, old(State()));
        log == old(log) + r.requests && status == r.status && State() == r.after
    {
      ghost var m := State();
      assert [b][1..] == [];
      var ok, buf := PtraceGet(b, fails);
      if !ok {
        return Failed(ErrorOf(ReadRequest(b)));
      }
      CollectRegs(b, regnum, buf);
      ok := PtraceSet(b, buf, fails);
      if !ok {
        return Failed(ErrorOf(WriteRequest(b)));
      }
      assert State() == m.WithBlock(b, Collect(arch, b, regnum, m.cache, m.Block(b)));
      return Done;
    }

    /** mips_fbsd_fetch_inferior_registers: fetch register `regnum` (every
        register when it is AllRegs) from the kernel into the cache. */
    method FetchInferiorRegisters(regnum: int, fails: set<Request>) returns (status: Status)
      requires Valid()
      modifies this`log, cache
      ensures Valid()
      ensures var r := Fetch(arch, regnum, fails, old(State()));
        log == old(log) + r.requests && status == r.status && State() == r.after
    {
      ghost var banks := Banks(arch, regnum);
      ghost var m := State();
      if regnum == AllRegs || GetregsSupplies(arch, regnum) {
        FetchSplit(arch, regnum, banks, fails, m);
        status := FetchBank(General, regnum, fails);
        if status.Failed? || regnum != AllRegs {
          return;
        }
        assert banks[1..] == [Float];
      }
      if regnum == AllRegs || regnum >= arch.fp0Regnum {
        FetchSplit(arch, regnum, [Float], fails, State());
        status := FetchBank(Float, regnum, fails);
        return;
      }
      return Done;
    }

    /** mips_fbsd_store_inferior_registers: store register `regnum` (every
        register when it is AllRegs) from the cache into the kernel, one
        read-modify-write per bank. */
    method StoreInferiorRegisters(regnum: int, fails: set<Request>) returns (status: Status)
      requires Valid()
      modifies this`log, gregs, fpregs
      ensures Valid()
      ensures var r := Store(arch, regnum, fails, old(State()));
        log == old(log) + r.requests && status == r.status && State() == r.after
    {
      ghost var banks := Banks(arch, regnum);
      ghost var m := State();
      if regnum == AllRegs || GetregsSupplies(arch, regnum) {
        StoreSplit(arch, regnum, banks, fails, m);
        status := StoreBank(General, regnum, fails);
        if status.Failed? || regnum != AllRegs {
          return;
        }
        assert banks[1..] == [Float];
      }
      if regnum == AllRegs || regnum >= arch.fp0Regnum {
        StoreSplit(arch, regnum, [Float], fails, State());
        status := StoreBank(Float, regnum, fails);
        return;
      }
      return Done;
    }
  }
}
