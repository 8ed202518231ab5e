/** Reference semantics of the register transfers: a fetch or a store runs
    the selected banks in order, one kernel round trip per bank, and stops
    at the first request the kernel refuses. */
module MipsFbsdTransfer {
  import opened MipsFbsdRegs

  /** Everything a transfer reads or changes: the inferior's two register
      sets as the kernel holds them, and the debugger's register cache. */
  datatype Machine = Machine(gregs: seq<int>, fpregs: seq<int>, cache: seq<int>)
  {
    /** The kernel's raw block for bank `b`. */
    function Block(b: Bank): seq<int> {
      if b == General then gregs else fpregs
    }

    /** The machine with the kernel's raw block for bank `b` replaced. */
    function WithBlock(b: Bank, block: seq<int>): Machine {
      if b == General then this.(gregs := block) else this.(fpregs := block)
    }
  }

  /** The requests a transfer issued, how it ended, and the machine after it. */
  datatype Run = Run(requests: seq<Request>, status: Status, after: Machine)

  /** The requests a fetch of banks `bs` issues when the kernel refuses none. */
  function FetchPlan(bs: seq<Bank>): (p: seq<Request>)
    ensures |p| == |bs|
    ensures forall j | 0 <= j < |bs| :: p[j] == ReadRequest(bs[j])
  {
    if bs == [] then [] else [ReadRequest(bs[0])] + FetchPlan(bs[1..])
  }

  /** The requests a store of banks `bs` issues when the kernel refuses none. */
  function StorePlan(bs: seq<Bank>): (p: seq<Request>)
    ensures |p| == 2 * |bs|
    ensures forall j | 0 <= j < |bs| :: p[2 * j] == ReadRequest(bs[j]) && p[2 * j + 1] == WriteRequest(bs[j])
  {
    if bs == [] then [] else [ReadRequest(bs[0]), WriteRequest(bs[0])] + StorePlan(bs[1..])
  }

  /** Fetch banks `bs` in order: read the bank from the kernel, and either
      stop with the read's error or supply the block into the cache for
      `regnum` and go on. `fails` holds the requests the kernel refuses.
      A fetch never changes the kernel's register sets. */
  function FetchBanks(a: Arch, regnum: int, bs: seq<Bank>, fails: set<Request>, m: Machine): (r: Run)
    ensures r.after.gregs == m.gregs && r.after.fpregs == m.fpregs
    ensures |r.after.cache| == |m.cache|
    ensures r.requests <= FetchPlan(bs)
    decreases |bs|
  {
    if bs == [] then Run([], Done, m)
    else
      var q := ReadRequest(bs[0]);
      if q in fails then Run([q], Failed(ErrorOf(q)), m)
      else
        var rest := FetchBanks(a, regnum, bs[1..], fails,
                               m.(cache := Supply(a, bs[0], regnum, m.Block(bs[0]), m.cache)));
        Run([q] + rest.requests, rest.status, rest.after)
  }

  /** Store banks `bs` in order: read the bank from the kernel, collect the
      cache into it for `regnum`, write it back; stop at the first refused
      request with its error. A store never changes the register cache. */
  function StoreBanks(a: Arch, regnum: int, bs: seq<Bank>, fails: set<Request>, m: Machine): (r: Run)
    ensures r.after.cache == m.cache
    ensures |r.after.gregs| == |m.gregs| && |r.after.fpregs| == |m.fpregs|
    ensures r.requests <= StorePlan(bs)
    decreases |bs|
  {
    if bs == [] then Run([], Done, m)
    else
      var get, put := ReadRequest(bs[0]), WriteRequest(bs[0]);
      if get in fails then Run([get], Failed(ErrorOf(get)), m)
      else
        var block := Collect(a, bs[0], regnum, m.cache, m.Block(bs[0]));
        if put in fails then Run([get, put], Failed(ErrorOf(put)), m)
        else
          var rest := StoreBanks(a, regnum, bs[1..], fails, m.WithBlock(bs[0], block));
          Run([get, put] + rest.requests, rest.status, rest.after)
  }

  /** mips_fbsd_fetch_inferior_registers: the banks `regnum` selects, in
      order. It leaves the kernel alone, and a fetch of one register number
      issues at most one request. */
  function Fetch(a: Arch, regnum: int, fails: set<Request>, m: Machine): (r: Run)
    ensures r.after.gregs == m.gregs && r.after.fpregs == m.fpregs
    ensures r.requests <= FetchPlan(Banks(a, regnum))
    ensures regnum != AllRegs ==> |r.requests| <= 1
  {
    FetchBanks(a, regnum, Banks(a, regnum), fails, m)
  }

  /** mips_fbsd_store_inferior_registers: the banks `regnum` selects, in
      order. It leaves the cache alone, and a store of one register number
      issues at most one read and one write-back. */
  function Store(a: Arch, regnum: int, fails: set<Request>, m: Machine): (r: Run)
    ensures r.after.cache == m.cache
    ensures r.requests <= StorePlan(Banks(a, regnum))
    ensures regnum != AllRegs ==> |r.requests| <= 2
  {
    StoreBanks(a, regnum, Banks(a, regnum), fails, m)
  }

  /** Run `r` with the requests `done` issued before it. */
  function After(done: seq<Request>, r: Run): Run {
    r.(requests := done + r.requests)
  }

  /** A fetch of several banks is the fetch of the first bank and, when
      that succeeds, the fetch of the others from the machine it leaves. */
  lemma FetchSplit(a: Arch, regnum: int, bs: seq<Bank>, fails: set<Request>, m: Machine)
    requires bs != []
    ensures var first := FetchBanks(a, regnum, [bs[0]], fails, m);
      FetchBanks(a, regnum, bs, fails, m) ==
        if first.status.Failed? then first
        else After(first.requests, FetchBanks(a, regnum, bs[1..], fails, first.after))
  {
    var q := ReadRequest(bs[0]);
    if q !in fails {
      var m1 := m.(cache := Supply(a, bs[0], regnum, m.Block(bs[0]), m.cache));
      assert [bs[0]][1..] == [];
      assert FetchBanks(a, regnum, [bs[0]], fails, m) == Run([q], Done, m1);
    }
  }

  /** A store of several banks is the store of the first bank and, when
      that succeeds, the store of the others from the machine it leaves. */
  lemma StoreSplit(a: Arch, regnum: int, bs: seq<Bank>, fails: set<Request>, m: Machine)
    requires bs != []
    ensures var first := StoreBanks(a, regnum, [bs[0]], fails, m);
      StoreBanks(a, regnum, bs, fails, m) ==
        if first.status.Failed? then first
        else After(first.requests, StoreBanks(a, regnum, bs[1..], fails, first.after))
  {
    var get, put := ReadRequest(bs[0]), WriteRequest(bs[0]);
    if get !in fails && put !in fails {
      var m1 := m.WithBlock(bs[0], Collect(a, bs[0], regnum, m.cache, m.Block(bs[0])));
      assert [bs[0]][1..] == [];
      assert StoreBanks(a, regnum, [bs[0]], fails, m) == Run([get, put], Done, m1);
    }
  }

  /** The index of the last request of a non-empty log. */
  function LastIndex(requests: seq<Request>): int {
    |requests| - 1
  }

  /** A transfer that succeeds and one that fails, told apart by the log:
      it succeeds exactly when the kernel refuses none of the planned
      requests, and then it issued all of them; when it fails, the last
      request it issued is the refused one, its error names that request,
      and every earlier request succeeded. */
  ghost predicate FailsFast(r: Run, plan: seq<Request>, fails: set<Request>) {
    && r.requests <= plan
    && (r.status == Done <==> forall q | q in plan :: q !in fails)
    && (r.status == Done ==> r.requests == plan)
    && (r.status.Failed? ==>
          && r.requests != []
          && r.requests[LastIndex(r.requests)] in fails
          && r.status.kind == ErrorOf(r.requests[LastIndex(r.requests)]))
    && (forall j | 0 <= j < LastIndex(r.requests) :: r.requests[j] !in fails)
  }

  /** Requests the kernel answered, followed by a transfer that fails
      fast, make a transfer that fails fast. */
  lemma FailsFastAfter(done: seq<Request>, r: Run, plan: seq<Request>, fails: set<Request>)
    requires forall q | q in done :: q !in fails
    requires FailsFast(r, plan, fails)
    ensures FailsFast(After(done, r), done + plan, fails)
  {
    var r' := After(done, r);
    assert r'.requests <= done + plan;
    if r.status.Failed? {
      assert r'.requests[LastIndex(r'.requests)] == r.requests[LastIndex(r.requests)];
    }
    forall j | 0 <= j < LastIndex(r'.requests) ensures r'.requests[j] !in fails {
      if j >= |done| {
        assert r'.requests[j] == r.requests[j - |done|];
      } else {
        assert r'.requests[j] == done[j];
      }
    }
  }

  /** A fetch fails fast: it issues the planned reads in order and stops
      at the first one the kernel refuses, reporting that read's error. */
  lemma {:induction false} FetchFailFast(a: Arch, regnum: int, bs: seq<Bank>, fails: set<Request>, m: Machine)
    ensures FailsFast(FetchBanks(a, regnum, bs, fails, m), FetchPlan(bs), fails)
    decreases |bs|
  {
    if bs != [] {
      var q := ReadRequest(bs[0]);
      assert FetchPlan(bs) == [q] + FetchPlan(bs[1..]);
      if q !in fails {
        var m1 := m.(cache := Supply(a, bs[0], regnum, m.Block(bs[0]), m.cache));
        FetchFailFast(a, regnum, bs[1..], fails, m1);
        FailsFastAfter([q], FetchBanks(a, regnum, bs[1..], fails, m1), FetchPlan(bs[1..]), fails);
      }
    }
  }

  /** A store fails fast: it issues each bank's read and then its
      write-back, bank after bank, and stops at the first request the kernel
      refuses, reporting that request's error, so a refused read is never
      followed by a write-back. */
  lemma {:induction false} StoreFailFast(a: Arch, regnum: int, bs: seq<Bank>, fails: set<Request>, m: Machine)
    ensures FailsFast(StoreBanks(a, regnum, bs, fails, m), StorePlan(bs), fails)
    decreases |bs|
  {
    if bs != [] {
      var get, put := ReadRequest(bs[0]), WriteRequest(bs[0]);
      assert StorePlan(bs) == [get, put] + StorePlan(bs[1..]);
      if get !in fails && put !in fails {
        var m1 := m.WithBlock(bs[0], Collect(a, bs[0], regnum, m.cache, m.Block(bs[0])));
        StoreFailFast(a, regnum, bs[1..], fails, m1);
        FailsFastAfter([get, put], StoreBanks(a, regnum, bs[1..], fails, m1), StorePlan(bs[1..]), fails);
      }
    }
  }

  /** Whether the kernel answered request `q` of a transfer's log. */
  ghost predicate Succeeded(r: Run, fails: set<Request>, q: Request) {
    q in r.requests && q !in fails
  }

  /** A fetch leaves alone every register that no successfully read bank
      selects: a bank whose read failed writes nothing into the cache. */
  lemma {:induction false} FetchKeeps(a: Arch, regnum: int, bs: seq<Bank>, fails: set<Request>, m: Machine, i: int)
    requires 0 <= i < |m.cache|
    requires forall b | Succeeded(FetchBanks(a, regnum, bs, fails, m), fails, ReadRequest(b)) ::
      !Selects(a, b, regnum, i)
    ensures FetchBanks(a, regnum, bs, fails, m).after.cache[i] == m.cache[i]
    decreases |bs|
  {
    if bs != [] && ReadRequest(bs[0]) !in fails {
      var m1 := m.(cache := Supply(a, bs[0], regnum, m.Block(bs[0]), m.cache));
      FetchSplit(a, regnum, bs, fails, m);
      SupplyMoves(a, bs[0], regnum, m.Block(bs[0]), m.cache);
      FetchKeeps(a, regnum, bs[1..], fails, m1, i);
    }
  }

  /** Every bank whose read succeeded during a fetch has been supplied and
      stays supplied: the cache agrees with the kernel's block on the
      registers `regnum` selects in it, whatever happened after. */
  lemma {:induction false} FetchSupplied(a: Arch, regnum: int, bs: seq<Bank>, fails: set<Request>, m: Machine, b: Bank)
    requires a.Valid()
    requires Succeeded(FetchBanks(a, regnum, bs, fails, m), fails, ReadRequest(b))
    ensures Agrees(a, b, regnum, FetchBanks(a, regnum, bs, fails, m).after.cache, m.Block(b))
    decreases |bs|
  {
    var b0 := bs[0];
    var m1 := m.(cache := Supply(a, b0, regnum, m.Block(b0), m.cache));
    var rest := FetchBanks(a, regnum, bs[1..], fails, m1);
    FetchSplit(a, regnum, bs, fails, m);
    if Succeeded(rest, fails, ReadRequest(b)) {
      FetchSupplied(a, regnum, bs[1..], fails, m1, b);
    } else {
      SupplyMoves(a, b0, regnum, m.Block(b0), m.cache);
      forall i | 0 <= i < |m.cache| && Selects(a, b, regnum, i)
        ensures rest.after.cache[i] == m1.cache[i]
      {
        FetchKeeps(a, regnum, bs[1..], fails, m1, i);
      }
    }
  }

  /** What a store does to the kernel: a bank whose write-back succeeded
      now holds exactly the block the kernel returned for it, overlaid by
      collect from the cache for `regnum`; a bank whose write-back was not
      issued or failed is as it was. */
  lemma {:induction false} StoreWritesCollected(a: Arch, regnum: int, bs: seq<Bank>, fails: set<Request>, m: Machine)
    ensures var r := StoreBanks(a, regnum, bs, fails, m);
      forall b :: r.after.Block(b) ==
        if Succeeded(r, fails, WriteRequest(b)) then Collect(a, b, regnum, m.cache, m.Block(b)) else m.Block(b)
    decreases |bs|
  {
    if bs != [] && ReadRequest(bs[0]) !in fails && WriteRequest(bs[0]) !in fails {
      var b0 := bs[0];
      var block := Collect(a, b0, regnum, m.cache, m.Block(b0));
      var m1 := m.WithBlock(b0, block);
      StoreWritesCollected(a, regnum, bs[1..], fails, m1);
      var r := StoreBanks(a, regnum, bs, fails, m);
      var rest := StoreBanks(a, regnum, bs[1..], fails, m1);
      assert r.requests == [ReadRequest(b0), WriteRequest(b0)] + rest.requests;
      forall b ensures r.after.Block(b) ==
        if Succeeded(r, fails, WriteRequest(b)) then Collect(a, b, regnum, m.cache, m.Block(b)) else m.Block(b)
      {
        if b == b0 {
          CollectIdempotent(a, b, regnum, m.cache, m.Block(b));
        } else {
          assert WriteRequest(b) in r.requests <==> WriteRequest(b) in rest.requests;
        }
      }
    }
  }

  /** A fetch that the kernel answers in full, of a machine whose kernel
      blocks already agree with the cache, leaves the cache as it was. */
  lemma {:induction false} FetchAgreeing(a: Arch, regnum: int, bs: seq<Bank>, m: Machine)
    requires forall b | b in bs :: Agrees(a, b, regnum, m.cache, m.Block(b))
    ensures FetchBanks(a, regnum, bs, {}, m) == Run(FetchPlan(bs), Done, m)
    decreases |bs|
  {
    if bs != [] {
      SupplyAgreeing(a, bs[0], regnum, m.Block(bs[0]), m.cache);
      assert m.(cache := Supply(a, bs[0], regnum, m.Block(bs[0]), m.cache)) == m;
      FetchAgreeing(a, regnum, bs[1..], m);
    }
  }

  /** Fetching every register reads the general bank and then the
      floating-point bank. A refused general read stops the fetch before
      anything is supplied and before any floating-point request; a refused
      floating-point read leaves the general registers already supplied in
      the cache; when both reads succeed the cache agrees with both of the
      kernel's blocks. */
  lemma FetchAll(a: Arch, fails: set<Request>, m: Machine)
    requires a.Valid()
    ensures var r := Fetch(a, AllRegs, fails, m);
      && (GetRegs in fails ==> r == Run([GetRegs], Failed(GeneralRead), m))
      && (GetRegs !in fails ==> r.requests == [GetRegs, GetFpRegs])
      && (GetRegs !in fails && GetFpRegs in fails ==>
            r.status == Failed(FloatRead) && r.after.cache == Supply(a, General, AllRegs, m.gregs, m.cache))
      && (GetRegs !in fails && GetFpRegs !in fails ==>
            && r.status == Done
            && Agrees(a, General, AllRegs, r.after.cache, m.gregs)
            && Agrees(a, Float, AllRegs, r.after.cache, m.fpregs))
  {
    var bs := Banks(a, AllRegs);
    assert bs[1..] == [Float];
    FetchFailFast(a, AllRegs, bs, fails, m);
    FetchSplit(a, AllRegs, bs, fails, m);
    if GetRegs !in fails {
      var m1 := m.(cache := Supply(a, General, AllRegs, m.gregs, m.cache));
      assert FetchBanks(a, AllRegs, bs, fails, m) == After([GetRegs], FetchBanks(a, AllRegs, [Float], fails, m1));
    }
    if GetRegs !in fails && GetFpRegs !in fails {
      FetchSupplied(a, AllRegs, bs, fails, m, General);
      FetchSupplied(a, AllRegs, bs, fails, m, Float);
    }
  }

  /** Fetching one register: a general register issues PT_GETREGS alone
      and returns before any floating-point request; a register at or above
      fp0 that is not general issues PT_GETFPREGS alone; any other register
      issues nothing and changes nothing. Only the requested register of the
      cache can change, and when its bank was read it now holds the kernel's
      value. */
  lemma FetchOne(a: Arch, regnum: int, fails: set<Request>, m: Machine)
    requires a.Valid() && regnum != AllRegs
    ensures var r := Fetch(a, regnum, fails, m);
      && (GetregsSupplies(a, regnum) ==>
            && r.requests == [GetRegs]
            && r.status == (if GetRegs in fails then Failed(GeneralRead) else Done)
            && (r.status == Done ==> Agrees(a, General, regnum, r.after.cache, m.gregs)))
      && (!GetregsSupplies(a, regnum) && regnum >= a.fp0Regnum ==>
            && r.requests == [GetFpRegs]
            && r.status == (if GetFpRegs in fails then Failed(FloatRead) else Done)
            && (r.status == Done ==> Agrees(a, Float, regnum, r.after.cache, m.fpregs)))
      && (!GetregsSupplies(a, regnum) && regnum < a.fp0Regnum ==> r == Run([], Done, m))
      && (r.status.Failed? ==> r.after == m)
      && (forall i | 0 <= i < |m.cache| && i != regnum :: r.after.cache[i] == m.cache[i])
  {
    var bs := Banks(a, regnum);
    FetchFailFast(a, regnum, bs, fails, m);
    if bs != [] {
      var m1 := m.(cache := Supply(a, bs[0], regnum, m.Block(bs[0]), m.cache));
      assert bs == [bs[0]] && bs[1..] == [];
      assert ReadRequest(bs[0]) !in fails ==> FetchBanks(a, regnum, bs, fails, m) == Run([ReadRequest(bs[0])], Done, m1);
      SupplyMoves(a, bs[0], regnum, m.Block(bs[0]), m.cache);
    }
  }

  /** Storing every register runs the whole general phase (PT_GETREGS, then
      PT_SETREGS) before any floating-point request, then PT_GETFPREGS and
      PT_SETFPREGS. A refused read issues no write-back for that bank; each
      refused request is reported with its own error; a bank is written
      back as the kernel returned it, overlaid by collect. */
  lemma StoreAll(a: Arch, fails: set<Request>, m: Machine)
    ensures var r := Store(a, AllRegs, fails, m);
      && r.requests <= [GetRegs, SetRegs, GetFpRegs, SetFpRegs]
      && (GetRegs in fails ==> r == Run([GetRegs], Failed(GeneralRead), m))
      && (GetRegs !in fails && SetRegs in fails ==> r == Run([GetRegs, SetRegs], Failed(GeneralWrite), m))
      && (GetRegs !in fails && SetRegs !in fails ==>
            && r.after.gregs == Collect(a, General, AllRegs, m.cache, m.gregs)
            && (GetFpRegs in fails ==>
                  r.requests == [GetRegs, SetRegs, GetFpRegs] && r.status == Failed(FloatRead)
                  && r.after.fpregs == m.fpregs)
            && (GetFpRegs !in fails && SetFpRegs in fails ==>
                  r.requests == [GetRegs, SetRegs, GetFpRegs, SetFpRegs] && r.status == Failed(FloatWrite)
                  && r.after.fpregs == m.fpregs)
            && (GetFpRegs !in fails && SetFpRegs !in fails ==>
                  && r.requests == [GetRegs, SetRegs, GetFpRegs, SetFpRegs]
                  && r.status == Done && r.after.fpregs == Collect(a, Float, AllRegs, m.cache, m.fpregs)))
  {
    var bs := Banks(a, AllRegs);
    assert bs[1..] == [Float];
    assert StorePlan(bs) == [GetRegs, SetRegs, GetFpRegs, SetFpRegs];
    StoreFailFast(a, AllRegs, bs, fails, m);
    StoreWritesCollected(a, AllRegs, bs, fails, m);
  }

  /** Storing one register touches the one bank that carries it: read,
      collect, write back, and return, leaving the other bank alone; a
      register of neither bank issues nothing and changes nothing. In the
      bank written back, only the requested register's slot can differ from
      what the kernel returned. */
  lemma StoreOne(a: Arch, regnum: int, fails: set<Request>, m: Machine)
    requires regnum != AllRegs
    ensures var r := Store(a, regnum, fails, m);
      && (GetregsSupplies(a, regnum) ==>
            && r.requests <= [GetRegs, SetRegs]
            && r.after.fpregs == m.fpregs
            && (GetRegs in fails ==> r == Run([GetRegs], Failed(GeneralRead), m))
            && (GetRegs !in fails && SetRegs in fails ==> r == Run([GetRegs, SetRegs], Failed(GeneralWrite), m))
            && (GetRegs !in fails && SetRegs !in fails ==>
                  && r.requests == [GetRegs, SetRegs]
                  && r.status == Done && r.after.gregs == Collect(a, General, regnum, m.cache, m.gregs)))
      && (!GetregsSupplies(a, regnum) && regnum >= a.fp0Regnum ==>
            && r.requests <= [GetFpRegs, SetFpRegs]
            && r.after.gregs == m.gregs
            && (GetFpRegs in fails ==> r == Run([GetFpRegs], Failed(FloatRead), m))
            && (GetFpRegs !in fails && SetFpRegs in fails ==> r == Run([GetFpRegs, SetFpRegs], Failed(FloatWrite), m))
            && (GetFpRegs !in fails && SetFpRegs !in fails ==>
                  && r.requests == [GetFpRegs, SetFpRegs]
                  && r.status == Done && r.after.fpregs == Collect(a, Float, regnum, m.cache, m.fpregs)))
      && (!GetregsSupplies(a, regnum) && regnum < a.fp0Regnum ==> r == Run([], Done, m))
      && (forall b, k | 0 <= k < |m.Block(b)| && Base(a, b) + k != regnum :: r.after.Block(b)[k] == m.Block(b)[k])
  {
    var bs := Banks(a, regnum);
    StoreFailFast(a, regnum, bs, fails, m);
    StoreWritesCollected(a, regnum, bs, fails, m);
    CollectMoves(a, General, regnum, m.cache, m.gregs);
    CollectMoves(a, Float, regnum, m.cache, m.fpregs);
  }

  /** A store the kernel answers in full, followed by a fetch of the same
      register number, gives back the cache that was stored and leaves the
      kernel as the store left it. */
  lemma StoreThenFetch(a: Arch, regnum: int, m: Machine)
    ensures var s := Store(a, regnum, {}, m);
      && s.status == Done
      && Fetch(a, regnum, {}, s.after) == Run(FetchPlan(Banks(a, regnum)), Done, s.after)
      && s.after.cache == m.cache
  {
    var bs := Banks(a, regnum);
    StoreFailFast(a, regnum, bs, {}, m);
    StoreWritesCollected(a, regnum, bs, {}, m);
    var s := Store(a, regnum, {}, m);
    forall b | b in bs ensures Agrees(a, b, regnum, s.after.cache, s.after.Block(b)) {
      var j :| 0 <= j < |bs| && bs[j] == b;
      assert StorePlan(bs)[2 * j + 1] == WriteRequest(b);
      CollectMoves(a, b, regnum, m.cache, m.Block(b));
    }
    FetchAgreeing(a, regnum, bs, s.after);
  }

  /** Storing register `i` and then fetching a different register `j`
      gives `j` the value the kernel held for it before the store: the
      read-modify-write does not disturb sibling registers. */
  lemma StoreThenFetchSibling(a: Arch, i: int, j: int, m: Machine)
    requires i != AllRegs && j != AllRegs && i != j
    ensures var before, after := Fetch(a, j, {}, m), Fetch(a, j, {}, Store(a, i, {}, m).after);
      && after.requests == before.requests
      && after.status == before.status
      && after.after.cache == before.after.cache
  {
    var s := Store(a, i, {}, m).after;
    StoreOne(a, i, {}, m);
    var bs := Banks(a, j);
    if bs != [] {
      var b := bs[0];
      assert bs == [b] && bs[1..] == [];
      assert |s.Block(b)| == |m.Block(b)|;
      var c := Supply(a, b, j, m.Block(b), m.cache);
      assert Supply(a, b, j, s.Block(b), s.cache) == c;
      assert FetchBanks(a, j, bs, {}, m) == Run([ReadRequest(b)], Done, m.(cache := c));
      assert FetchBanks(a, j, bs, {}, s) == Run([ReadRequest(b)], Done, s.(cache := c));
    }
  }
}
