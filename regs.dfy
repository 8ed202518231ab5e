/** Register numbering of the FreeBSD/MIPS native backend: which bank a
    register number belongs to, which banks a transfer for a register
    number touches, and how a bank's raw block maps onto the register cache. */
module MipsFbsdRegs {

  /** MIPS_ZERO_REGNUM: the first general-purpose register. */
  const ZeroRegnum: int := 0

  /** The register number callers pass to mean "every register". */
  const AllRegs: int := -1

  /** What the architecture descriptor supplies: the number of the program
      counter (the last register PT_GETREGS carries), the number of the first
      floating-point register, and how many registers PT_GETFPREGS carries. */
  datatype Arch = Arch(pcRegnum: int, fp0Regnum: int, numFpRegs: nat)
  {
    /** The general-purpose range is not empty and ends before the
        floating-point bank starts. */
    predicate Valid() {
      ZeroRegnum <= pcRegnum < fp0Regnum
    }
  }

  /** The two register sets the kernel transfers as a whole. */
  datatype Bank = General | Float

  /** The four ptrace requests the transfers issue. */
  datatype Request = GetRegs | SetRegs | GetFpRegs | SetFpRegs

  /** Which step of a transfer failed. */
  datatype ErrorKind = GeneralRead | GeneralWrite | FloatRead | FloatWrite

  /** The outcome of a fetch or a store. */
  datatype Status = Done | Failed(kind: ErrorKind)

  /** PT_GETREGS or PT_GETFPREGS. */
  function ReadRequest(b: Bank): Request {
    if b == General then GetRegs else GetFpRegs
  }

  /** PT_SETREGS or PT_SETFPREGS. */
  function WriteRequest(b: Bank): Request {
    if b == General then SetRegs else SetFpRegs
  }

  /** The error reported when the kernel refuses request `q`: it names
      the bank the request transfers and whether it was a read or a
      write-back. */
  function ErrorOf(q: Request): (k: ErrorKind)
    ensures (k == GeneralRead || k == GeneralWrite) <==> (q == GetRegs || q == SetRegs)
    ensures (k == GeneralRead || k == FloatRead) <==> (q == GetRegs || q == GetFpRegs)
  {
    match q
    case GetRegs => GeneralRead
    case SetRegs => GeneralWrite
    case GetFpRegs => FloatRead
    case SetFpRegs => FloatWrite
  }

  /** The text passed to perror_with_name for each kind of failure. */
  function Message(k: ErrorKind): (s: string)
    ensures "Couldn't " <= s
  {
    match k
    case GeneralRead => "Couldn't get registers"
    case GeneralWrite => "Couldn't write registers"
    case FloatRead => "Couldn't get floating point status"
    case FloatWrite => "Couldn't write floating point status"
  }

  /** A failed read and a failed write-back of the same bank, and failures
      in different banks, are reported with different texts. */
  lemma MessagesDistinct(k1: ErrorKind, k2: ErrorKind)
    ensures Message(k1) == Message(k2) <==> k1 == k2
  {
  }

  /** Whether PT_GETREGS fetches register `regnum` (getregs_supplies). */
  function GetregsSupplies(a: Arch, regnum: int): (r: bool)
    ensures r ==> regnum != AllRegs
    ensures r && a.Valid() ==> regnum < a.fp0Regnum
  {
    ZeroRegnum <= regnum <= a.pcRegnum
  }

  /** The banks a fetch or a store of `regnum` transfers, in the order it
      transfers them: the general bank when `regnum` is "all" or a general
      register, then (only for "all", since a general register returns
      early) the floating-point bank when `regnum` is "all" or at least fp0. */
  function Banks(a: Arch, regnum: int): (bs: seq<Bank>)
    ensures General in bs <==> regnum == AllRegs || ZeroRegnum <= regnum <= a.pcRegnum
    ensures Float in bs <==>
      regnum == AllRegs || (a.fp0Regnum <= regnum && !(ZeroRegnum <= regnum <= a.pcRegnum))
    ensures |bs| == 2 <==> regnum == AllRegs
    ensures |bs| == 2 ==> bs == [General, Float]
    ensures |bs| <= 2
  {
    if regnum == AllRegs || GetregsSupplies(a, regnum) then
      if regnum != AllRegs then [General] else [General, Float]
    else if regnum >= a.fp0Regnum then [Float]
    else []
  }

  /** With a valid numbering, every register number is "all", a general
      register, a floating-point-side register, or none of these, and
      never two of them. */
  lemma Classification(a: Arch, regnum: int)
    requires a.Valid()
    ensures GetregsSupplies(a, regnum) ==> Banks(a, regnum) == [General]
    ensures regnum != AllRegs && regnum >= a.fp0Regnum ==> Banks(a, regnum) == [Float]
    ensures regnum != AllRegs && !GetregsSupplies(a, regnum) && regnum < a.fp0Regnum ==>
      Banks(a, regnum) == []
    ensures !(GetregsSupplies(a, regnum) && regnum >= a.fp0Regnum)
  {
  }

  // Layout of the raw blocks. The copies between a block and the register
  // cache are done by mips_fbsd_supply_gregs, mips_fbsd_supply_fpregs,
  // mips_fbsd_collect_gregs and mips_fbsd_collect_fpregs, which live in
  // mips-fbsd-tdep.c. This model assumes the layout those routines use:
  // slot k of the general block holds register ZeroRegnum + k for the
  // registers up to the program counter, slot k of the floating-point block
  // holds register fp0 + k for numFpRegs registers, and a call for one
  // register number moves that register alone.

  /** The register held in slot 0 of bank `b`'s raw block. */
  function Base(a: Arch, b: Bank): int {
    if b == General then ZeroRegnum else a.fp0Regnum
  }

  /** Whether bank `b` carries register `i`. */
  predicate InBank(a: Arch, b: Bank, i: int) {
    if b == General then ZeroRegnum <= i <= a.pcRegnum
    else a.fp0Regnum <= i < a.fp0Regnum + a.numFpRegs
  }

  /** Whether a transfer of bank `b` for `regnum` moves register `i`. */
  predicate Selects(a: Arch, b: Bank, regnum: int, i: int) {
    InBank(a, b, i) && (regnum == AllRegs || regnum == i)
  }

  /** The raw block holds the cache's value in the slot of every register
      that a transfer of bank `b` for `regnum` moves. */
  ghost predicate Agrees(a: Arch, b: Bank, regnum: int, cache: seq<int>, block: seq<int>) {
    forall i | 0 <= i < |cache| && Selects(a, b, regnum, i) && i - Base(a, b) < |block| ::
      block[i - Base(a, b)] == cache[i]
  }

  /** The register cache after supplying bank `b`'s raw block for `regnum`
      (what it holds is stated by SupplyMoves). */
  function Supply(a: Arch, b: Bank, regnum: int, block: seq<int>, cache: seq<int>): (r: seq<int>)
    ensures |r| == |cache|
  {
    seq(|cache|, i requires 0 <= i < |cache| =>
      if Selects(a, b, regnum, i) && i - Base(a, b) < |block| then block[i - Base(a, b)] else cache[i])
  }

  /** Bank `b`'s raw block after collecting the cache into it for `regnum`
      (what it holds is stated by CollectMoves). */
  function Collect(a: Arch, b: Bank, regnum: int, cache: seq<int>, block: seq<int>): (r: seq<int>)
    ensures |r| == |block|
  {
    seq(|block|, k requires 0 <= k < |block| =>
      var i := Base(a, b) + k;
      if Selects(a, b, regnum, i) && 0 <= i < |cache| then cache[i] else block[k])
  }

  /** Supply copies the block into the cache: afterwards the cache agrees
      with the block on the registers `regnum` selects in bank `b`, and
      every other register keeps its value; in particular a supply for one
      register number changes that register alone. */
  lemma SupplyMoves(a: Arch, b: Bank, regnum: int, block: seq<int>, cache: seq<int>)
    ensures var r := Supply(a, b, regnum, block, cache);
      && Agrees(a, b, regnum, r, block)
      && (forall i | 0 <= i < |cache| && !Selects(a, b, regnum, i) :: r[i] == cache[i])
      && (regnum != AllRegs ==> forall i | 0 <= i < |cache| && i != regnum :: r[i] == cache[i])
  {
  }

  /** Collect overlays the cache onto the block: afterwards the block
      agrees with the cache on the registers `regnum` selects in bank `b`,
      and every other slot keeps the value the kernel returned; in
      particular a collect for one register number changes that register's
      slot alone. */
  lemma CollectMoves(a: Arch, b: Bank, regnum: int, cache: seq<int>, block: seq<int>)
    ensures var r := Collect(a, b, regnum, cache, block);
      && Agrees(a, b, regnum, cache, r)
      && (forall k | 0 <= k < |block| && !Selects(a, b, regnum, Base(a, b) + k) :: r[k] == block[k])
      && (regnum != AllRegs ==> forall k | 0 <= k < |block| && Base(a, b) + k != regnum :: r[k] == block[k])
  {
  }

  /** Collecting twice from the same cache changes nothing the first
      collect did not. */
  lemma CollectIdempotent(a: Arch, b: Bank, regnum: int, cache: seq<int>, block: seq<int>)
    ensures Collect(a, b, regnum, cache, Collect(a, b, regnum, cache, block))
         == Collect(a, b, regnum, cache, block)
  {
  }

  /** Supplying a block that already agrees with the cache leaves the cache
      as it was. */
  lemma SupplyAgreeing(a: Arch, b: Bank, regnum: int, block: seq<int>, cache: seq<int>)
    requires Agrees(a, b, regnum, cache, block)
    ensures Supply(a, b, regnum, block, cache) == cache
  {
  }
}
