/** The ARM's LDM and STM: the source's loops over a list of register references, and what they
    transfer. */
module ARMBlockTransfer {
  import opened ARMRegisters
  import opened Arithmetic

  datatype BlockTransfer = BlockTransfer(
    load: bool, base: Index, list: seq<bool>, addOffset: bool, preIndex: bool, writeBack: bool, loadPsr: bool) {
    predicate Valid() {
      |list| == 16
    }
  }

  /** Memory by word index; absent words read as zero. */
  type Memory = map<nat, Word>

  function Load(m: Memory, address: Word): Word {
    if address / 4 in m then m[address / 4] else 0
  }

  /** The bus: a read or write of a faulting word fails and changes nothing. */
  class Bus {
    var memory: Memory
    const faults: set<nat>

    constructor (memory: Memory, faults: set<nat>)
      ensures this.memory == memory && this.faults == faults
    {
      this.memory, this.faults := memory, faults;
    }

    method Read(address: Word) returns (succeeded: bool, value: Word)
      ensures succeeded <==> address / 4 !in faults
      ensures succeeded ==> value == Load(memory, address)
    {
      succeeded, value := address / 4 !in faults, Load(memory, address);
    }

    method Write(address: Word, value: Word) returns (succeeded: bool)
      modifies this
      ensures succeeded <==> address / 4 !in faults
      ensures memory == if succeeded then old(memory)[address / 4 := value] else old(memory)
    {
      succeeded := address / 4 !in faults;
      if succeeded {
        memory := memory[address / 4 := value];
      }
    }
  }

  // The specification.

  /** The registers listed below n, lowest first. */
  function Listed(list: seq<bool>, n: nat): (r: seq<Index>)
    requires |list| == 16 && n <= 16
    ensures |r| <= n
  {
    if n == 0 then []
    else if list[n - 1] then Listed(list, n - 1) + [n - 1]
    else Listed(list, n - 1)
  }

  /** Listed is exactly the listed registers, in ascending order. */
  lemma ListedInOrder(list: seq<bool>, n: nat)
    requires |list| == 16 && n <= 16
    ensures var r := Listed(list, n);
            && (forall i | 0 <= i < |r| :: r[i] < n && list[r[i]])
            && (forall i, j | 0 <= i < j < |r| :: r[i] < r[j])
            && (forall k: Index | k < n && list[k] :: k in r)
  {
  }

  lemma ListedAt(list: seq<bool>, n: nat, j: nat, k: nat)
    requires |list| == 16 && n <= 16 && j <= k < |Listed(list, n)|
    ensures list[Listed(list, n)[k]]
    ensures j < k ==> Listed(list, n)[j] < Listed(list, n)[k]
  {
    ListedInOrder(list, n);
  }

  function Listing(t: BlockTransfer): seq<Index>
    requires t.Valid()
  {
    Listed(t.list, 16)
  }

  predicate AdoptsUserMode(t: BlockTransfer)
    requires t.Valid()
  {
    t.loadPsr && (!t.load || !t.list[15])
  }

  /** The cell a listed register names. */
  function CellOf(t: BlockTransfer, a: Cpu, n: Index): nat
    requires t.Valid()
  {
    Cell(if AdoptsUserMode(t) then User else a.mode, n)
  }

  function BaseAddress(t: BlockTransfer, a: Cpu): Word
    requires |a.bank| == CELLS
  {
    if t.base == 15 then a.PcStatus(4) else a.Read(t.base)
  }

  predicate IsBase(t: BlockTransfer, a: Cpu, n: Index)
    requires t.Valid()
  {
    t.base != 15 && n != 15 && CellOf(t, a, n) == Cell(a.mode, t.base)
  }

  /** Whether one of the listed registers below n is the base. */
  predicate ListsBase(t: BlockTransfer, a: Cpu, n: nat)
    requires t.Valid() && n <= 16
  {
    n > 0 && ((t.list[n - 1] && IsBase(t, a, n - 1)) || ListsBase(t, a, n - 1))
  }

  /** A load of the base register suppresses its write-back. */
  predicate WritesBack(t: BlockTransfer, a: Cpu)
    requires t.Valid()
  {
    t.writeBack && t.base != 15 && !(t.load && ListsBase(t, a, 16))
  }

  function FinalAddress(t: BlockTransfer, address: Word): Word
    requires t.Valid()
  {
    Wrap(if t.addOffset then address + 4 * |Listing(t)| else address - 4 * |Listing(t)|)
  }

  /** The lowest address of the transfer. */
  function StartAddress(t: BlockTransfer, address: Word): Word
    requires t.Valid()
  {
    Wrap((if t.addOffset then address else FinalAddress(t, address)) + if t.preIndex == t.addOffset then 4 else 0)
  }

  function AddressOf(start: Word, k: nat): Word {
    Wrap(start + 4 * k)
  }

  function WrittenBack(t: BlockTransfer, a: Cpu): (b: Cpu)
    requires t.Valid() && |a.bank| == CELLS
    ensures |b.bank| == CELLS && b.mode == a.mode
  {
    if WritesBack(t, a) then a.Write(t.base, FinalAddress(t, BaseAddress(t, a))) else a
  }

  /** The value an STM stores for the k-th listed register: the base, if it comes first, is stored as it
      was, but otherwise as written back. */
  function Stored(t: BlockTransfer, a: Cpu, k: nat): Word
    requires t.Valid() && |a.bank| == CELLS && k < |Listing(t)|
  {
    var n := Listing(t)[k];
    if n == 15 then a.PcStatus(8)
    else if k == 0 && IsBase(t, a, n) then BaseAddress(t, a)
    else WrittenBack(t, a).bank[CellOf(t, a, n)]
  }

  function StoreFirst(t: BlockTransfer, a: Cpu, m: Memory, faults: set<nat>, k: nat): Memory
    requires t.Valid() && |a.bank| == CELLS && k <= |Listing(t)|
  {
    if k == 0 then m
    else
      var before := StoreFirst(t, a, m, faults, k - 1);
      var word := AddressOf(StartAddress(t, BaseAddress(t, a)), k - 1) / 4;
      if word in faults then before else before[word := Stored(t, a, k - 1)]
  }

  /** Loads of the first k listed registers into b; R15 is left for later. */
  function LoadFirst(t: BlockTransfer, a: Cpu, b: Cpu, m: Memory, k: nat): (c: Cpu)
    requires t.Valid() && |a.bank| == CELLS && |b.bank| == CELLS && k <= |Listing(t)|
    ensures |c.bank| == CELLS && c.mode == b.mode
  {
    if k == 0 then b
    else
      var before := LoadFirst(t, a, b, m, k - 1);
      var n := Listing(t)[k - 1];
      if n == 15 then before
      else
        var address := AddressOf(StartAddress(t, BaseAddress(t, a)), k - 1);
        before.(bank := before.bank[CellOf(t, a, n) := Load(m, address)])
  }

  /** The number of the first k accesses that precede any fault. */
  function Successes(start: Word, faults: set<nat>, k: nat): (r: nat)
    ensures r <= k
  {
    if k == 0 then 0
    else
      var before := Successes(start, faults, k - 1);
      if before == k - 1 && AddressOf(start, k - 1) / 4 !in faults then k else before
  }

  predicate IsInvalidAddress(address: Word) {
    address >= 0x0400_0000
  }

  function Store(t: BlockTransfer, a: Cpu, m: Memory, faults: set<nat>): (Cpu, Memory)
    requires t.Valid() && |a.bank| == CELLS && !t.load
  {
    var start, total := StartAddress(t, BaseAddress(t, a)), |Listing(t)|;
    var b := WrittenBack(t, a);
    if IsInvalidAddress(start) then (b.Take(AddressException), m)
    else
      (if Successes(start, faults, total) < total then b.Take(DataAbort) else b, StoreFirst(t, a, m, faults, total))
  }

  /** A data abort cancels the load that met it and the one before, and restores the base. */
  function Aborted(t: BlockTransfer, a: Cpu, m: Memory, reached: nat): (c: Cpu)
    requires t.Valid() && |a.bank| == CELLS && reached <= |Listing(t)|
    ensures |c.bank| == CELLS && c.mode == a.mode
  {
    var kept := LoadFirst(t, a, WrittenBack(t, a), m, if reached == 0 then 0 else reached - 1);
    if t.base == 15 then kept
    else kept.Write(t.base, if WritesBack(t, a) then FinalAddress(t, BaseAddress(t, a)) else BaseAddress(t, a))
  }

  function LoadOrAbort(t: BlockTransfer, a: Cpu, m: Memory, faults: set<nat>): (c: Cpu)
    requires t.Valid() && |a.bank| == CELLS && t.load
    ensures |c.bank| == CELLS
  {
    var start, total := StartAddress(t, BaseAddress(t, a)), |Listing(t)|;
    var reached := Successes(start, faults, total);
    if reached == total then LoadFirst(t, a, WrittenBack(t, a), m, total)
    else Aborted(t, a, m, reached)
  }

  function LoadAll(t: BlockTransfer, a: Cpu, m: Memory, faults: set<nat>): Cpu
    requires t.Valid() && |a.bank| == CELLS && t.load
  {
    var start, total := StartAddress(t, BaseAddress(t, a)), |Listing(t)|;
    var loaded := LoadOrAbort(t, a, m, faults);
    if IsInvalidAddress(start) then loaded.Take(AddressException)
    else if Successes(start, faults, total) < total then loaded.Take(DataAbort)
    else if !t.list[15] then loaded
    else
      var pc := Load(m, AddressOf(start, total - 1));
      if t.loadPsr then loaded.SetPc(pc).SetStatus(pc) else loaded.SetPc(pc)
  }

  // The implementation.

  function ReferenceTo(n: Index): Reference {
    if n == 15 then ToPcProxy else ToRegister(n)
  }

  /** The references to some registers. */
  function References(indices: seq<Index>): (r: seq<Reference>)
    ensures |r| == |indices|
  {
    if indices == [] then [] else References(indices[..|indices| - 1]) + [ReferenceTo(indices[|indices| - 1])]
  }

  lemma {:induction false} ReferencesAt(indices: seq<Index>, k: nat)
    requires k < |indices|
    ensures References(indices)[k] == ReferenceTo(indices[k])
  {
    if k < |indices| - 1 {
      ReferencesAt(indices[..|indices| - 1], k);
    }
  }

  lemma CollateStart(t: BlockTransfer, a: Cpu)
    requires t.Valid()
    ensures References(Listed(t.list, 0)) == [] && !ListsBase(t, a, 0)
  {
  }

  lemma CollateStep(t: BlockTransfer, a: Cpu, n: Index)
    requires t.Valid()
    ensures References(Listed(t.list, n + 1)) ==
            References(Listed(t.list, n)) + if t.list[n] then [ReferenceTo(n)] else []
    ensures ListsBase(t, a, n + 1) <==>
            ListsBase(t, a, n)
            || (t.list[n] && n != 15 && t.base != 15
                && Cell(if t.loadPsr && (!t.load || !t.list[15]) then User else a.mode, n) == Cell(a.mode, t.base))
  {
    assert (Listed(t.list, n) + [n])[..|Listed(t.list, n)|] == Listed(t.list, n);
  }

  /** A reference in the transfer list: to a register, or to one of two local variables. */
  datatype Reference = ToRegister(n: Index) | ToPcProxy | ToInitialAddress

  class Executor {
    const registers: Registers
    const bus: Bus

    ghost predicate Valid() {
      registers.Valid()
    }

    constructor (bus: Bus)
      ensures Valid() && fresh(registers) && this.bus == bus
    {
      registers := new Registers();
      this.bus := bus;
    }

    /** Collects the transfer list and settles whether the base is to be written back. */
    method Collate(t: BlockTransfer) returns (sources: seq<Reference>, writeBack: bool)
      requires Valid() && t.Valid()
      ensures sources == References(Listing(t))
      ensures writeBack == WritesBack(t, registers.Abstract())
    {
      hide Registers.Bank;
      ghost var a := registers.Abstract();
      hide Registers.Abstract, Cell, IsBase, ListsBase, Listed, References;
      var adopt := t.loadPsr && (!t.load || !t.list[15]);
      sources := [];
      CollateStart(t, a);
      writeBack := t.base != 15 && t.writeBack;
      var c := 0;
      while c < 15
        invariant c <= 15
        invariant sources == References(Listed(t.list, c))
        invariant writeBack == (t.writeBack && t.base != 15 && !(t.load && ListsBase(t, a, c)))
      {
        CollateStep(t, a, c);
        if t.list[c] {
          if t.load && t.base != 15 && Cell(if adopt then User else registers.mode, c) == Cell(registers.mode, t.base) {
            writeBack := false;
          }
          sources := sources + [ToRegister(c)];
        }
        c := c + 1;
      }
      CollateStep(t, a, 15);
      if t.list[15] {
        sources := sources + [ToPcProxy];
      }
    }

    /** A read or assignment through a reference to a register. */
    method ReadReference(r: Reference, adopt: bool, pcProxy: Word, initialAddress: Word) returns (value: Word)
      requires Valid()
      ensures value == match r
                case ToRegister(n) => registers.Abstract().bank[Cell(if adopt then User else registers.mode, n)]
                case ToPcProxy => pcProxy
                case ToInitialAddress => initialAddress
    {
      match r {
        case ToRegister(n) => value := registers.Reg(adopt, n);
        case ToPcProxy => value := pcProxy;
        case ToInitialAddress => value := initialAddress;
      }
    }

    method ReadBase(t: BlockTransfer) returns (address: Word)
      requires Valid() && t.Valid()
      ensures address == BaseAddress(t, registers.Abstract())
    {
      hide PcAndStatus;
      if t.base == 15 {
        registers.PcStatusMatches(4);
        address := registers.PcStatus(4);
      } else {
        address := registers.Reg(false, t.base);
      }
    }

    /** Everything before the first access: the transfer list, the addresses and the write-back. */
    method Prepare(t: BlockTransfer)
      returns (sources: seq<Reference>, pcProxy: Word, initialAddress: Word, finalAddress: Word, address: Word,
               writeBack: bool)
      requires Valid() && t.Valid()
      modifies registers.active
      ensures var a := old(registers.Abstract());
              && sources == Sources(t, a)
              && (!t.load ==> pcProxy == a.PcStatus(8))
              && initialAddress == BaseAddress(t, a)
              && finalAddress == FinalAddress(t, initialAddress)
              && address == StartAddress(t, initialAddress)
              && writeBack == WritesBack(t, a)
              && registers.Abstract() == WrittenBack(t, a)
    {
      hide Registers.Bank, PcAndStatus, Listed, ListsBase, References, Cell, Wrap;
      address := ReadBase(t);
      initialAddress := address;
      sources, writeBack := Collate(t);
      pcProxy := 0;
      if !t.load {
        registers.PcStatusMatches(8);
        pcProxy := registers.PcStatus(8);
        FirstReference(t);

        // A base that comes first is stored as it was.
        if sources != [] && sources[0].ToRegister? && t.base != 15
           && Cell(if AdoptsUserMode(t) then User else registers.mode, sources[0].n) == Cell(registers.mode, t.base) {
          sources := [ToInitialAddress] + sources[1..];
        }
      }

      var total := |sources|;
      if !t.addOffset {
        finalAddress := Wrap(address - total * 4);
        address := finalAddress;
      } else {
        finalAddress := Wrap(address + total * 4);
      }
      if writeBack {
        registers.SetActive(t.base, finalAddress);
      }
      if t.preIndex == t.addOffset {
        address := Wrap(address + 4);
      }
      StartAddressSteps(t, initialAddress);
    }

    /** The store loop: an aborted write stops nothing, but an address exception stops all of them. */
    method StoreEach(t: BlockTransfer, ghost a: Cpu, sources: seq<Reference>, pcProxy: Word, initialAddress: Word,
                     start: Word)
      returns (succeeded: bool)
      requires Valid() && t.Valid() && !t.load && |a.bank| == CELLS && a.mode == registers.mode
      requires sources == Sources(t, a) && pcProxy == a.PcStatus(8) && initialAddress == BaseAddress(t, a)
      requires start == StartAddress(t, initialAddress) && registers.Abstract() == WrittenBack(t, a)
      modifies bus
      ensures var total := |Listing(t)|;
              if IsInvalidAddress(start) then succeeded && bus.memory == old(bus.memory)
              else (succeeded <==> Successes(start, bus.faults, total) == total)
                   && bus.memory == StoreFirst(t, a, old(bus.memory), bus.faults, total)
    {
      hide Registers.Bank, PcAndStatus, Stored, Listed, ListsBase, AddressOf, StartAddress, FinalAddress, Sources;
      var adopt := AdoptsUserMode(t);
      var addressError := IsInvalidAddress(start);
      var address := start;
      AddressAdvances(start, 0);
      succeeded := true;
      SourcesCount(t, a);
      var c := 0;
      while c < |sources|
        invariant c <= |sources| == |Listing(t)|
        invariant address == AddressOf(start, c)
        invariant bus.memory == if addressError then old(bus.memory)
                                else StoreFirst(t, a, old(bus.memory), bus.faults, c)
        invariant succeeded <==> addressError || Successes(start, bus.faults, c) == c
      {
        var value := ReadReference(sources[c], adopt, pcProxy, initialAddress);
        StoredThrough(t, a, c);
        if !addressError {
          var wrote := bus.Write(address, value);
          succeeded := succeeded && wrote;
        } else {
          var read, throwaway := bus.Read(address);
        }
        AddressAdvances(start, c);
        address := Wrap(address as int + 4);
        c := c + 1;
      }
    }

    /** The load loop, which remembers what the last load replaced so that an abort can undo it. */
    method LoadEach(
        t: BlockTransfer, ghost a: Cpu, sources: seq<Reference>, initialAddress: Word, finalAddress: Word,
        start: Word, writeBack: bool)
      returns (succeeded: bool, pcProxy: Word)
      requires Valid() && t.Valid() && t.load && |a.bank| == CELLS && a.mode == registers.mode
      requires sources == Sources(t, a) && initialAddress == BaseAddress(t, a) && writeBack == WritesBack(t, a)
      requires finalAddress == FinalAddress(t, initialAddress)
      requires start == StartAddress(t, initialAddress) && registers.Abstract() == WrittenBack(t, a)
      modifies registers.user, registers.active
      ensures registers.Abstract() == LoadOrAbort(t, a, bus.memory, bus.faults)
      ensures succeeded <==> Successes(start, bus.faults, |Listing(t)|) == |Listing(t)|
      ensures succeeded && t.list[15] ==> pcProxy == Load(bus.memory, AddressOf(start, |Listing(t)| - 1))
    {
      hide Registers.Bank, Registers.Abstract, Loading, Listed, ListsBase, Sources, AddressOf, StartAddress;
      hide FinalAddress, LoadOrAbort, Successes, Cell, Wrap;
      var address := start;
      var undo, undoTo := ToInitialAddress, 0;
      AddressAdvances(start, 0);
      SourcesCount(t, a);
      succeeded, pcProxy := true, 0;
      NoneLoaded(t, a, bus.memory, bus.faults);
      var c := 0;
      while c < |sources|
        invariant c <= |sources| == |Listing(t)|
        invariant address == AddressOf(start, c) && registers.mode == a.mode
        invariant Loading(t, a, bus.memory, bus.faults, c, succeeded, undo, undoTo, pcProxy, registers.Abstract())
      {
        succeeded, pcProxy, undo, undoTo :=
          LoadNext(t, a, c, sources[c], initialAddress, finalAddress, address, writeBack, succeeded, pcProxy,
                   undo, undoTo);
        AddressAdvances(start, c);
        address := Wrap(address as int + 4);
        c := c + 1;
      }
      AllLoaded(t, a, bus.memory, bus.faults, succeeded, undo, undoTo, pcProxy, registers.Abstract());
    }

    /** One pass of that loop: nothing more is done once a load has failed. */
    method LoadNext(
        t: BlockTransfer, ghost a: Cpu, ghost c: nat, source: Reference, initialAddress: Word, finalAddress: Word,
        address: Word, writeBack: bool, succeeded: bool, pcProxy: Word, undo: Reference, undoTo: Word)
      returns (nowSucceeded: bool, nowProxy: Word, nowUndo: Reference, nowUndoTo: Word)
      requires Valid() && t.Valid() && t.load && |a.bank| == CELLS && a.mode == registers.mode && c < |Listing(t)|
      requires |Sources(t, a)| == |Listing(t)| && source == Sources(t, a)[c]
      requires initialAddress == BaseAddress(t, a) && finalAddress == FinalAddress(t, initialAddress)
      requires address == AddressOf(StartAddress(t, initialAddress), c) && writeBack == WritesBack(t, a)
      requires Loading(t, a, bus.memory, bus.faults, c, succeeded, undo, undoTo, pcProxy, registers.Abstract())
      modifies registers.user, registers.active
      ensures Loading(t, a, bus.memory, bus.faults, c + 1, nowSucceeded, nowUndo, nowUndoTo, nowProxy,
                      registers.Abstract())
    {
      hide Registers.Bank, PcAndStatus, Listed, ListsBase, AddressOf, StartAddress, FinalAddress, Sources, Cell;
      hide Aborted;
      var adopt := AdoptsUserMode(t);
      nowSucceeded, nowProxy, nowUndo, nowUndoTo := succeeded, pcProxy, undo, undoTo;
      LoadedThrough(t, a, c);
      var read, value := bus.Read(address);
      if succeeded {
        var replaced := ReadReference(source, adopt, pcProxy, initialAddress);
        nowSucceeded := read;
        if read {
          nowProxy := Assign(source, adopt, value, pcProxy);
          nowUndo, nowUndoTo := source, replaced;
        } else {
          nowProxy := Abort(t, a, undo, undoTo, c, if writeBack then finalAddress else initialAddress, pcProxy);
        }
      }
    }

    /** A data abort at the c-th load: the last load is undone and the base restored. */
    method Abort(t: BlockTransfer, ghost a: Cpu, undo: Reference, undoTo: Word, ghost c: nat, base: Word, pcProxy: Word)
      returns (newPcProxy: Word)
      requires Valid() && t.Valid() && t.load && |a.bank| == CELLS && a.mode == registers.mode && c <= |Listing(t)|
      requires base == if WritesBack(t, a) then FinalAddress(t, BaseAddress(t, a)) else BaseAddress(t, a)
      requires registers.Abstract() == LoadFirst(t, a, WrittenBack(t, a), bus.memory, c)
      requires if c == 0 then undo.ToInitialAddress? else undo == ReferenceTo(Listing(t)[c - 1])
      requires undo.ToRegister? ==>
                 undoTo == LoadFirst(t, a, WrittenBack(t, a), bus.memory, c - 1).bank[CellOf(t, a, undo.n)]
      modifies registers.user, registers.active
      ensures registers.Abstract() == Aborted(t, a, bus.memory, c)
    {
      hide Registers.Bank, Listed, ListsBase, AddressOf, StartAddress, FinalAddress, Cell;
      newPcProxy := pcProxy;
      if !undo.ToInitialAddress? {
        newPcProxy := Assign(undo, AdoptsUserMode(t), undoTo, pcProxy);
        assert registers.Abstract() == LoadFirst(t, a, WrittenBack(t, a), bus.memory, c - 1);
      }
      if t.base != 15 {
        registers.SetActive(t.base, base);
      }
    }

    method Assign(r: Reference, adopt: bool, value: Word, pcProxy: Word) returns (newPcProxy: Word)
      requires Valid() && !r.ToInitialAddress?
      modifies registers.user, registers.active
      ensures newPcProxy == if r.ToPcProxy? then value else pcProxy
      ensures var was := old(registers.Abstract());
              registers.Abstract() ==
                if r.ToPcProxy? then was
                else was.(bank := was.bank[Cell(if adopt then User else registers.mode, r.n) := value])
    {
      hide Registers.Bank;
      newPcProxy := pcProxy;
      if r.ToPcProxy? {
        newPcProxy := value;
      } else {
        registers.SetReg(adopt, r.n, value);
      }
    }

    method Perform(t: BlockTransfer)
      requires Valid() && t.Valid()
      modifies bus, registers, registers.user, registers.fiq, registers.irq, registers.supervisor, registers.active
      ensures var a, m := old(registers.Abstract()), old(bus.memory);
              (registers.Abstract(), bus.memory) ==
                if t.load then (LoadAll(t, a, m, bus.faults), m) else Store(t, a, m, bus.faults)
    {
      hide Registers.Bank, PcAndStatus, LoadOrAbort, StoreFirst, Successes, Cpu.Take, Cpu.SetPc, Cpu.SetStatus, Sources;
      hide AddressOf, StartAddress, FinalAddress, Listing;
      ghost var a := registers.Abstract();
      var sources, pcProxy, initialAddress, finalAddress, address, writeBack := Prepare(t);
      var succeeded;
      if t.load {
        succeeded, pcProxy := LoadEach(t, a, sources, initialAddress, finalAddress, address, writeBack);
      } else {
        succeeded := StoreEach(t, a, sources, pcProxy, initialAddress, address);
      }
      if IsInvalidAddress(address) {
        registers.TakeException(AddressException);
      } else if !succeeded {
        registers.TakeException(DataAbort);
      } else if t.load && t.list[15] {
        registers.SetPc(pcProxy);
        if t.loadPsr {
          registers.SetStatus(pcProxy);
        }
      }
    }
  }

  /** The transfer list; a base that an STM stores first is replaced by its initial value. */
  function Sources(t: BlockTransfer, a: Cpu): seq<Reference>
    requires t.Valid()
  {
    var all := References(Listing(t));
    if !t.load && all != [] && IsBase(t, a, Listing(t)[0]) then [ToInitialAddress] + all[1..] else all
  }

  /** The load loop after c passes: what it has loaded, or what an abort has left, and how to undo the last load. */
  predicate Loading(t: BlockTransfer, a: Cpu, m: Memory, faults: set<nat>, c: nat, succeeded: bool,
                    undo: Reference, undoTo: Word, pcProxy: Word, r: Cpu)
    requires t.Valid() && |a.bank| == CELLS && c <= |Listing(t)|
  {
    var start, b := StartAddress(t, BaseAddress(t, a)), WrittenBack(t, a);
    && (succeeded <==> Successes(start, faults, c) == c)
    && r == (if succeeded then LoadFirst(t, a, b, m, c) else Aborted(t, a, m, Successes(start, faults, c)))
    && (succeeded ==>
          if c == 0 then undo.ToInitialAddress?
          else
            && undo == ReferenceTo(Listing(t)[c - 1])
            && (undo.ToRegister? ==> undoTo == LoadFirst(t, a, b, m, c - 1).bank[CellOf(t, a, undo.n)])
            && (undo.ToPcProxy? ==> pcProxy == Load(m, AddressOf(start, c - 1))))
  }

  lemma NoneLoaded(t: BlockTransfer, a: Cpu, m: Memory, faults: set<nat>)
    requires t.Valid() && |a.bank| == CELLS
    ensures forall undoTo, pcProxy ::
              Loading(t, a, m, faults, 0, true, ToInitialAddress, undoTo, pcProxy, WrittenBack(t, a))
  {
    hide Listed, StartAddress, BaseAddress, WrittenBack;
  }

  lemma AllLoaded(t: BlockTransfer, a: Cpu, m: Memory, faults: set<nat>, succeeded: bool, undo: Reference,
                  undoTo: Word, pcProxy: Word, r: Cpu)
    requires t.Valid() && t.load && |a.bank| == CELLS
    requires Loading(t, a, m, faults, |Listing(t)|, succeeded, undo, undoTo, pcProxy, r)
    ensures r == LoadOrAbort(t, a, m, faults)
    ensures var start := StartAddress(t, BaseAddress(t, a));
            && (succeeded <==> Successes(start, faults, |Listing(t)|) == |Listing(t)|)
            && (succeeded && t.list[15] ==> pcProxy == Load(m, AddressOf(start, |Listing(t)| - 1)))
  {
    LastListed(t);
    hide Listed, StartAddress, BaseAddress, WrittenBack, LoadFirst, Aborted, AddressOf, Successes;
  }

  lemma LastListed(t: BlockTransfer)
    requires t.Valid()
    ensures t.list[15] ==> Listing(t) != [] && Listing(t)[|Listing(t)| - 1] == 15
  {
  }

  lemma FirstReference(t: BlockTransfer)
    requires t.Valid()
    ensures Listing(t) != [] ==> References(Listing(t))[0] == ReferenceTo(Listing(t)[0])
  {
    if Listing(t) != [] {
      ReferencesAt(Listing(t), 0);
    }
  }

  lemma SourcesCount(t: BlockTransfer, a: Cpu)
    requires t.Valid()
    ensures |Sources(t, a)| == |Listing(t)|
  {
  }

  lemma LoadedThrough(t: BlockTransfer, a: Cpu, k: nat)
    requires t.Valid() && t.load && k < |Listing(t)|
    ensures |Sources(t, a)| == |Listing(t)|
    ensures Sources(t, a)[k] == ReferenceTo(Listing(t)[k])
  {
    ReferencesAt(Listing(t), k);
  }

  lemma StartAddressSteps(t: BlockTransfer, address: Word)
    requires t.Valid()
    ensures var first := if t.addOffset then address else Wrap(address - |Listing(t)| * 4);
            StartAddress(t, address) == if t.preIndex == t.addOffset then Wrap(first + 4) else first
  {
  }

  lemma AddressAdvances(start: Word, k: nat)
    ensures AddressOf(start, 0) == start
    ensures AddressOf(start, k + 1) == Wrap(AddressOf(start, k) + 4)
  {
    hide Wrap;
    WrapReduced(start + 4 * k, 4);
    WrapWord(start);
  }

  /** What the k-th reference of a store leads to once the base has been written back. */
  lemma StoredThrough(t: BlockTransfer, a: Cpu, k: nat)
    requires t.Valid() && |a.bank| == CELLS && !t.load && k < |Listing(t)|
    ensures |Sources(t, a)| == |Listing(t)|
    ensures Stored(t, a, k) == match Sources(t, a)[k]
                               case ToRegister(n) => WrittenBack(t, a).bank[CellOf(t, a, n)]
                               case ToPcProxy => a.PcStatus(8)
                               case ToInitialAddress => BaseAddress(t, a)
  {
    ReferencesAt(Listing(t), k);
  }

  // A store and the opposite load.

  /** IA for DB, IB for DA, and the reverse. */
  function Opposite(t: BlockTransfer): BlockTransfer {
    t.(load := !t.load, addOffset := !t.addOffset, preIndex := !t.preIndex)
  }

  /** Where the opposite transfer starts and ends, given where this one leaves the base. */
  lemma OppositeAddresses(t: BlockTransfer, address: Word)
    requires t.Valid()
    ensures FinalAddress(Opposite(t), FinalAddress(t, address)) == address
    ensures StartAddress(Opposite(t), FinalAddress(t, address)) == StartAddress(t, address)
  {
    hide Listed, Wrap;
    WrapUndone(address, 4 * |Listing(t)|);
    WrapUndone(address, -4 * |Listing(t)|);
  }

  lemma WrapUndone(a: Word, d: int)
    ensures Wrap(Wrap(a + d) - d) == a
  {
    hide Wrap;
    WrapReduced(a + d, -d);
    WrapWord(a);
  }

  lemma WordsApart(start: Word, k: nat)
    requires !IsInvalidAddress(start) && k < 16
    ensures AddressOf(start, k) / 4 == start / 4 + k
  {
  }

  lemma CellInjective(m: Mode, n: Index, k: Index)
    ensures Cell(m, n) == Cell(m, k) ==> n == k
  {
  }

  lemma {:induction false} NoFaults(start: Word, faults: set<nat>, k: nat, j: nat)
    requires Successes(start, faults, k) == k && j < k
    ensures AddressOf(start, j) / 4 !in faults
  {
    hide AddressOf;
    if j < k - 1 {
      NoFaults(start, faults, k - 1, j);
    }
  }

  lemma {:induction false} SomeSucceed(start: Word, faults: set<nat>, k: nat, j: nat)
    requires Successes(start, faults, k) == k && j <= k
    ensures Successes(start, faults, j) == j
  {
    hide AddressOf;
    if j < k {
      SomeSucceed(start, faults, k - 1, j);
    }
  }

  /** After k stores, the j-th word from the start holds what was stored for the j-th listed register, and
      every other word is as it was. */
  lemma {:induction false} StoredWords(t: BlockTransfer, a: Cpu, m: Memory, faults: set<nat>, k: nat)
    requires t.Valid() && |a.bank| == CELLS && !t.load && k <= |Listing(t)|
    requires var start := StartAddress(t, BaseAddress(t, a));
             !IsInvalidAddress(start) && Successes(start, faults, k) == k
    ensures var start, after := StartAddress(t, BaseAddress(t, a)), StoreFirst(t, a, m, faults, k);
            && (forall j | 0 <= j < k :: Load(after, AddressOf(start, j)) == Stored(t, a, j))
            && (forall w: nat | w < start / 4 || start / 4 + k <= w ::
                  (w in after <==> w in m) && (w in m ==> after[w] == m[w]))
  {
    hide Listed, Stored, StartAddress, BaseAddress;
    if k > 0 {
      var start := StartAddress(t, BaseAddress(t, a));
      StoredWords(t, a, m, faults, k - 1);
      forall j | 0 <= j < k
        ensures AddressOf(start, j) / 4 == start / 4 + j
      {
        WordsApart(start, j);
      }
      hide AddressOf;
      NoFaults(start, faults, k, k - 1);
    }
  }

  lemma DistinctCells(t: BlockTransfer, a: Cpu, k: nat)
    requires t.Valid() && k < |Listing(t)|
    ensures forall j | 0 <= j < k :: CellOf(t, a, Listing(t)[j]) != CellOf(t, a, Listing(t)[k])
    ensures t.list[Listing(t)[k]]
  {
    hide Listed, Cell;
    ListedAt(t.list, 16, k, k);
    forall j | 0 <= j < k
      ensures CellOf(t, a, Listing(t)[j]) != CellOf(t, a, Listing(t)[k])
    {
      ListedAt(t.list, 16, j, k);
      CellInjective(if AdoptsUserMode(t) then User else a.mode, Listing(t)[j], Listing(t)[k]);
    }
  }

  /** After k loads, the j-th listed register holds the j-th word and every other cell is as it was. */
  lemma {:induction false} LoadedCells(t: BlockTransfer, a: Cpu, b: Cpu, m: Memory, k: nat)
    requires t.Valid() && |a.bank| == CELLS && |b.bank| == CELLS && !t.list[15] && k <= |Listing(t)|
    ensures var start, c := StartAddress(t, BaseAddress(t, a)), LoadFirst(t, a, b, m, k);
            && c == b.(bank := c.bank)
            && (forall j | 0 <= j < k :: c.bank[CellOf(t, a, Listing(t)[j])] == Load(m, AddressOf(start, j)))
            && (forall i | 0 <= i < CELLS && (forall j | 0 <= j < k :: CellOf(t, a, Listing(t)[j]) != i) ::
                  c.bank[i] == b.bank[i])
  {
    hide Listed, AddressOf, StartAddress, BaseAddress;
    if k > 0 {
      LoadedCells(t, a, b, m, k - 1);
      DistinctCells(t, a, k - 1);
    }
  }

  lemma AddressIs(start: Word, k: nat)
    ensures AddressOf(start, k) == Wrap(start + 4 * k)
  {
  }

  lemma {:induction false} BaseNotListed(t: BlockTransfer, a: Cpu, n: nat)
    requires t.Valid() && n <= 16
    requires forall k: Index | k < n && t.list[k] :: CellOf(t, a, k) != Cell(a.mode, t.base)
    ensures !ListsBase(t, a, n)
  {
    if n > 0 {
      BaseNotListed(t, a, n - 1);
    }
  }

  /** The premises of the round trip: write-back, neither R15 nor the base listed, no fault and no
      address exception. */
  predicate Sound(t: BlockTransfer, a: Cpu, faults: set<nat>) {
    && t.Valid() && |a.bank| == CELLS && !t.load && t.writeBack && t.base != 15 && !t.list[15]
    && (forall n: Index | t.list[n] :: CellOf(t, a, n) != Cell(a.mode, t.base))
    && var start := StartAddress(t, BaseAddress(t, a));
       !IsInvalidAddress(start) && Successes(start, faults, |Listing(t)|) == |Listing(t)|
  }

  /** An STM with write-back lays the listed registers out in ascending order from the lowest address and
      touches nothing else but the base. */
  lemma StoreLayout(t: BlockTransfer, a: Cpu, m: Memory, faults: set<nat>)
    requires Sound(t, a, faults)
    ensures var (b, after) := Store(t, a, m, faults);
            var start := StartAddress(t, BaseAddress(t, a));
            && b == a.Write(t.base, FinalAddress(t, BaseAddress(t, a)))
            && (forall k | 0 <= k < |Listing(t)| ::
                  Load(after, Wrap(start + 4 * k)) == a.bank[CellOf(t, a, Listing(t)[k])])
            && (forall w: nat | w < start / 4 || start / 4 + |Listing(t)| <= w ::
                  (w in after <==> w in m) && (w in m ==> after[w] == m[w]))
  {
    hide Listed, FinalAddress, StartAddress, BaseAddress, Cell;
    var total := |Listing(t)|;
    StoredWords(t, a, m, faults, total);
    forall k | 0 <= k < total
      ensures Stored(t, a, k) == a.bank[CellOf(t, a, Listing(t)[k])]
    {
      ListedAt(t.list, 16, k, k);
    }
  }

  /** What a whole load leaves: each listed register from its word, and no other cell changed. */
  predicate LoadedInto(t: BlockTransfer, a: Cpu, b: Cpu, m: Memory, r: Cpu)
    requires t.Valid() && |a.bank| == CELLS && |b.bank| == CELLS && |r.bank| == CELLS
  {
    var start := StartAddress(t, BaseAddress(t, a));
    && r == b.(bank := r.bank)
    && (forall j | 0 <= j < |Listing(t)| :: r.bank[CellOf(t, a, Listing(t)[j])] == Load(m, AddressOf(start, j)))
    && forall i | 0 <= i < CELLS && (forall j | 0 <= j < |Listing(t)| :: CellOf(t, a, Listing(t)[j]) != i) ::
         r.bank[i] == b.bank[i]
  }

  /** The opposite transfer names the same cells. */
  lemma SameCells(t: BlockTransfer, a: Cpu, c: Cpu)
    requires t.Valid() && !t.list[15] && c.mode == a.mode
    ensures var u := Opposite(t);
            && u.Valid() && Listing(u) == Listing(t) && AdoptsUserMode(u) == AdoptsUserMode(t)
            && forall n: Index :: CellOf(u, c, n) == CellOf(t, a, n)
  {
    hide Listed, Cell;
  }

  /** The opposite load of a sound store starts where the store did, and does not fail. */
  lemma Reversed(t: BlockTransfer, a: Cpu, m: Memory, faults: set<nat>, c: Cpu)
    requires Sound(t, a, faults) && |c.bank| == CELLS && c.mode == a.mode
    requires c.Read(t.base) == Store(t, a, m, faults).0.Read(t.base)
    ensures var u, after := Opposite(t), Store(t, a, m, faults).1;
            var b, r := c.Write(t.base, a.Read(t.base)), LoadAll(u, c, after, faults);
            && StartAddress(u, BaseAddress(u, c)) == StartAddress(t, BaseAddress(t, a))
            && |r.bank| == CELLS && LoadedInto(u, c, b, after, r)
  {
    hide Listed, FinalAddress, StartAddress, AddressOf, Cell, Store, Successes, LoadFirst, Sound, ListsBase;
    SoundIs(t, a, faults);
    var u, after := Opposite(t), Store(t, a, m, faults).1;
    SameCells(t, a, c);
    StoreLayout(t, a, m, faults);
    BaseStored(t, a, m, faults);
    OppositeAddresses(t, a.Read(t.base));
    BaseNotListed(u, c, 16);
    hide StoreFirst;
    LoadedCells(u, c, WrittenBack(u, c), after, |Listing(t)|);
  }

  lemma SoundIs(t: BlockTransfer, a: Cpu, faults: set<nat>)
    requires Sound(t, a, faults)
    ensures t.Valid() && |a.bank| == CELLS && !t.load && t.writeBack && t.base != 15 && !t.list[15]
    ensures forall n: Index | t.list[n] :: CellOf(t, a, n) != Cell(a.mode, t.base)
    ensures var start := StartAddress(t, BaseAddress(t, a));
            !IsInvalidAddress(start) && Successes(start, faults, |Listing(t)|) == |Listing(t)|
  {
  }

  lemma BaseStored(t: BlockTransfer, a: Cpu, m: Memory, faults: set<nat>)
    requires Sound(t, a, faults)
    ensures BaseAddress(t, a) == a.Read(t.base)
    ensures Store(t, a, m, faults).0.Read(t.base) == FinalAddress(t, a.Read(t.base))
  {
    StoreLayout(t, a, m, faults);
    hide Store, FinalAddress, Listed;
  }

  lemma ListedRestored(t: BlockTransfer, a: Cpu, m: Memory, faults: set<nat>, c: Cpu, r: Cpu, n: Index)
    requires Sound(t, a, faults) && t.list[n] && |c.bank| == |r.bank| == CELLS && c.mode == a.mode
    requires var u, after := Opposite(t), Store(t, a, m, faults).1;
             && u.Valid() && StartAddress(u, BaseAddress(u, c)) == StartAddress(t, BaseAddress(t, a))
             && LoadedInto(u, c, c.Write(t.base, a.Read(t.base)), after, r)
    ensures r.bank[CellOf(t, a, n)] == a.bank[CellOf(t, a, n)]
  {
    hide Listed, StartAddress, AddressOf, Cell, Store, Load, CellOf;
    SameCells(t, a, c);
    StoreLayout(t, a, m, faults);
    ListedInOrder(t.list, 16);
    var k :| 0 <= k < |Listing(t)| && Listing(t)[k] == n;
    AddressIs(StartAddress(t, BaseAddress(t, a)), k);
    assert CellOf(Opposite(t), c, Listing(Opposite(t))[k]) == CellOf(t, a, n);
  }

  lemma UnlistedKept(t: BlockTransfer, a: Cpu, b: Cpu, after: Memory, c: Cpu, r: Cpu, i: nat)
    requires t.Valid() && !t.list[15] && |c.bank| == |b.bank| == |r.bank| == CELLS && c.mode == a.mode && i < CELLS
    requires Opposite(t).Valid() && LoadedInto(Opposite(t), c, b, after, r)
    requires forall n: Index | t.list[n] :: CellOf(t, a, n) != i
    ensures r.bank[i] == b.bank[i]
  {
    hide Listed, StartAddress, AddressOf, Cell, CellOf, BaseAddress, Load;
    SameCells(t, a, c);
    forall j | 0 <= j < |Listing(t)| ensures CellOf(Opposite(t), c, Listing(Opposite(t))[j]) != i {
      ListedAt(t.list, 16, j, j);
    }
  }

  /** An STM with write-back followed by the opposite LDM with write-back restores every listed register
      and the base, whatever became of the other registers in between, and changes nothing else. */
  lemma StoreThenLoad(t: BlockTransfer, a: Cpu, m: Memory, faults: set<nat>, c: Cpu)
    requires Sound(t, a, faults) && |c.bank| == CELLS && c.mode == a.mode
    requires c.Read(t.base) == Store(t, a, m, faults).0.Read(t.base)
    ensures var r := LoadAll(Opposite(t), c, Store(t, a, m, faults).1, faults);
            && r == c.(bank := r.bank)
            && r.Read(t.base) == a.Read(t.base)
            && (forall n: Index | t.list[n] :: r.bank[CellOf(t, a, n)] == a.bank[CellOf(t, a, n)])
            && (forall i | 0 <= i < CELLS && i != Cell(a.mode, t.base)
                           && (forall n: Index | t.list[n] :: CellOf(t, a, n) != i) ::
                  r.bank[i] == c.bank[i])
  {
    hide Listed, Cell, Store, LoadAll, Sound, StartAddress, BaseAddress;
    SoundIs(t, a, faults);
    var after := Store(t, a, m, faults).1;
    var b, r := c.Write(t.base, a.Read(t.base)), LoadAll(Opposite(t), c, after, faults);
    Reversed(t, a, m, faults, c);
    assert r == b.(bank := r.bank);
    hide LoadedInto;
    forall n: Index | t.list[n] ensures r.bank[CellOf(t, a, n)] == a.bank[CellOf(t, a, n)] {
      ListedRestored(t, a, m, faults, c, r, n);
    }
    forall i | 0 <= i < CELLS && forall n: Index | t.list[n] :: CellOf(t, a, n) != i
      ensures r.bank[i] == b.bank[i]
    {
      UnlistedKept(t, a, b, after, c, r, i);
    }
  }
}
