/**
 A write-back cache of 16-word lines over a flat memory
 (Code/Ch1-memory-centric-system-model/cache-model/cache_model.py).

 The functions of the first half describe, on plain values, what a reader of the
 cached memory sees.  The class of the second half is the cache itself, updated in place.
 The repairs made to the original sketch are listed in README.md.
 */
module CacheModel {
  import opened Options

  /** Words in a cache line. */
  const LINE: nat := 16

  function LineOf(address: nat): nat { address / LINE }

  function OffsetOf(address: nat): nat { address % LINE }

  /** The address lies in a line that the memory holds completely. */
  predicate InRange(words: nat, address: nat) {
    LINE * LineOf(address) + LINE <= words
  }

  predicate WellFormed(words: nat, storage: seq<seq<int>>, addressToLoc: map<nat, nat>) {
    && (forall loc :: 0 <= loc < |storage| ==> |storage[loc]| == LINE)
    && (forall line :: line in addressToLoc ==>
          addressToLoc[line] < |storage| && LINE * line + LINE <= words)
  }

  /** What a reader sees: the resident line first, else memory. */
  function Combined(mem: seq<int>, storage: seq<seq<int>>, addressToLoc: map<nat, nat>): (view: seq<int>)
    requires WellFormed(|mem|, storage, addressToLoc)
    ensures |view| == |mem|
  {
    seq(|mem|, i requires 0 <= i < |mem| =>
      if LineOf(i) in addressToLoc then storage[addressToLoc[LineOf(i)]][OffsetOf(i)] else mem[i])
  }

  /** `mem` with the words of `line` replaced. */
  function WithLine(mem: seq<int>, line: nat, words: seq<int>): (r: seq<int>)
    requires LINE * line + LINE <= |mem| && |words| == LINE
    ensures |r| == |mem|
    ensures forall i :: 0 <= i < |mem| ==> r[i] == if LineOf(i) == line then words[OffsetOf(i)] else mem[i]
  {
    var r := mem[..LINE * line] + words + mem[LINE * line + LINE..];
    r
  }

  predicate Injective(m: map<nat, nat>) {
    forall a, b :: a in m && b in m && m[a] == m[b] ==> a == b
  }

  /** Writing a line back and dropping it from the lookup table changes no visible word. */
  lemma EvictionInvisible(mem: seq<int>, storage: seq<seq<int>>, addressToLoc: map<nat, nat>, line: nat)
    requires WellFormed(|mem|, storage, addressToLoc) && line in addressToLoc
    ensures WellFormed(|mem|, storage, addressToLoc - {line})
    ensures Combined(WithLine(mem, line, storage[addressToLoc[line]]), storage, addressToLoc - {line})
         == Combined(mem, storage, addressToLoc)
  {
  }

  /** Copying a line of memory into an unoccupied location changes no visible word. */
  lemma FillInvisible(mem: seq<int>, storage: seq<seq<int>>, addressToLoc: map<nat, nat>, line: nat, loc: nat)
    requires WellFormed(|mem|, storage, addressToLoc)
    requires line !in addressToLoc && LINE * line + LINE <= |mem|
    requires loc < |storage| && forall l :: l in addressToLoc ==> addressToLoc[l] != loc
    ensures var storage' := storage[loc := mem[LINE * line..LINE * line + LINE]];
            && WellFormed(|mem|, storage', addressToLoc[line := loc])
            && Combined(mem, storage', addressToLoc[line := loc]) == Combined(mem, storage, addressToLoc)
  {
  }

  /** Updating one word of a resident line changes exactly that visible word. */
  lemma UpdateVisibleAtOneAddress(mem: seq<int>, storage: seq<seq<int>>, addressToLoc: map<nat, nat>,
                                  address: nat, data: int)
    requires WellFormed(|mem|, storage, addressToLoc) && Injective(addressToLoc)
    requires LineOf(address) in addressToLoc && address < |mem|
    ensures var loc := addressToLoc[LineOf(address)];
            var storage' := storage[loc := storage[loc][OffsetOf(address) := data]];
            && WellFormed(|mem|, storage', addressToLoc)
            && Combined(mem, storage', addressToLoc) == Combined(mem, storage, addressToLoc)[address := data]
  {
  }

  // ---------------------------------------------------------------------------------------------
  // Flat memory: the specification
  // ---------------------------------------------------------------------------------------------

  datatype Op = Read(address: nat) | Write(address: nat, data: int)

  predicate OpsInRange(words: nat, ops: seq<Op>) {
    forall k :: 0 <= k < |ops| ==> InRange(words, ops[k].address)
  }

  /** One operation on a flat memory. */
  function FlatStep(mem: seq<int>, op: Op): (r: seq<int>)
    requires op.address < |mem|
    ensures |r| == |mem|
  {
    match op
    case Read(_) => mem
    case Write(address, data) => mem[address := data]
  }

  function FlatAnswer(mem: seq<int>, op: Op): Option<int>
    requires op.address < |mem|
  {
    match op
    case Read(address) => Some(mem[address])
    case Write(_, _) => None
  }

  /** Contents of a flat memory after `ops`. */
  function FlatMemory(mem: seq<int>, ops: seq<Op>): (r: seq<int>)
    requires OpsInRange(|mem|, ops)
    ensures |r| == |mem|
  {
    if ops == [] then mem else FlatStep(FlatMemory(mem, ops[..|ops| - 1]), ops[|ops| - 1])
  }

  /** What a flat memory answers to each operation. */
  function FlatResults(mem: seq<int>, ops: seq<Op>): (r: seq<Option<int>>)
    requires OpsInRange(|mem|, ops)
    ensures |r| == |ops|
  {
    if ops == [] then []
    else
      var init := ops[..|ops| - 1];
      FlatResults(mem, init) + [FlatAnswer(FlatMemory(mem, init), ops[|ops| - 1])]
  }

  /** The data of the last write to `address` in `ops`, or else the initial word. */
  function LastWrite(mem: seq<int>, ops: seq<Op>, address: nat): int
    requires address < |mem|
  {
    if ops == [] then mem[address]
    else if ops[|ops| - 1].Write? && ops[|ops| - 1].address == address then ops[|ops| - 1].data
    else LastWrite(mem, ops[..|ops| - 1], address)
  }

  lemma {:induction false} FlatMemoryHoldsLastWrite(mem: seq<int>, ops: seq<Op>, address: nat)
    requires OpsInRange(|mem|, ops) && address < |mem|
    ensures FlatMemory(mem, ops)[address] == LastWrite(mem, ops, address)
  {
    if ops == [] {
    } else {
      FlatMemoryHoldsLastWrite(mem, ops[..|ops| - 1], address);
    }
  }

  /** Every read is answered by the last earlier write to that address, or else by the initial word. */
  lemma {:induction false} ReadsReturnLastWrite(mem: seq<int>, ops: seq<Op>, k: nat)
    requires OpsInRange(|mem|, ops) && k < |ops| && ops[k].Read?
    ensures FlatResults(mem, ops)[k] == Some(LastWrite(mem, ops[..k], ops[k].address))
  {
    var init := ops[..|ops| - 1];
    if k < |init| {
      ReadsReturnLastWrite(mem, init, k);
      assert init[..k] == ops[..k];
    } else {
      FlatMemoryHoldsLastWrite(mem, init, ops[k].address);
    }
  }

  // ---------------------------------------------------------------------------------------------
  // Lookup tables and the stack of free locations
  // ---------------------------------------------------------------------------------------------

  /** Some resident line is stored at `loc`. */
  predicate Occupied(addressToLoc: map<nat, nat>, locToAddress: map<nat, nat>, loc: nat) {
    loc in locToAddress && locToAddress[loc] in addressToLoc && addressToLoc[locToAddress[loc]] == loc
  }

  /** The lookup tables are inverse to each other on the resident lines. */
  predicate Inverse(addressToLoc: map<nat, nat>, locToAddress: map<nat, nat>) {
    forall line :: line in addressToLoc ==>
      addressToLoc[line] in locToAddress && locToAddress[addressToLoc[line]] == line
  }

  predicate NoRepeats(xs: seq<nat>) {
    forall j, k :: 0 <= j < k < |xs| ==> xs[j] != xs[k]
  }

  /**
   Occupied locations and free ones (entries 0..ptr of the stack) partition the `locations`
   locations, so that `locations - |free|` lines are resident, and never all locations are occupied.
   */
  predicate Partition(locations: nat, free: seq<nat>, addressToLoc: map<nat, nat>, locToAddress: map<nat, nat>) {
    && 0 < |free|
    && NoRepeats(free)
    && (forall loc :: loc in free ==> loc < locations)
    && (forall loc: nat :: loc < locations ==> (Occupied(addressToLoc, locToAddress, loc) <==> loc !in free))
    && |addressToLoc| + |free| == locations
  }

  lemma InitialPartition(locations: nat)
    requires 0 < locations
    ensures Partition(locations, seq(locations, i => i), map[], map[])
  {
    var free := seq(locations, i => i);
    forall loc: nat | loc < locations
      ensures loc in free
    {
      assert free[loc] == loc;
    }
  }

  lemma InstallOccupiesOneLocation(addressToLoc: map<nat, nat>, locToAddress: map<nat, nat>, line: nat, loc: nat)
    requires Inverse(addressToLoc, locToAddress) && !Occupied(addressToLoc, locToAddress, loc)
    requires line !in addressToLoc
    ensures forall l :: l in addressToLoc ==> addressToLoc[l] != loc
    ensures var table, back := addressToLoc[line := loc], locToAddress[loc := line];
            && Inverse(table, back) && |table| == |addressToLoc| + 1
            && forall l: nat :: Occupied(table, back, l) <==>
                                l == loc || Occupied(addressToLoc, locToAddress, l)
  {
  }

  lemma PushKeepsPartition(locations: nat, free: seq<nat>, addressToLoc: map<nat, nat>,
                           locToAddress: map<nat, nat>, loc: nat)
    requires Inverse(addressToLoc, locToAddress) && Partition(locations, free, addressToLoc, locToAddress)
    requires loc < locations && Occupied(addressToLoc, locToAddress, loc)
    ensures var rest := addressToLoc - {locToAddress[loc]};
            Inverse(rest, locToAddress) && Partition(locations, free + [loc], rest, locToAddress)
  {
  }

  lemma PopKeepsPartition(locations: nat, rest: seq<nat>, loc: nat, addressToLoc: map<nat, nat>,
                          locToAddress: map<nat, nat>, line: nat)
    requires Inverse(addressToLoc, locToAddress)
    requires Partition(locations, rest + [loc], addressToLoc, locToAddress)
    requires 0 < |rest| && line !in addressToLoc
    ensures loc < locations && forall l :: l in addressToLoc ==> addressToLoc[l] != loc
    ensures var table, back := addressToLoc[line := loc], locToAddress[loc := line];
            Inverse(table, back) && Partition(locations, rest, table, back)
  {
    var free := rest + [loc];
    assert forall l :: l in rest ==> l in free;
    assert free[|rest|] == loc && forall k :: 0 <= k < |rest| ==> free[k] == rest[k];
    assert loc in free && loc !in rest;
    InstallOccupiesOneLocation(addressToLoc, locToAddress, line, loc);
  }

  // ---------------------------------------------------------------------------------------------
  // The cache
  // ---------------------------------------------------------------------------------------------

  /** The sixteen words of `line`, copied one by one. */
  method ReadLine(memory: array<int>, line: nat) returns (words: seq<int>)
    requires LINE * line + LINE <= memory.Length
    ensures words == memory[LINE * line..LINE * line + LINE]
  {
    words := [];
    var i := 0;
    while i < LINE
      invariant 0 <= i <= LINE
      invariant words == memory[LINE * line..LINE * line + i]
    {
      words := words + [memory[LINE * line + i]];
      i := i + 1;
    }
  }

  class Cache {
    const storage: array<seq<int>>
    var addressToLoc: map<nat, nat>
    var locToAddress: map<nat, nat>
    const stack: array<nat>
    var ptr: nat
    var lastUsed: nat

    ghost predicate Valid(memory: array<int>)
      reads this, stack, storage
    {
      && memory as object != stack && memory as object != storage && stack as object != storage
      && 2 <= storage.Length
      && WellFormed(memory.Length, storage[..], addressToLoc)
      && stack.Length == storage.Length && ptr < stack.Length
      && Inverse(addressToLoc, locToAddress)
      && Partition(storage.Length, stack[..ptr + 1], addressToLoc, locToAddress)
      && (ptr == 0 ==> lastUsed < storage.Length && Occupied(addressToLoc, locToAddress, lastUsed))
    }

    ghost function View(memory: array<int>): (view: seq<int>)
      requires Valid(memory)
      reads this, stack, storage, memory
      ensures |view| == memory.Length
    {
      Combined(memory[..], storage[..], addressToLoc)
    }

    /** The line that an eviction throws out. */
    ghost function Victim(): nat
      requires lastUsed in locToAddress
      reads this
    {
      locToAddress[lastUsed]
    }

    constructor (memory: array<int>, locations: nat)
      requires 2 <= locations
      ensures Valid(memory) && fresh(storage) && fresh(stack)
      ensures storage.Length == locations && addressToLoc == map[]
      ensures View(memory) == memory[..]
    {
      storage := new seq<int>[locations](_ => seq(LINE, _ => 0));
      stack := new nat[locations](i => i);
      ptr := locations - 1;
      lastUsed := locations - 1;
      addressToLoc, locToAddress := map[], map[];
      new;
      InitialPartition(locations);
      assert stack[..ptr + 1] == seq(locations, i => i);
      assert WellFormed(memory.Length, storage[..], addressToLoc);
    }

    function IsFull(): bool
      reads this
    {
      ptr == 0
    }

    /** Pop the top free location. */
    method GetNextFreeLocation() returns (loc: nat)
      requires ptr < stack.Length && 0 < ptr
      modifies this`ptr
      ensures loc == stack[old(ptr)] && ptr == old(ptr) - 1
    {
      loc := stack[ptr];
      ptr := ptr - 1;
    }

    /** Push the last used location back on the stack of free ones. */
    method EvictLocation()
      requires ptr + 1 < stack.Length
      modifies this`ptr, stack
      ensures ptr == old(ptr) + 1
      ensures stack[..] == old(stack[..])[ptr := lastUsed]
    {
      ptr := ptr + 1;
      stack[ptr] := lastUsed;
    }

    /** If the cache is full, write the last used line back to memory and free its location. */
    method WriteToMemOnEvict(memory: array<int>)
      requires Valid(memory)
      modifies this`ptr, this`addressToLoc, stack, memory
      ensures Valid(memory) && 0 < ptr
      ensures View(memory) == old(View(memory))
      ensures old(ptr) != 0 ==>
        ptr == old(ptr) && addressToLoc == old(addressToLoc) && memory[..] == old(memory[..])
      ensures old(ptr) == 0 ==> forall a :: 0 <= a < memory.Length ==>
        memory[a] == if a / 16 == old(Victim()) then storage[lastUsed][a % 16] else old(memory[a])
      ensures old(ptr) == 0 ==>
        && ptr == 1
        && addressToLoc == old(addressToLoc) - {old(Victim())}
        && memory[..] == WithLine(old(memory[..]), old(Victim()), storage[lastUsed])
    {
      if IsFull() {
        var evicted := locToAddress[lastUsed];
        EvictLocation();
        var line := storage[lastUsed];
        var i := 0;
        while i < LINE
          modifies memory
          invariant 0 <= i <= LINE
          invariant forall k :: 0 <= k < memory.Length ==>
            memory[k] == if LINE * evicted <= k < LINE * evicted + i then line[k - LINE * evicted]
                         else old(memory[k])
        {
          memory[LINE * evicted + i] := line[i];
          i := i + 1;
        }
        assert memory[..] == WithLine(old(memory[..]), evicted, line);
        EvictionInvisible(old(memory[..]), storage[..], addressToLoc, evicted);
        PushKeepsPartition(storage.Length, old(stack[..ptr + 1]), addressToLoc, locToAddress, lastUsed);
        assert stack[..ptr + 1] == old(stack[..ptr + 1]) + [lastUsed];
        addressToLoc := addressToLoc - {evicted};
      }
    }

    /** Copy the line of `address` from memory into a free location. */
    method ReadFromMemOnMiss(memory: array<int>, address: nat)
      requires Valid(memory) && 0 < ptr
      requires InRange(memory.Length, address) && LineOf(address) !in addressToLoc
      modifies this`ptr, this`addressToLoc, this`locToAddress, this`lastUsed, storage
      ensures Valid(memory)
      ensures View(memory) == old(View(memory))
      ensures lastUsed == old(stack[ptr]) && ptr == old(ptr) - 1
      ensures addressToLoc == old(addressToLoc)[LineOf(address) := lastUsed]
      ensures lastUsed < storage.Length && storage[lastUsed] == memory[address / 16 * 16..address / 16 * 16 + 16]
    {
      var loc := GetNextFreeLocation();
      var line := ReadLine(memory, LineOf(address));
      assert old(stack[..ptr + 1]) == stack[..ptr + 1] + [loc];
      PopKeepsPartition(storage.Length, stack[..ptr + 1], loc, addressToLoc, locToAddress, LineOf(address));
      FillInvisible(memory[..], storage[..], addressToLoc, LineOf(address), loc);
      storage[loc] := line;
      assert storage[..] == old(storage[..])[loc := line];
      addressToLoc := addressToLoc[LineOf(address) := loc];
      locToAddress := locToAddress[loc := LineOf(address)];
      lastUsed := loc;
    }

    /** Store `data` in the resident line of `address`. */
    method UpdateEntry(memory: array<int>, address: nat, data: int)
      requires Valid(memory) && LineOf(address) in addressToLoc
      modifies this`lastUsed, storage
      ensures Valid(memory)
      ensures address < memory.Length && View(memory) == old(View(memory))[address := data]
      ensures lastUsed == addressToLoc[LineOf(address)]
    {
      var loc := addressToLoc[LineOf(address)];
      UpdateVisibleAtOneAddress(memory[..], storage[..], addressToLoc, address, data);
      var line := storage[loc];
      line := line[OffsetOf(address) := data];
      storage[loc] := line;
      assert storage[..] == old(storage[..])[loc := line];
      lastUsed := loc;
    }

    /** The word of a resident line. */
    function FetchEntry(memory: array<int>, address: nat): (data: int)
      requires Valid(memory) && LineOf(address) in addressToLoc
      reads this, stack, storage, memory
      ensures address < memory.Length && data == View(memory)[address]
    {
      storage[addressToLoc[LineOf(address)]][OffsetOf(address)]
    }

    /** Lines resident after evicting when `evict` holds. */
    ghost function Remaining(evict: bool): set<nat>
      requires evict ==> lastUsed in locToAddress
      reads this
    {
      if evict then addressToLoc.Keys - {Victim()} else addressToLoc.Keys
    }

    /** Memory after evicting when `evict` holds. */
    ghost function WrittenBack(memory: array<int>, evict: bool): seq<int>
      requires Valid(memory) && (evict ==> ptr == 0)
      reads this, stack, storage, memory
    {
      if evict then WithLine(memory[..], Victim(), storage[lastUsed]) else memory[..]
    }

    /** Write one word; a full cache evicts first, even when the line is resident. */
    method WriteData(memory: array<int>, address: nat, data: int)
      requires Valid(memory) && InRange(memory.Length, address)
      modifies this, memory, storage, stack
      ensures Valid(memory)
      ensures View(memory) == old(View(memory))[address := data]
      ensures addressToLoc.Keys == old(Remaining(ptr == 0)) + {LineOf(address)}
      ensures lastUsed == addressToLoc[LineOf(address)]
      ensures memory[..] == old(WrittenBack(memory, ptr == 0))
    {
      if IsFull() {
        WriteToMemOnEvict(memory);
      }
      if LineOf(address) !in addressToLoc {
        ReadFromMemOnMiss(memory, address);
      }
      UpdateEntry(memory, address, data);
    }

    /** Read one word; only a miss can evict. */
    method ReadData(memory: array<int>, address: nat) returns (data: int)
      requires Valid(memory) && InRange(memory.Length, address)
      modifies this, memory, storage, stack
      ensures Valid(memory)
      ensures data == old(View(memory))[address]
      ensures View(memory) == old(View(memory))
      ensures addressToLoc.Keys ==
        old(Remaining(LineOf(address) !in addressToLoc && ptr == 0)) + {LineOf(address)}
      ensures memory[..] == old(WrittenBack(memory, LineOf(address) !in addressToLoc && ptr == 0))
      ensures old(LineOf(address) in addressToLoc) ==> lastUsed == old(lastUsed)
      ensures old(LineOf(address) !in addressToLoc) ==> lastUsed == addressToLoc[LineOf(address)]
    {
      if LineOf(address) !in addressToLoc {
        if IsFull() {
          WriteToMemOnEvict(memory);
        }
        ReadFromMemOnMiss(memory, address);
      }
      data := FetchEntry(memory, address);
    }

    method Perform(memory: array<int>, op: Op) returns (answer: Option<int>)
      requires Valid(memory) && InRange(memory.Length, op.address)
      modifies this, memory, storage, stack
      ensures Valid(memory)
      ensures answer == FlatAnswer(old(View(memory)), op)
      ensures View(memory) == FlatStep(old(View(memory)), op)
    {
      match op
      case Read(address) =>
        var data := ReadData(memory, address);
        answer := Some(data);
      case Write(address, data) =>
        WriteData(memory, address, data);
        answer := None;
    }

    /** Data refinement: any mix of reads and writes looks like flat memory. */
    method Run(memory: array<int>, ops: seq<Op>) returns (results: seq<Option<int>>)
      requires Valid(memory) && OpsInRange(memory.Length, ops)
      modifies this, memory, storage, stack
      ensures Valid(memory)
      ensures results == FlatResults(old(View(memory)), ops)
      ensures View(memory) == FlatMemory(old(View(memory)), ops)
      ensures |addressToLoc| < storage.Length
    {
      results := [];
      ghost var initial := View(memory);
      var k := 0;
      while k < |ops|
        invariant 0 <= k <= |ops|
        invariant Valid(memory)
        invariant results == FlatResults(initial, ops[..k])
        invariant View(memory) == FlatMemory(initial, ops[..k])
      {
        assert ops[..k + 1][..k] == ops[..k];
        var answer := Perform(memory, ops[k]);
        results := results + [answer];
        k := k + 1;
      }
      assert ops[..k] == ops;
    }

    /**
     The write path without the repair of the write miss: the line is fetched, but `data` is dropped.
     It writes exactly when the line is resident once a full cache has evicted, or when the word
     already holds `data`.
     */
    method WriteDataDroppingMisses(memory: array<int>, address: nat, data: int)
      requires Valid(memory) && InRange(memory.Length, address)
      modifies this, memory, storage, stack
      ensures Valid(memory)
      ensures View(memory) == old(View(memory))[address := data] <==>
        LineOf(address) in old(Remaining(ptr == 0)) || old(View(memory))[address] == data
      ensures LineOf(address) !in old(Remaining(ptr == 0)) ==> View(memory) == old(View(memory))
    {
      if IsFull() {
        WriteToMemOnEvict(memory);
      }
      if LineOf(address) !in addressToLoc {
        ReadFromMemOnMiss(memory, address);
        assert View(memory)[address] != data ==>
          View(memory)[address] != View(memory)[address := data][address];
      } else {
        UpdateEntry(memory, address, data);
      }
    }
  }

  /** Through the unrepaired write path, a first write to a fresh cache is never read back. */
  method LostWrite(memory: array<int>, locations: nat, address: nat, data: int) returns (readBack: int)
    requires 2 <= locations && InRange(memory.Length, address)
    modifies memory
    ensures readBack == old(memory[address])
  {
    var cache := new Cache(memory, locations);
    cache.WriteDataDroppingMisses(memory, address, data);
    readBack := cache.ReadData(memory, address);
  }
}
