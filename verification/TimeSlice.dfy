/**
 The two-task context switch of
 Code/Ch1-memory-centric-system-model/basic-OS-concepts/time_slice.py: four loops over a stack, a
 task control block (TCB) for each task and the registers.
 */
module TimeSlice {
  import opened Options

  const NREGS_CONTEXT: nat := 16

  /** Number of registers and index of the main stack pointer. */
  const NREGS: nat := 24
  const MSP: nat := 21

  /** Addresses that time_slice.py takes from its environment. */
  datatype Layout = Layout(pid: nat, tcbOffset: nat, tcbSize: nat) {
    /** tcbOffset + task * tcbSize, for task 0 or 1. */
    function Tcb(task: int): nat { if task == 0 then tcbOffset else tcbOffset + tcbSize }
  }

  /** PID cell, the two TCBs and the stack window with the word above it lie apart, inside the memory. */
  predicate Separate(l: Layout, words: nat, msp: int) {
    var top := msp + NREGS_CONTEXT;
    && 0 <= msp && top < words
    && l.pid < words && NREGS_CONTEXT <= l.tcbSize
    && l.Tcb(1) + NREGS_CONTEXT <= words
    && !(msp <= l.pid <= top)
    && (l.pid < l.tcbOffset || l.Tcb(1) + NREGS_CONTEXT <= l.pid)
    && (top < l.tcbOffset || l.Tcb(1) + NREGS_CONTEXT <= msp)
  }

  predicate Ready(l: Layout, mem: seq<int>, regs: seq<int>) {
    && |regs| == NREGS && Separate(l, |mem|, regs[MSP])
    && 0 <= mem[l.pid] <= 1
  }

  /** The sixteen words at `at`. */
  function Words(mem: seq<int>, at: int): seq<int>
    requires 0 <= at && at + NREGS_CONTEXT <= |mem|
  {
    mem[at..at + NREGS_CONTEXT]
  }

  /** `mem` with the sixteen words at `at` replaced. */
  function WithWords(mem: seq<int>, at: int, words: seq<int>): (r: seq<int>)
    requires 0 <= at && at + NREGS_CONTEXT <= |mem| && |words| == NREGS_CONTEXT
    ensures |r| == |mem|
    ensures forall a :: 0 <= a < |mem| ==> r[a] == if at <= a < at + NREGS_CONTEXT then words[a - at] else mem[a]
  {
    mem[..at] + words + mem[at + NREGS_CONTEXT..]
  }

  /**
   What sixteen pops read when `words` are pushed at `msp`.  Decrementing first gives the words in
   reverse.  As written the first pop reads the word above the window and the last word is not read.
   */
  function Popped(mem: seq<int>, msp: int, words: seq<int>, decrementFirst: bool): (r: seq<int>)
    requires 0 <= msp && msp + NREGS_CONTEXT < |mem| && |words| == NREGS_CONTEXT
    ensures |r| == NREGS_CONTEXT
  {
    seq(NREGS_CONTEXT, r requires 0 <= r < NREGS_CONTEXT =>
      if decrementFirst then words[NREGS_CONTEXT - 1 - r]
      else if r == 0 then mem[msp + NREGS_CONTEXT] else words[NREGS_CONTEXT - r])
  }

  /** The PID cell, the stack window with the word above it and two TCBs lie apart. */
  predicate Apart(words: nat, pid: nat, msp: int, out: nat, into: nat) {
    var n := NREGS_CONTEXT;
    && pid < words && 0 <= msp && msp + n < words && out + n <= words && into + n <= words
    && !(msp <= pid <= msp + n) && !(out <= pid < out + n) && !(into <= pid < into + n)
    && (msp + n < out || out + n <= msp) && (msp + n < into || into + n <= msp)
    && (out + n <= into || into + n <= out)
  }

  /** PID `next`, `saved` in one TCB, the words of the other in the stack window, and all else as it was. */
  function Swapped(mem: seq<int>, pid: nat, next: int, msp: int, out: nat, into: nat, saved: seq<int>): (r: seq<int>)
    requires Apart(|mem|, pid, msp, out, into) && |saved| == NREGS_CONTEXT
    ensures |r| == |mem|
  {
    WithWords(WithWords(mem[pid := next], out, saved), msp, Words(mem, into))
  }

  /** Memory after a time slice. */
  function SliceMem(l: Layout, mem: seq<int>, regs: seq<int>, decrementFirst: bool): (r: seq<int>)
    requires Ready(l, mem, regs)
    ensures |r| == |mem|
  {
    Swapped(mem, l.pid, 1 - mem[l.pid], regs[MSP], l.Tcb(mem[l.pid]), l.Tcb(1 - mem[l.pid]),
            Popped(mem, regs[MSP], regs[..NREGS_CONTEXT], decrementFirst))
  }

  /** Registers after a time slice. */
  function SliceRegs(l: Layout, mem: seq<int>, regs: seq<int>, decrementFirst: bool): (r: seq<int>)
    requires Ready(l, mem, regs)
    ensures |r| == NREGS
  {
    Popped(mem, regs[MSP], Words(mem, l.Tcb(1 - mem[l.pid])), decrementFirst) + regs[NREGS_CONTEXT..]
  }

  // ---------------------------------------------------------------------------------------------
  // The four loops
  // ---------------------------------------------------------------------------------------------

  method PushRegisters(systemState: array<int>, registers: array<int>)
    requires systemState != registers && registers.Length == NREGS
    requires 0 <= registers[MSP] && registers[MSP] + NREGS_CONTEXT <= systemState.Length
    modifies systemState, registers
    ensures systemState[..] == WithWords(old(systemState[..]), old(registers[MSP]), old(registers[..NREGS_CONTEXT]))
    ensures registers[..] == old(registers[..])[MSP := old(registers[MSP]) + NREGS_CONTEXT]
  {
    ghost var msp := registers[MSP];
    for r := 0 to NREGS_CONTEXT
      invariant registers[..] == old(registers[..])[MSP := msp + r]
      invariant forall a :: 0 <= a < systemState.Length ==>
        systemState[a] == if msp <= a < msp + r then old(registers[a - msp]) else old(systemState[a])
    {
      systemState[registers[MSP]] := registers[r];
      registers[MSP] := registers[MSP] + 1;
    }
  }

  method PopToTcb(systemState: array<int>, registers: array<int>, tcb: nat, decrementFirst: bool)
    requires systemState != registers && registers.Length == NREGS && tcb + NREGS_CONTEXT <= systemState.Length
    requires NREGS_CONTEXT <= registers[MSP] < systemState.Length
    requires registers[MSP] < tcb || tcb + NREGS_CONTEXT <= registers[MSP] - NREGS_CONTEXT
    modifies systemState, registers
    ensures var msp := old(registers[MSP]) - NREGS_CONTEXT;
            && registers[..] == old(registers[..])[MSP := msp]
            && systemState[..] == WithWords(old(systemState[..]), tcb,
                 Popped(old(systemState[..]), msp, Words(old(systemState[..]), msp), decrementFirst))
  {
    ghost var mem := systemState[..];
    ghost var msp := registers[MSP] - NREGS_CONTEXT;
    ghost var popped := Popped(mem, msp, Words(mem, msp), decrementFirst);
    for r := 0 to NREGS_CONTEXT
      invariant registers[..] == old(registers[..])[MSP := msp + NREGS_CONTEXT - r]
      invariant forall a :: 0 <= a < |mem| ==>
        systemState[a] == if tcb <= a < tcb + r then popped[a - tcb] else mem[a]
    {
      if decrementFirst {
        registers[MSP] := registers[MSP] - 1;
      }
      var r0 := systemState[registers[MSP]];
      systemState[tcb + r] := r0;
      if !decrementFirst {
        registers[MSP] := registers[MSP] - 1;
      }
    }
  }

  method PushFromTcb(systemState: array<int>, registers: array<int>, tcb: nat)
    requires systemState != registers && registers.Length == NREGS && tcb + NREGS_CONTEXT <= systemState.Length
    requires 0 <= registers[MSP] && registers[MSP] + NREGS_CONTEXT <= systemState.Length
    requires registers[MSP] + NREGS_CONTEXT <= tcb || tcb + NREGS_CONTEXT <= registers[MSP]
    modifies systemState, registers
    ensures systemState[..] == WithWords(old(systemState[..]), old(registers[MSP]), Words(old(systemState[..]), tcb))
    ensures registers[..] == old(registers[..])[MSP := old(registers[MSP]) + NREGS_CONTEXT]
  {
    ghost var mem, msp := systemState[..], registers[MSP];
    ghost var words := Words(mem, tcb);
    for r := 0 to NREGS_CONTEXT
      invariant registers[..] == old(registers[..])[MSP := msp + r]
      invariant forall a :: 0 <= a < |mem| ==>
        systemState[a] == if msp <= a < msp + r then words[a - msp] else mem[a]
    {
      var r0 := systemState[tcb + r];
      assert r0 == words[r];
      systemState[registers[MSP]] := r0;
      registers[MSP] := registers[MSP] + 1;
    }
  }

  method PopToRegisters(systemState: array<int>, registers: array<int>, decrementFirst: bool)
    requires systemState != registers && registers.Length == NREGS
    requires NREGS_CONTEXT <= registers[MSP] < systemState.Length
    modifies registers
    ensures var msp := old(registers[MSP]) - NREGS_CONTEXT;
            && registers[..NREGS_CONTEXT] == Popped(systemState[..], msp, Words(systemState[..], msp), decrementFirst)
            && registers[NREGS_CONTEXT..] == old(registers[..])[MSP := msp][NREGS_CONTEXT..]
  {
    ghost var mem := systemState[..];
    ghost var msp := registers[MSP] - NREGS_CONTEXT;
    ghost var popped := Popped(mem, msp, Words(mem, msp), decrementFirst);
    for r := 0 to NREGS_CONTEXT
      invariant registers[MSP] == msp + NREGS_CONTEXT - r
      invariant forall k :: 0 <= k < NREGS && k != MSP ==>
        registers[k] == if k < r then popped[k] else old(registers[k])
    {
      if decrementFirst {
        registers[MSP] := registers[MSP] - 1;
      }
      registers[r] := systemState[registers[MSP]];
      if !decrementFirst {
        registers[MSP] := registers[MSP] - 1;
      }
    }
  }

  /** First half of the time slice: the running task goes to its TCB, and the PID changes. */
  method SwitchOut(l: Layout, systemState: array<int>, registers: array<int>, decrementFirst: bool)
    returns (pid2: int, ghost mem1: seq<int>)
    requires systemState != registers && Ready(l, systemState[..], registers[..])
    modifies systemState, registers
    ensures pid2 == 1 - old(systemState[l.pid])
    ensures mem1 == WithWords(old(systemState[..]), old(registers[MSP]), old(registers[..NREGS_CONTEXT]))[l.pid := pid2]
    ensures registers[..] == old(registers[..])
    ensures systemState[..] == WithWords(mem1, l.Tcb(1 - pid2),
      Popped(mem1, old(registers[MSP]), Words(mem1, old(registers[MSP])), decrementFirst))
  {
    PushRegisters(systemState, registers);
    assert systemState[l.pid] == systemState[..][l.pid];
    var pid1 := systemState[l.pid];
    pid2 := 1 - pid1;
    systemState[l.pid] := pid2;
    mem1 := systemState[..];
    var tcb1 := l.tcbOffset + pid1 * l.tcbSize;
    assert tcb1 == l.Tcb(pid1);
    PopToTcb(systemState, registers, tcb1, decrementFirst);
  }

  /** The time slice; as written, with `decrementFirst` false, a pop reads before it moves the pointer. */
  method Slice(l: Layout, systemState: array<int>, registers: array<int>, decrementFirst: bool)
    requires systemState != registers && Ready(l, systemState[..], registers[..])
    modifies systemState, registers
    ensures systemState[..] == SliceMem(l, old(systemState[..]), old(registers[..]), decrementFirst)
    ensures registers[..] == SliceRegs(l, old(systemState[..]), old(registers[..]), decrementFirst)
  {
    ghost var mem, regs := systemState[..], registers[..];
    var pid2, mem1 := SwitchOut(l, systemState, registers, decrementFirst);
    ghost var mem2 := systemState[..];
    var tcb2 := l.tcbOffset + pid2 * l.tcbSize;
    assert tcb2 == l.Tcb(pid2);
    PushFromTcb(systemState, registers, tcb2);
    ghost var mem3 := systemState[..];
    assert registers[..][MSP := regs[MSP]] == regs;
    PopToRegisters(systemState, registers, decrementFirst);
    assert registers[..] == registers[..NREGS_CONTEXT] + registers[NREGS_CONTEXT..];
    SliceOfLoops(l, mem, regs, decrementFirst, mem1, mem2, mem3);
  }

  lemma SliceOfLoops(l: Layout, mem: seq<int>, regs: seq<int>, decrementFirst: bool,
                     mem1: seq<int>, mem2: seq<int>, mem3: seq<int>)
    requires Ready(l, mem, regs)
    requires mem1 == WithWords(mem, regs[MSP], regs[..NREGS_CONTEXT])[l.pid := 1 - mem[l.pid]]
    requires mem2 == WithWords(mem1, l.Tcb(mem[l.pid]),
                               Popped(mem1, regs[MSP], Words(mem1, regs[MSP]), decrementFirst))
    requires mem3 == WithWords(mem2, regs[MSP], Words(mem2, l.Tcb(1 - mem[l.pid])))
    ensures mem3 == SliceMem(l, mem, regs, decrementFirst)
    ensures Popped(mem3, regs[MSP], Words(mem3, regs[MSP]), decrementFirst) + regs[NREGS_CONTEXT..]
         == SliceRegs(l, mem, regs, decrementFirst)
  {
    SliceOfParts(mem, l.pid, 1 - mem[l.pid], regs[MSP], l.Tcb(mem[l.pid]), l.Tcb(1 - mem[l.pid]),
                 regs[..NREGS_CONTEXT], decrementFirst, mem1, mem2, mem3);
  }

  lemma SliceOfParts(mem: seq<int>, pid: nat, next: int, msp: int, out: nat, into: nat,
                     context: seq<int>, decrementFirst: bool, mem1: seq<int>, mem2: seq<int>, mem3: seq<int>)
    requires Apart(|mem|, pid, msp, out, into) && |context| == NREGS_CONTEXT
    requires mem1 == WithWords(mem, msp, context)[pid := next]
    requires mem2 == WithWords(mem1, out, Popped(mem1, msp, Words(mem1, msp), decrementFirst))
    requires mem3 == WithWords(mem2, msp, Words(mem2, into))
    ensures mem3 == Swapped(mem, pid, next, msp, out, into, Popped(mem, msp, context, decrementFirst))
    ensures Popped(mem3, msp, Words(mem3, msp), decrementFirst) == Popped(mem, msp, Words(mem, into), decrementFirst)
  {
    var saved := Popped(mem1, msp, Words(mem1, msp), decrementFirst);
    WritesOfLoops(mem, pid, next, msp, out, into, context, saved, mem1, mem2, mem3);
    PoppedReadsOneWord(mem1, mem, msp, context, decrementFirst);
    PoppedReadsOneWord(mem3, mem, msp, Words(mem, into), decrementFirst);
  }

  /** Of the memory outside the stack window, pops see only the word above it. */
  lemma PoppedReadsOneWord(mem: seq<int>, other: seq<int>, msp: int, words: seq<int>, decrementFirst: bool)
    requires 0 <= msp && msp + NREGS_CONTEXT < |mem| && msp + NREGS_CONTEXT < |other| && |words| == NREGS_CONTEXT
    requires mem[msp + NREGS_CONTEXT] == other[msp + NREGS_CONTEXT]
    ensures Popped(mem, msp, words, decrementFirst) == Popped(other, msp, words, decrementFirst)
  {
  }

  /** The writes of the first three loops, at three separate places, in one. */
  lemma WritesOfLoops(mem: seq<int>, pid: nat, next: int, msp: int, out: nat, into: nat,
                      context: seq<int>, saved: seq<int>, mem1: seq<int>, mem2: seq<int>, mem3: seq<int>)
    requires Apart(|mem|, pid, msp, out, into) && |context| == |saved| == NREGS_CONTEXT
    requires mem1 == WithWords(mem, msp, context)[pid := next]
    requires mem2 == WithWords(mem1, out, saved)
    requires mem3 == WithWords(mem2, msp, Words(mem2, into))
    ensures Words(mem1, msp) == context && mem1[msp + NREGS_CONTEXT] == mem[msp + NREGS_CONTEXT]
    ensures mem3 == Swapped(mem, pid, next, msp, out, into, saved)
    ensures Words(mem3, msp) == Words(mem, into) && mem3[msp + NREGS_CONTEXT] == mem[msp + NREGS_CONTEXT]
  {
    var pushed := WithWords(mem, msp, context);
    assert Words(mem2, into) == Words(mem, into) by {
      WordsKept(mem, msp, context, into);
      assert Words(mem1, into) == Words(pushed, into);
      WordsKept(mem1, out, saved, into);
    }
    assert Words(mem1, msp) == Words(pushed, msp) == context;
    assert Words(mem3, msp) == Words(mem, into);
    assert mem3 == Swapped(mem, pid, next, msp, out, into, saved);
  }

  lemma SwappedHolds(mem: seq<int>, pid: nat, next: int, msp: int, out: nat, into: nat, saved: seq<int>)
    requires Apart(|mem|, pid, msp, out, into) && |saved| == NREGS_CONTEXT
    ensures var r := Swapped(mem, pid, next, msp, out, into, saved);
            r[pid] == next && Words(r, out) == saved
  {
  }

  /** Words elsewhere survive a write. */
  lemma WordsKept(mem: seq<int>, at: int, words: seq<int>, other: int)
    requires 0 <= at && at + NREGS_CONTEXT <= |mem| && |words| == NREGS_CONTEXT
    requires 0 <= other && other + NREGS_CONTEXT <= |mem|
    requires other + NREGS_CONTEXT <= at || at + NREGS_CONTEXT <= other
    ensures Words(WithWords(mem, at, words), other) == Words(mem, other)
  {
  }

  // ---------------------------------------------------------------------------------------------
  // Runs of two tasks
  // ---------------------------------------------------------------------------------------------

  datatype State = State(mem: seq<int>, regs: seq<int>)

  /** What a task leaves behind when it is switched out: R0..R15 and all of memory. */
  datatype Burst = Burst(regs: seq<int>, mem: seq<int>)

  /** A task may change R0..R15 and any word but the PID cell and the TCBs. */
  predicate BurstOk(l: Layout, s: State, b: Burst)
    requires Ready(l, s.mem, s.regs)
  {
    && |b.regs| == NREGS_CONTEXT && |b.mem| == |s.mem|
    && b.mem[l.pid] == s.mem[l.pid]
    && Words(b.mem, l.Tcb(0)) == Words(s.mem, l.Tcb(0))
    && Words(b.mem, l.Tcb(1)) == Words(s.mem, l.Tcb(1))
  }

  /** The current task runs, and then its time slice ends. */
  function Turn(l: Layout, s: State, b: Burst, decrementFirst: bool): (r: State)
    requires Ready(l, s.mem, s.regs) && BurstOk(l, s, b)
    ensures Ready(l, r.mem, r.regs)
  {
    var regs := b.regs + s.regs[NREGS_CONTEXT..];
    State(SliceMem(l, b.mem, regs, decrementFirst), SliceRegs(l, b.mem, regs, decrementFirst))
  }

  /** The state after the bursts, if each of them changes only what a task may change. */
  function Turns(l: Layout, s: State, bursts: seq<Burst>, decrementFirst: bool): (r: Option<State>)
    requires Ready(l, s.mem, s.regs)
    ensures r.Some? ==> Ready(l, r.value.mem, r.value.regs)
  {
    if bursts == [] then Some(s)
    else
      var before := Turns(l, s, bursts[..|bursts| - 1], decrementFirst);
      var burst := bursts[|bursts| - 1];
      if before.Some? && BurstOk(l, before.value, burst)
      then Some(Turn(l, before.value, burst, decrementFirst)) else None
  }

  /** Equal in the registers that a pop order can keep: all of them, or all but R0. */
  predicate SameContext(a: seq<int>, b: seq<int>, decrementFirst: bool) {
    && NREGS_CONTEXT <= |a| && NREGS_CONTEXT <= |b|
    && (decrementFirst ==> a[0] == b[0])
    && forall r :: 1 <= r < NREGS_CONTEXT ==> a[r] == b[r]
  }

  /** `saved` is `context` as sixteen pops save it, whatever the word above the window. */
  predicate Saved(saved: seq<int>, context: seq<int>, decrementFirst: bool) {
    && |saved| == |context| == NREGS_CONTEXT
    && if decrementFirst then forall r :: 0 <= r < NREGS_CONTEXT ==> saved[r] == context[NREGS_CONTEXT - 1 - r]
       else forall r :: 1 <= r < NREGS_CONTEXT ==> saved[r] == context[NREGS_CONTEXT - r]
  }

  lemma PopSaves(mem: seq<int>, msp: int, context: seq<int>, decrementFirst: bool)
    requires 0 <= msp && msp + NREGS_CONTEXT < |mem| && |context| == NREGS_CONTEXT
    ensures Saved(Popped(mem, msp, context, decrementFirst), context, decrementFirst)
  {
  }

  /** Popping what pops have saved gives the context back: the two reversals cancel. */
  lemma PopRestores(mem: seq<int>, msp: int, saved: seq<int>, context: seq<int>, decrementFirst: bool)
    requires 0 <= msp && msp + NREGS_CONTEXT < |mem| && Saved(saved, context, decrementFirst)
    ensures SameContext(Popped(mem, msp, saved, decrementFirst), context, decrementFirst)
    ensures !decrementFirst ==> Popped(mem, msp, saved, decrementFirst)[0] == mem[msp + NREGS_CONTEXT]
  {
  }

  /** The TCB of the task that is not running holds `context`. */
  predicate Suspended(l: Layout, s: State, context: seq<int>, decrementFirst: bool)
    requires Ready(l, s.mem, s.regs)
  {
    Saved(Words(s.mem, l.Tcb(1 - s.mem[l.pid])), context, decrementFirst)
  }

  lemma SliceSaves(l: Layout, mem: seq<int>, regs: seq<int>, decrementFirst: bool)
    requires Ready(l, mem, regs)
    ensures var r := SliceMem(l, mem, regs, decrementFirst);
            && r[l.pid] == 1 - mem[l.pid]
            && Saved(Words(r, l.Tcb(mem[l.pid])), regs[..NREGS_CONTEXT], decrementFirst)
    ensures forall k :: NREGS_CONTEXT <= k < NREGS ==> SliceRegs(l, mem, regs, decrementFirst)[k] == regs[k]
  {
    var saved := Popped(mem, regs[MSP], regs[..NREGS_CONTEXT], decrementFirst);
    SwappedHolds(mem, l.pid, 1 - mem[l.pid], regs[MSP], l.Tcb(mem[l.pid]), l.Tcb(1 - mem[l.pid]), saved);
    PopSaves(mem, regs[MSP], regs[..NREGS_CONTEXT], decrementFirst);
  }

  /** A slice changes the PID cell, the stack window and the TCB of the task switched out, and nothing else. */
  lemma SliceTouchesOnly(l: Layout, mem: seq<int>, regs: seq<int>, decrementFirst: bool, a: nat)
    requires Ready(l, mem, regs) && a < |mem|
    requires a != l.pid && !(regs[21] <= a < regs[21] + 16)
    requires var tcb := l.tcbOffset + mem[l.pid] * l.tcbSize; !(tcb <= a < tcb + 16)
    ensures SliceMem(l, mem, regs, decrementFirst)[a] == mem[a]
  {
  }

  /** A turn suspends the task that ran. */
  lemma TurnSuspends(l: Layout, s: State, b: Burst, decrementFirst: bool)
    requires Ready(l, s.mem, s.regs) && BurstOk(l, s, b)
    ensures var r := Turn(l, s, b, decrementFirst);
            && Suspended(l, r, b.regs, decrementFirst)
            && r.mem[l.pid] == 1 - s.mem[l.pid]
            && forall k :: NREGS_CONTEXT <= k < NREGS ==> r.regs[k] == s.regs[k]
  {
    var regs := b.regs + s.regs[NREGS_CONTEXT..];
    assert regs[..NREGS_CONTEXT] == b.regs;
    SliceSaves(l, b.mem, regs, decrementFirst);
  }

  /** A turn resumes the suspended task with its context. */
  lemma TurnResumes(l: Layout, s: State, b: Burst, context: seq<int>, decrementFirst: bool)
    requires Ready(l, s.mem, s.regs) && BurstOk(l, s, b) && Suspended(l, s, context, decrementFirst)
    ensures var r := Turn(l, s, b, decrementFirst);
            && SameContext(r.regs, context, decrementFirst)
            && (!decrementFirst ==> r.regs[0] == b.mem[s.regs[MSP] + NREGS_CONTEXT])
  {
    var regs := b.regs + s.regs[NREGS_CONTEXT..];
    assert regs[MSP] == s.regs[MSP];
    var saved := Words(b.mem, l.Tcb(1 - s.mem[l.pid]));
    PopRestores(b.mem, regs[MSP], saved, context, decrementFirst);
  }

  /** The burst with `k` later ones. */
  function Last(bursts: seq<Burst>, k: nat): Burst
    requires k < |bursts|
  {
    bursts[|bursts| - 1 - k]
  }

  /** Over any number of slices MSP and the other registers above R15 stay, and the PID alternates. */
  lemma {:induction false} PidAlternatesAndMspStays(l: Layout, s: State, bursts: seq<Burst>, decrementFirst: bool)
    requires Ready(l, s.mem, s.regs) && Turns(l, s, bursts, decrementFirst).Some?
    ensures var r := Turns(l, s, bursts, decrementFirst).value;
            && |r.regs| == |s.regs| == 24 && (forall k :: 16 <= k < 24 ==> r.regs[k] == s.regs[k])
            && r.mem[l.pid] == if |bursts| % 2 == 0 then s.mem[l.pid] else 1 - s.mem[l.pid]
  {
    if bursts == [] {
    } else {
      var init := bursts[..|bursts| - 1];
      PidAlternatesAndMspStays(l, s, init, decrementFirst);
      var before := Turns(l, s, init, decrementFirst).value;
      TurnSuspends(l, before, bursts[|bursts| - 1], decrementFirst);
      ParityChanges(|init|, s.mem[l.pid], before.mem[l.pid]);
    }
  }

  lemma ParityChanges(n: nat, first: int, current: int)
    requires current == if n % 2 == 0 then first else 1 - first
    ensures 1 - current == if (n + 1) % 2 == 0 then first else 1 - first
  {
  }

  /** After any number of slices, the task that was switched out last is suspended with what it left. */
  lemma LastTaskIsSuspended(l: Layout, s: State, bursts: seq<Burst>, decrementFirst: bool)
    requires Ready(l, s.mem, s.regs) && Turns(l, s, bursts, decrementFirst).Some? && bursts != []
    ensures Suspended(l, Turns(l, s, bursts, decrementFirst).value, Last(bursts, 0).regs, decrementFirst)
  {
    var before := Turns(l, s, bursts[..|bursts| - 1], decrementFirst).value;
    TurnSuspends(l, before, Last(bursts, 0), decrementFirst);
  }

  /**
   Over any number of slices, each task resumes with the registers it was switched out with: R1 to
   R15 as written, all sixteen with decrement-first pops.  As written, R0 gets the word above the
   stack window.
   */
  lemma TasksResumeWithTheirContext(l: Layout, s: State, bursts: seq<Burst>, decrementFirst: bool)
    requires Ready(l, s.mem, s.regs) && Turns(l, s, bursts, decrementFirst).Some? && 2 <= |bursts|
    ensures var r, top := Turns(l, s, bursts, decrementFirst).value, s.regs[21] + 16;
            && 16 <= |r.regs| && |Last(bursts, 1).regs| == 16
            && (forall k :: 1 <= k <= 15 ==> r.regs[k] == Last(bursts, 1).regs[k])
            && if decrementFirst then r.regs[0] == Last(bursts, 1).regs[0]
               else 0 <= top < |Last(bursts, 0).mem| && r.regs[0] == Last(bursts, 0).mem[top]
  {
    var init := bursts[..|bursts| - 1];
    LastTaskIsSuspended(l, s, init, decrementFirst);
    PidAlternatesAndMspStays(l, s, init, decrementFirst);
    TurnResumes(l, Turns(l, s, init, decrementFirst).value, Last(bursts, 0), Last(bursts, 1).regs, decrementFirst);
  }

  /** As written, R0 survives exactly when the word above the stack window happens to hold it. */
  lemma R0SurvivesExactlyByChance(l: Layout, s: State, bursts: seq<Burst>)
    requires Ready(l, s.mem, s.regs) && Turns(l, s, bursts, false).Some? && 2 <= |bursts|
    ensures var r, top := Turns(l, s, bursts, false).value, s.regs[21] + 16;
            && 0 <= top < |Last(bursts, 0).mem| && 16 <= |r.regs| && |Last(bursts, 1).regs| == 16
            && ((forall k :: 0 <= k <= 15 ==> r.regs[k] == Last(bursts, 1).regs[k])
                <==> Last(bursts, 0).mem[top] == Last(bursts, 1).regs[0])
  {
    TasksResumeWithTheirContext(l, s, bursts, false);
  }

  /** Two bursts in a memory of 80 words after which a task does not get back the 7 that it left in R0. */
  lemma R0IsLost() returns (l: Layout, s: State, bursts: seq<Burst>)
    ensures Ready(l, s.mem, s.regs) && |bursts| == 2 && Turns(l, s, bursts, false).Some?
    ensures 0 < |Last(bursts, 1).regs| && Last(bursts, 1).regs[0] == 7
    ensures Turns(l, s, bursts, false).value.regs[0] == 0
  {
    l := Layout(0, 16, 24);
    s := State(seq(80, _ => 0), seq(NREGS, r => if r == MSP then 60 else 0));
    var first := Burst(seq(NREGS_CONTEXT, _ => 7), s.mem);
    var s1 := Turn(l, s, first, false);
    var second := Burst(seq(NREGS_CONTEXT, _ => 0), s1.mem);
    assert Turns(l, s, [first][..0], false) == Some(s);
    assert Turns(l, s, [first], false) == Some(s1);
    bursts := [first, second];
    assert bursts[..1] == [first];
    assert Turns(l, s, bursts, false) == Some(Turn(l, s1, second, false));
    TasksResumeWithTheirContext(l, s, bursts, false);
    assert s1.mem[76] == 0;
  }
}
