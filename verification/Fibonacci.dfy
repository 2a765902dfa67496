/**
 The Fibonacci program of Code/Ch1-memory-centric-system-model/cpp-code/abstract_system_code.cc on
 the machine, and the high-level instruction of advanced-model/abstract_system_code.py that does the
 work of its loop.
 */
module Fibonacci {
  import opened Options
  import opened Machine

  /** The program, for `n` results; label 1 is the head of the loop. */
  function FibProgram(n: nat): Program {
    [ Line(None, Set(1, 1)),
      Line(None, Set(2, 1)),
      Line(None, Set(3, 0)),
      Line(None, Set(4, n)),
      Line(None, Set(5, 1)),
      Line(Some(1), Alu(Add, 3, 1, 2)),
      Line(None, Mov(1, 2)),
      Line(None, Mov(2, 3)),
      Line(None, Alu(Sub, 4, 4, 5)),
      Line(None, Str(3, 4)),
      Line(None, Cbnz(4, 1)),
      Line(None, Wfi) ]
  }

  const LINES: nat := 12
  const LOOP: nat := 5
  const END: nat := 11

  /** Lines `h` to `h + 5` of a program are the Fibonacci loop. */
  ghost predicate HasLoop(prog: Program, code: nat, h: nat) {
    && h + 6 <= |prog| && code + |prog| < WORD_SIZE
    && prog[h].instr == Alu(Add, 3, 1, 2) && prog[h + 1].instr == Mov(1, 2) && prog[h + 2].instr == Mov(2, 3)
    && prog[h + 3].instr == Alu(Sub, 4, 4, 5) && prog[h + 4].instr == Str(3, 4)
    && prog[h + 5].instr.Cbnz? && prog[h + 5].instr.rt == 4
    && LabelKnown(prog, h + 5) && TargetOf(prog, code, h + 5) == code + h
  }

  /** What the proofs below need to know of the program. */
  ghost predicate IsFib(prog: Program, n: nat, code: nat) {
    && |prog| == LINES && HasLoop(prog, code, LOOP)
    && prog[0].instr == Set(1, 1) && prog[1].instr == Set(2, 1) && prog[2].instr == Set(3, 0)
    && prog[3].instr == Set(4, n) && prog[4].instr == Set(5, 1) && prog[11].instr == Wfi
  }

  lemma FibProgramIsFib(prog: Program, n: nat, code: nat)
    requires prog == FibProgram(n) && code + LOOP < 0x1_0000_0000_0000
    ensures IsFib(prog, n, code)
  {
    assert prog[LOOP].defines == Some(1);
    assert LatestDefinition(prog, 10, 1) == Some(LOOP);
  }

  lemma FibProgramAssembles(prog: Program, n: nat, code: nat)
    requires prog == FibProgram(n) && n < 0x1_0000_0000_0000 && code + LOOP < 0x1_0000_0000_0000
    ensures Assembles(prog, code)
  {
    FibProgramIsFib(prog, n, code);
    forall k | 0 <= k < |prog|
      ensures LabelKnown(prog, k) && InRange(prog[k].instr, TargetOf(prog, code, k))
    {
      assert k != 10 ==> !UsesLabel(prog[k].instr);
    }
  }

  /** The sequence that starts with `a` and `b`. */
  function Gib(a: nat, b: nat, k: nat): nat {
    if k == 0 then a else if k == 1 then b else Gib(a, b, k - 1) + Gib(a, b, k - 2)
  }

  /** Fib(1) == Fib(2) == 1 */
  function Fib(k: nat): nat {
    if k < 2 then k else Fib(k - 1) + Fib(k - 2)
  }

  lemma {:induction false} GibFromOnesIsFib(k: nat)
    ensures Gib(1, 1, k) == Fib(k + 1)
  {
    if k < 2 {
    } else {
      GibFromOnesIsFib(k - 1);
      GibFromOnesIsFib(k - 2);
    }
  }

  // ---------------------------------------------------------------------------------------------
  // Single lines
  // ---------------------------------------------------------------------------------------------

  /** Line `k` of the program is next. */
  predicate AtLine(prog: Program, code: nat, s: State, k: nat) {
    && k < |prog| && LabelKnown(prog, k) && code + |prog| < WORD_SIZE
    && 16 <= |s.regs| && !Suspended(s) && s.regs[PC] == code + k
  }

  /** `s` with `pc` in the program counter and `v` in register `rd`. */
  function After(s: State, pc: nat, rd: nat, v: Word): State
    requires 16 <= |s.regs| && rd < PC && pc < WORD_SIZE
  {
    State(s.regs[PC := pc][rd := v], s.mem)
  }

  lemma LineStep(prog: Program, code: nat, s: State, k: nat, next: State)
    requires AtLine(prog, code, s, k) && KeepsCode(prog, code, s, next)
    requires Meaning(prog[k].instr, TargetOf(prog, code, k), State(s.regs[PC := code + k + 1], s.mem)) == Some(next)
    ensures SymbolicStep(prog, code, s) == Some(next)
  {
    assert Fetched(s) == State(s.regs[PC := code + k + 1], s.mem);
    assert LineAt(prog, code, s) == Some(k);
  }

  lemma SetStep(prog: Program, code: nat, s: State, k: nat, rd: nat, v: Word)
    requires AtLine(prog, code, s, k) && prog[k].instr == Set(rd, v) && rd < PC
    ensures SymbolicStep(prog, code, s) == Some(After(s, code + k + 1, rd, v))
  {
    LineStep(prog, code, s, k, After(s, code + k + 1, rd, v));
  }

  lemma MovStep(prog: Program, code: nat, s: State, k: nat, rd: nat, rs: nat)
    requires AtLine(prog, code, s, k) && prog[k].instr == Mov(rd, rs) && rd < PC && rs < PC
    ensures SymbolicStep(prog, code, s) == Some(After(s, code + k + 1, rd, s.regs[rs]))
  {
    LineStep(prog, code, s, k, After(s, code + k + 1, rd, s.regs[rs]));
  }

  lemma AddStep(prog: Program, code: nat, s: State, k: nat)
    requires AtLine(prog, code, s, k) && prog[k].instr == Alu(Add, 3, 1, 2)
    ensures SymbolicStep(prog, code, s) == Some(After(s, code + k + 1, 3, Sum(s)))
  {
    LineStep(prog, code, s, k, After(s, code + k + 1, 3, Sum(s)));
  }

  lemma DecrementStep(prog: Program, code: nat, s: State, k: nat)
    requires AtLine(prog, code, s, k) && prog[k].instr == Alu(Sub, 4, 4, 5) && s.regs[5] == 1 && 1 <= s.regs[4]
    ensures SymbolicStep(prog, code, s) == Some(After(s, code + k + 1, 4, s.regs[4] - 1))
  {
    LineStep(prog, code, s, k, After(s, code + k + 1, 4, s.regs[4] - 1));
  }

  lemma StoreStep(prog: Program, code: nat, s: State, k: nat)
    requires AtLine(prog, code, s, k) && prog[k].instr == Str(3, 4) && s.regs[4] < code && s.regs[4] < |s.mem|
    ensures SymbolicStep(prog, code, s)
         == Some(State(s.regs[PC := code + k + 1], s.mem[s.regs[4] := s.regs[3]]))
  {
    LineStep(prog, code, s, k, State(s.regs[PC := code + k + 1], s.mem[s.regs[4] := s.regs[3]]));
  }

  /** Where a pass ends: at the head of the loop, or behind it when nothing is left to do. */
  function BranchTarget(head: nat, left: Word): nat { if left != 0 then head else head + 6 }

  lemma BranchStep(prog: Program, code: nat, s: State, h: nat)
    requires HasLoop(prog, code, h) && AtLine(prog, code, s, h + 5)
    ensures SymbolicStep(prog, code, s) == Some(State(s.regs[PC := BranchTarget(code + h, s.regs[4])], s.mem))
  {
    assert s.regs[PC := code + h + 6][PC := code + h] == s.regs[PC := code + h];
    LineStep(prog, code, s, h + 5, State(s.regs[PC := BranchTarget(code + h, s.regs[4])], s.mem));
  }

  // ---------------------------------------------------------------------------------------------
  // One pass of the loop
  // ---------------------------------------------------------------------------------------------

  /** At line `i` of the loop, which starts at `head`, and sure to store below `code` only. */
  predicate InLoop(s: State, code: nat, head: nat, i: nat) {
    && 16 <= |s.regs| && !Suspended(s) && s.regs[PC] == head + i && s.regs[5] == 1
    && code <= head && head + 6 < WORD_SIZE
    && if i <= 3 then 1 <= s.regs[4] <= code && s.regs[4] <= |s.mem| else s.regs[4] < code && s.regs[4] < |s.mem|
  }

  predicate AtLoop(s: State, code: nat, head: nat) { InLoop(s, code, head, 0) }

  /** The passes left to do. */
  function Passes(s: State): nat
    requires 16 <= |s.regs|
  {
    s.regs[4]
  }

  /** The sum of the first two registers. */
  function Sum(s: State): Word
    requires 16 <= |s.regs|
  {
    var x: int, y: int := s.regs[1], s.regs[2];
    Wrap(x + y)
  }

  /** What line `i` of the loop does. */
  function LoopNext(s: State, code: nat, head: nat, i: nat): (r: State)
    requires i < 6 && InLoop(s, code, head, i)
    ensures i < 5 ==> InLoop(r, code, head, i + 1)
  {
    if i == 0 then After(s, head + 1, 3, Sum(s))
    else if i == 1 then After(s, head + 2, 1, s.regs[2])
    else if i == 2 then After(s, head + 3, 2, s.regs[3])
    else if i == 3 then After(s, head + 4, 4, s.regs[4] - 1)
    else if i == 4 then State(s.regs[PC := head + 5], s.mem[s.regs[4] := s.regs[3]])
    else State(s.regs[PC := BranchTarget(head, s.regs[4])], s.mem)
  }

  lemma LoopStep(prog: Program, code: nat, h: nat, s: State, i: nat)
    requires HasLoop(prog, code, h) && i < 6 && InLoop(s, code, code + h, i)
    ensures SymbolicStep(prog, code, s) == Some(LoopNext(s, code, code + h, i))
  {
    if i == 0 {
      AddStep(prog, code, s, h);
    } else if i == 1 {
      MovStep(prog, code, s, h + 1, 1, 2);
    } else if i == 2 {
      MovStep(prog, code, s, h + 2, 2, 3);
    } else if i == 3 {
      DecrementStep(prog, code, s, h + 3);
    } else if i == 4 {
      StoreStep(prog, code, s, h + 4);
    } else {
      BranchStep(prog, code, s, h);
    }
  }

  /** The state after `i` lines of a pass that starts in `s`. */
  function PassState(s: State, code: nat, head: nat, i: nat): (r: State)
    requires AtLoop(s, code, head) && i <= 6
    ensures i < 6 ==> InLoop(r, code, head, i)
  {
    if i == 0 then s else LoopNext(PassState(s, code, head, i - 1), code, head, i - 1)
  }

  /** The state after a pass. */
  function Pass(s: State, code: nat, head: nat): State
    requires AtLoop(s, code, head)
  {
    State(s.regs[1 := s.regs[2]][2 := Sum(s)][3 := Sum(s)][4 := s.regs[4] - 1]
                [PC := BranchTarget(head, s.regs[4] - 1)],
          s.mem[s.regs[4] - 1 := Sum(s)])
  }

  lemma SixLinesMakeAPass(s: State, code: nat, head: nat)
    requires AtLoop(s, code, head)
    ensures PassState(s, code, head, 6) == Pass(s, code, head)
  {
    var sum := Sum(s);
    var s1 := State(s.regs[PC := head + 1][3 := sum], s.mem);
    var s2 := State(s1.regs[PC := head + 2][1 := s.regs[2]], s.mem);
    var s3 := State(s2.regs[PC := head + 3][2 := sum], s.mem);
    var s4 := State(s3.regs[PC := head + 4][4 := s.regs[4] - 1], s.mem);
    assert PassState(s, code, head, 1) == s1;
    assert PassState(s, code, head, 2) == s2;
    assert PassState(s, code, head, 3) == s3;
    assert PassState(s, code, head, 4) == s4;
    assert PassState(s, code, head, 5) == State(s4.regs[PC := head + 5], s.mem[s.regs[4] - 1 := sum]);
    assert PassState(s, code, head, 6).regs == Pass(s, code, head).regs;
  }

  /** `step` goes through the lines of the loop. */
  ghost predicate DoesLoop(step: State -> Option<State>, code: nat, head: nat) {
    forall s, i: nat {:trigger LoopNext(s, code, head, i)} :: i < 6 && InLoop(s, code, head, i) ==>
      step(s) == Some(LoopNext(s, code, head, i))
  }

  lemma ProgramDoesLoop(prog: Program, code: nat, h: nat)
    requires HasLoop(prog, code, h)
    ensures DoesLoop(Stepper(prog, code), code, code + h)
  {
    var head := code + h;
    forall s, i: nat | i < 6 && InLoop(s, code, head, i)
      ensures SymbolicStep(prog, code, s) == Some(LoopNext(s, code, head, i))
    {
      LoopStep(prog, code, h, s, i);
    }
  }

  /** The first `i` lines of a pass. */
  lemma {:induction false} InsidePass(step: State -> Option<State>, s: State, code: nat, head: nat, i: nat, more: nat)
    requires DoesLoop(step, code, head) && AtLoop(s, code, head) && i <= 6
    ensures Iterate(step, s, i + more) == Iterate(step, PassState(s, code, head, i), more)
  {
    if i == 0 {
    } else {
      InsidePass(step, s, code, head, i - 1, 1 + more);
      var t := PassState(s, code, head, i - 1);
      assert step(t) == Some(LoopNext(t, code, head, i - 1));
    }
  }

  /** Six steps make a pass, whatever comes after. */
  lemma OnePass(step: State -> Option<State>, s: State, code: nat, head: nat, more: nat)
    requires DoesLoop(step, code, head) && AtLoop(s, code, head)
    ensures Iterate(step, s, 6 + more) == Iterate(step, Pass(s, code, head), more)
  {
    InsidePass(step, s, code, head, 6, more);
    SixLinesMakeAPass(s, code, head);
  }

  // ---------------------------------------------------------------------------------------------
  // The whole loop
  // ---------------------------------------------------------------------------------------------

  /** Memory after `i` of `n` passes: results are stored downwards from address n - 1. */
  function Stored(mem: seq<Word>, a: nat, b: nat, n: nat, i: nat): (r: seq<Word>)
    requires i <= n
    ensures |r| == |mem|
  {
    seq(|mem|, j requires 0 <= j < |mem| => if n - i <= j < n then Wrap(Gib(a, b, n - j + 1)) else mem[j])
  }

  lemma StoredNext(mem: seq<Word>, a: nat, b: nat, n: nat, i: nat, v: Word)
    requires i < n <= |mem| && v == Wrap(Gib(a, b, i + 2))
    ensures Stored(mem, a, b, n, i)[n - i - 1 := v] == Stored(mem, a, b, n, i + 1)
  {
  }

  /** The state after `i` passes of the loop that start in `s`. */
  function AfterPasses(s: State, code: nat, head: nat, i: nat): State
    requires AtLoop(s, code, head) && i <= s.regs[4]
  {
    var a: nat, b: nat, n: nat := s.regs[1], s.regs[2], s.regs[4];
    State(s.regs[1 := Wrap(Gib(a, b, i))][2 := Wrap(Gib(a, b, i + 1))]
                [3 := if i == 0 then s.regs[3] else Wrap(Gib(a, b, i + 1))][4 := n - i]
                [PC := BranchTarget(head, n - i)],
          Stored(s.mem, a, b, n, i))
  }

  lemma WrapAdds(x: int, y: int)
    ensures var u: int, v: int := Wrap(x), Wrap(y); Wrap(u + v) == Wrap(x + y)
  {
  }

  lemma NoPassYet(s: State, code: nat, head: nat)
    requires AtLoop(s, code, head)
    ensures AfterPasses(s, code, head, 0) == s
  {
  }

  lemma SumAfterPasses(s: State, code: nat, head: nat, i: nat)
    requires AtLoop(s, code, head) && i < s.regs[4]
    ensures AtLoop(AfterPasses(s, code, head, i), code, head)
    ensures Sum(AfterPasses(s, code, head, i)) == Wrap(Gib(s.regs[1], s.regs[2], i + 2))
  {
    var a: nat, b: nat := s.regs[1], s.regs[2];
    WrapAdds(Gib(a, b, i), Gib(a, b, i + 1));
    assert Gib(a, b, i + 2) == Gib(a, b, i + 1) + Gib(a, b, i);
  }

  lemma PassAdvances(s: State, code: nat, head: nat, i: nat)
    requires AtLoop(s, code, head) && i < s.regs[4]
    ensures AtLoop(AfterPasses(s, code, head, i), code, head)
    ensures Pass(AfterPasses(s, code, head, i), code, head) == AfterPasses(s, code, head, i + 1)
  {
    var t, u := AfterPasses(s, code, head, i), AfterPasses(s, code, head, i + 1);
    SumAfterPasses(s, code, head, i);
    assert Pass(t, code, head).regs == u.regs;
    StoredNext(s.mem, s.regs[1], s.regs[2], s.regs[4], i, Sum(t));
  }

  /** The first `i` passes: 6i steps. */
  lemma {:induction false} PassesRun(step: State -> Option<State>, s: State, code: nat, head: nat, i: nat, more: nat)
    requires DoesLoop(step, code, head) && AtLoop(s, code, head) && i <= s.regs[4]
    ensures Iterate(step, s, 6 * i + more) == Iterate(step, AfterPasses(s, code, head, i), more)
  {
    if i == 0 {
      NoPassYet(s, code, head);
    } else {
      PassesRun(step, s, code, head, i - 1, 6 + more);
      PassAdvances(s, code, head, i - 1);
      OnePass(step, AfterPasses(s, code, head, i - 1), code, head, more);
      assert 6 * i + more == 6 * (i - 1) + (6 + more);
    }
  }

  /** Up to the end of the last pass the program counter is in the loop. */
  lemma InsideLoop(step: State -> Option<State>, s: State, code: nat, head: nat, c: nat)
    requires DoesLoop(step, code, head) && AtLoop(s, code, head) && c < 6 * Passes(s)
    ensures var r := Iterate(step, s, c);
            r.Some? && PC < |r.value.regs| && head <= r.value.regs[PC] < head + 6
  {
    var i, j := c / 6, c % 6;
    PassesRun(step, s, code, head, i, j);
    PassAdvances(s, code, head, i);
    InsidePass(step, AfterPasses(s, code, head, i), code, head, j, 0);
  }

  // ---------------------------------------------------------------------------------------------
  // The program from its start
  // ---------------------------------------------------------------------------------------------

  /** Registers and memory that the program can work with; it stores below `code` only. */
  predicate Ready(s: State, n: nat, code: nat) {
    && 16 <= |s.regs| && !Suspended(s)
    && 1 <= n <= code && code + LINES <= |s.mem| && code + LINES < 0x1_0000_0000_0000
  }

  /** At line `i` of the setup. */
  predicate InSetup(s: State, n: nat, code: nat, i: nat) { Ready(s, n, code) && s.regs[PC] == code + i }

  /** What line `i` of the setup does. */
  function SetupNext(s: State, n: nat, code: nat, i: nat): (r: State)
    requires i < 5 && InSetup(s, n, code, i)
    ensures InSetup(r, n, code, i + 1)
  {
    After(s, code + i + 1, i + 1, if i == 2 then 0 else if i == 3 then n else 1)
  }

  /** The state after `i` lines of the setup. */
  function SetupState(s: State, n: nat, code: nat, i: nat): (r: State)
    requires InSetup(s, n, code, 0) && i <= 5
    ensures InSetup(r, n, code, i)
  {
    if i == 0 then s else SetupNext(SetupState(s, n, code, i - 1), n, code, i - 1)
  }

  function Started(s: State, n: nat, code: nat): State
    requires Ready(s, n, code)
  {
    State(s.regs[1 := 1][2 := 1][3 := 0][4 := n][5 := 1][PC := code + LOOP], s.mem)
  }

  lemma StartedIsAtLoop(s: State, n: nat, code: nat)
    requires Ready(s, n, code)
    ensures AtLoop(Started(s, n, code), code, code + LOOP) && Started(s, n, code).regs[4] == n
  {
  }

  /** The state at the end of the program. */
  function Final(s: State, n: nat, code: nat): State
    requires Ready(s, n, code)
  {
    StartedIsAtLoop(s, n, code);
    AfterPasses(Started(s, n, code), code, code + LOOP, n)
  }

  lemma SetupStep(prog: Program, n: nat, code: nat, s: State, i: nat)
    requires IsFib(prog, n, code) && i < 5 && InSetup(s, n, code, i)
    ensures SymbolicStep(prog, code, s) == Some(SetupNext(s, n, code, i))
  {
    SetStep(prog, code, s, i, i + 1, if i == 2 then 0 else if i == 3 then n else 1);
  }

  /** `step` goes through the setup of the loop and then through the loop. */
  ghost predicate DoesFib(step: State -> Option<State>, n: nat, code: nat) {
    && DoesLoop(step, code, code + LOOP)
    && forall s, i: nat {:trigger SetupNext(s, n, code, i)} :: i < 5 && InSetup(s, n, code, i) ==>
         step(s) == Some(SetupNext(s, n, code, i))
  }

  lemma ProgramDoesFib(prog: Program, n: nat, code: nat)
    requires IsFib(prog, n, code)
    ensures DoesFib(Stepper(prog, code), n, code)
  {
    ProgramDoesLoop(prog, code, LOOP);
    forall s, i: nat | i < 5 && InSetup(s, n, code, i)
      ensures SymbolicStep(prog, code, s) == Some(SetupNext(s, n, code, i))
    {
      SetupStep(prog, n, code, s, i);
    }
  }

  /** The first `i` lines of the setup. */
  lemma {:induction false} InsideSetup(step: State -> Option<State>, n: nat, code: nat, s: State, i: nat, more: nat)
    requires DoesFib(step, n, code) && InSetup(s, n, code, 0) && i <= 5
    ensures Iterate(step, s, i + more) == Iterate(step, SetupState(s, n, code, i), more)
  {
    if i == 0 {
    } else {
      InsideSetup(step, n, code, s, i - 1, 1 + more);
      var t := SetupState(s, n, code, i - 1);
      assert step(t) == Some(SetupNext(t, n, code, i - 1));
    }
  }

  lemma SetupStarts(n: nat, code: nat, s: State)
    requires InSetup(s, n, code, 0)
    ensures SetupState(s, n, code, 5) == Started(s, n, code)
  {
    var s2 := State(s.regs[PC := code + 1][1 := 1][PC := code + 2][2 := 1], s.mem);
    var s4 := State(s2.regs[PC := code + 3][3 := 0][PC := code + 4][4 := n], s.mem);
    assert SetupState(s, n, code, 1) == State(s.regs[PC := code + 1][1 := 1], s.mem);
    assert SetupState(s, n, code, 2) == s2;
    assert SetupState(s, n, code, 3) == State(s2.regs[PC := code + 3][3 := 0], s.mem);
    assert SetupState(s, n, code, 4) == s4;
    assert SetupState(s, n, code, 5).regs == Started(s, n, code).regs;
  }

  lemma Setup(step: State -> Option<State>, n: nat, code: nat, s: State, more: nat)
    requires DoesFib(step, n, code) && InSetup(s, n, code, 0)
    ensures Iterate(step, s, 5 + more) == Iterate(step, Started(s, n, code), more)
  {
    InsideSetup(step, n, code, s, 5, more);
    SetupStarts(n, code, s);
  }

  /** What the program leaves: Fib(n - j + 2) at each address j < n, and the end of the program in PC. */
  predicate Result(s: State, n: nat, code: nat, r: State) {
    && |r.regs| == |s.regs| && |r.mem| == |s.mem| && 16 <= |r.regs|
    && r.regs[PC] == code + END && r.regs[0] == s.regs[0] && (Suspended(r) <==> Suspended(s))
    && forall j :: 0 <= j < |r.mem| ==> r.mem[j] == if j < n then Wrap(Fib(n - j + 2)) else s.mem[j]
  }

  lemma FinalIsResult(s: State, n: nat, code: nat)
    requires Ready(s, n, code)
    ensures Result(s, n, code, Final(s, n, code))
  {
    var r := Final(s, n, code);
    forall j | 0 <= j < |r.mem|
      ensures r.mem[j] == if j < n then Wrap(Fib(n - j + 2)) else s.mem[j]
    {
      if j < n {
        GibFromOnesIsFib(n - j + 1);
        assert r.mem[j] == Wrap(Gib(1, 1, n - j + 1));
      }
    }
  }

  /** The steps from start to end. */
  lemma StepsReachEnd(step: State -> Option<State>, n: nat, code: nat, s: State)
    requires DoesFib(step, n, code) && Ready(s, n, code) && s.regs[PC] == code
    ensures Iterate(step, s, 5 + 6 * n) == Some(Final(s, n, code))
  {
    Setup(step, n, code, s, 6 * n);
    StartedIsAtLoop(s, n, code);
    PassesRun(step, Started(s, n, code), code, code + LOOP, n, 0);
  }

  /** The steps are at some line before the end, until they reach it. */
  lemma StepsBeforeEnd(step: State -> Option<State>, n: nat, code: nat, s: State, c: nat)
    requires DoesFib(step, n, code) && Ready(s, n, code) && s.regs[PC] == code && c < 5 + 6 * n
    ensures var r := Iterate(step, s, c);
            r.Some? && PC < |r.value.regs| && code <= r.value.regs[PC] < code + END
  {
    if c < 5 {
      InsideSetup(step, n, code, s, c, 0);
    } else {
      Setup(step, n, code, s, c - 5);
      StartedIsAtLoop(s, n, code);
      InsideLoop(step, Started(s, n, code), code, code + LOOP, c - 5);
    }
  }

  /** After `c` cycles the machine is at a line of the program before the WFI. */
  predicate BeforeEnd(hl: HighLevelCode, s: State, c: nat) {
    var r := Run(hl, s, c);
    r.Some? && PC < |r.value.regs| && hl.code <= r.value.regs[PC] < hl.code + END
  }

  /**
   The encoded program reaches the WFI after 5 + 6n cycles and not before, with the Fibonacci numbers
   modulo 2^64 in the first n words and every other word, the code among them, as it was.  After `more`
   cycles the machine is where `more` cycles take it from there.
   */
  lemma MachineComputesFibonacci(prog: Program, n: nat, hl: HighLevelCode, s: State, cycles: nat, more: nat)
    returns (r: State)
    requires IsFib(prog, n, hl.code) && Assembles(prog, hl.code) && Loaded(prog, hl, s)
    requires Ready(s, n, hl.code) && s.regs[PC] == hl.code && cycles == 5 + 6 * n
    ensures Run(hl, s, cycles) == Some(r) && Run(hl, s, cycles + more) == Run(hl, r, more)
    ensures forall c :: 0 <= c < cycles ==> BeforeEnd(hl, s, c)
    ensures Result(s, n, hl.code, r)
  {
    r := Final(s, n, hl.code);
    MachineReachesEnd(prog, n, hl, s, cycles, more);
    MachineIsBeforeEnd(prog, n, hl, s, cycles);
    FinalIsResult(s, n, hl.code);
  }

  lemma MachineReachesEnd(prog: Program, n: nat, hl: HighLevelCode, s: State, cycles: nat, more: nat)
    requires IsFib(prog, n, hl.code) && InSetup(s, n, hl.code, 0) && cycles == 5 + 6 * n
    requires Assembles(prog, hl.code) && Loaded(prog, hl, s)
    ensures Run(hl, s, cycles) == Some(Final(s, n, hl.code))
    ensures Run(hl, s, cycles + more) == Run(hl, Final(s, n, hl.code), more)
  {
    ProgramDoesFib(prog, n, hl.code);
    StepsReachEnd(Stepper(prog, hl.code), n, hl.code, s);
    MachineRunsProgram(prog, hl, s, cycles, more);
  }

  lemma MachineIsBeforeEnd(prog: Program, n: nat, hl: HighLevelCode, s: State, cycles: nat)
    requires IsFib(prog, n, hl.code) && InSetup(s, n, hl.code, 0) && cycles == 5 + 6 * n
    requires Assembles(prog, hl.code) && Loaded(prog, hl, s)
    ensures forall c :: 0 <= c < cycles ==> BeforeEnd(hl, s, c)
  {
    ProgramDoesFib(prog, n, hl.code);
    forall c | 0 <= c < cycles
      ensures BeforeEnd(hl, s, c)
    {
      StepsBeforeEnd(Stepper(prog, hl.code), n, hl.code, s, c);
      MachineRunsProgram(prog, hl, s, c, 0);
    }
  }

  /** Assemble the program, load it, and run the processor to the WFI. */
  method ComputeFibonacci(p: Processor, n: nat) returns (ok: bool)
    requires p.Valid() && Ready(p.Abs(), n, p.code)
    modifies p`hlCode, p.registers, p.systemState
    ensures ok && p.registers[PC] == p.code + END
    ensures forall j :: 0 <= j < n ==> p.systemState[j] == Wrap(Fib(n - j + 2))
    ensures forall a :: n <= a < p.systemState.Length && !(p.code <= a < p.code + LINES) ==>
      p.systemState[a] == old(p.systemState[a])
  {
    var prog := FibProgram(n);
    FibProgramIsFib(prog, n, p.code);
    FibProgramAssembles(prog, n, p.code);
    ok := LoadAndRun(p, prog, n);
  }

  method LoadAndRun(p: Processor, prog: Program, n: nat) returns (ok: bool)
    requires p.Valid() && Ready(p.Abs(), n, p.code) && Assembles(prog, p.code) && IsFib(prog, n, p.code)
    modifies p`hlCode, p.registers, p.systemState
    ensures ok && p.registers[PC] == p.code + END
    ensures forall j :: 0 <= j < n ==> p.systemState[j] == Wrap(Fib(n - j + 2))
    ensures forall a :: n <= a < p.systemState.Length && !(p.code <= a < p.code + LINES) ==>
      p.systemState[a] == old(p.systemState[a])
  {
    p.Start(prog);
    ghost var s := p.Abs();
    ghost var r := MachineComputesFibonacci(prog, n, p.Table(), s, 5 + 6 * n, 0);
    ok := RunToEnd(p, n, s, r);
  }

  method RunToEnd(p: Processor, n: nat, ghost s: State, ghost r: State) returns (ok: bool)
    requires p.Valid() && p.Abs() == s && Run(p.Table(), s, 5 + 6 * n) == Some(r) && Result(s, n, p.code, r)
    modifies p.registers, p.systemState
    ensures ok && p.registers[PC] == p.code + END
    ensures forall j :: 0 <= j < p.systemState.Length ==>
      p.systemState[j] == if j < n then Wrap(Fib(n - j + 2)) else old(p.systemState[j])
  {
    ok := p.RunCycles(5 + 6 * n);
    assert p.registers[PC] == r.regs[PC];
    forall j | 0 <= j < p.systemState.Length
      ensures p.systemState[j] == r.mem[j] && s.mem[j] == old(p.systemState[j])
    {
    }
  }

  // ---------------------------------------------------------------------------------------------
  // After the end
  // ---------------------------------------------------------------------------------------------

  /** A cycle over a WFI or over a zero word, which decodes as ADD R0,R0,R0, moves only PC. */
  lemma {:induction false} IdleCycles(hl: HighLevelCode, s: State, cycles: nat)
    requires 16 <= |s.regs| && !Suspended(s) && s.regs[0] == 0 && s.regs[PC] + cycles <= |s.mem| < WORD_SIZE
    requires forall a :: s.regs[PC] <= a < s.regs[PC] + cycles ==> s.mem[a] == 0 || s.mem[a] == WFI
    ensures Run(hl, s, cycles) == Some(State(s.regs[PC := s.regs[PC] + cycles], s.mem))
    decreases cycles
  {
    if cycles == 0 {
      assert s.regs[PC := s.regs[PC]] == s.regs;
    } else {
      var next := State(s.regs[PC := s.regs[PC] + 1], s.mem);
      OneIdleCycle(hl, s, next);
      IdleCycles(hl, next, cycles - 1);
      assert next.regs[PC := s.regs[PC] + cycles] == s.regs[PC := s.regs[PC] + cycles];
    }
  }

  lemma OneIdleCycle(hl: HighLevelCode, s: State, next: State)
    requires 16 <= |s.regs| && !Suspended(s) && s.regs[0] == 0 && s.regs[PC] < |s.mem| < WORD_SIZE
    requires s.mem[s.regs[PC]] == 0 || s.mem[s.regs[PC]] == WFI
    requires next == State(s.regs[PC := s.regs[PC] + 1], s.mem)
    ensures Cycle(hl, s) == Some(next)
  {
    assert Fetched(s) == next;
    assert Decode(0) == Decoded(AluOpcode(Add), 0, 0, 0) && Decode(WFI) == Decoded(WFI, 0, 0, 0);
    assert next.regs[0 := 0] == next.regs;
  }

  lemma LastWordIsWfi(prog: Program, n: nat, hl: HighLevelCode, s: State)
    requires IsFib(prog, n, hl.code) && Assembles(prog, hl.code) && Loaded(prog, hl, s)
    ensures s.mem[hl.code + END] == WFI
  {
  }

  lemma ResultIdles(n: nat, hl: HighLevelCode, s: State, r: State, more: nat)
    requires Ready(s, n, hl.code) && Result(s, n, hl.code, r) && s.regs[0] == 0
    requires hl.code + END + more <= |s.mem| < WORD_SIZE && s.mem[hl.code + END] == WFI
    requires forall a :: hl.code + LINES <= a < hl.code + END + more ==> s.mem[a] == 0
    ensures Run(hl, r, more) == Some(State(r.regs[PC := hl.code + END + more], r.mem))
  {
    forall a | hl.code + END <= a < hl.code + END + more
      ensures r.mem[a] == 0 || r.mem[a] == WFI
    {
      assert r.mem[a] == s.mem[a];
    }
    IdleCycles(hl, r, more);
  }

  /** Past the end, cycles over zeroed words change only PC, so the results stay. */
  lemma ResultsStay(prog: Program, n: nat, hl: HighLevelCode, s: State, cycles: nat, more: nat)
    returns (r: State)
    requires IsFib(prog, n, hl.code) && Assembles(prog, hl.code) && Loaded(prog, hl, s)
    requires Ready(s, n, hl.code) && s.regs[PC] == hl.code && s.regs[0] == 0 && cycles == 5 + 6 * n
    requires hl.code + END + more <= |s.mem| < WORD_SIZE
    requires forall a :: hl.code + LINES <= a < hl.code + END + more ==> s.mem[a] == 0
    ensures Result(s, n, hl.code, r)
    ensures Run(hl, s, cycles + more) == Some(State(r.regs[PC := hl.code + END + more], r.mem))
  {
    LastWordIsWfi(prog, n, hl, s);
    r := MachineComputesFibonacci(prog, n, hl, s, cycles, more);
    ResultIdles(n, hl, s, r, more);
  }

  // ---------------------------------------------------------------------------------------------
  // When nothing wraps
  // ---------------------------------------------------------------------------------------------

  lemma TenFurther(k: nat)
    ensures Fib(k + 10) == 34 * Fib(k) + 55 * Fib(k + 1) && Fib(k + 11) == 55 * Fib(k) + 89 * Fib(k + 1)
  {
    var x, y := Fib(k), Fib(k + 1);
    assert Fib(k + 2) == x + y && Fib(k + 3) == x + 2 * y;
    assert Fib(k + 4) == 2 * x + 3 * y && Fib(k + 5) == 3 * x + 5 * y;
    assert Fib(k + 6) == 5 * x + 8 * y && Fib(k + 7) == 8 * x + 13 * y;
    assert Fib(k + 8) == 13 * x + 21 * y && Fib(k + 9) == 21 * x + 34 * y;
  }

  lemma TenFurtherFrom(k: nat, x: nat, y: nat)
    requires Fib(k) == x && Fib(k + 1) == y
    ensures Fib(k + 10) == 34 * x + 55 * y && Fib(k + 11) == 55 * x + 89 * y
  {
    TenFurther(k);
  }

  /** `k` is 93; a literal argument would make the verifier unfold Fib to the end. */
  lemma FibNinetyThree() returns (k: nat)
    ensures 92 < k < 94 && Fib(k) < WORD_SIZE < Fib(k + 1)
  {
    var b := 3;
    assert Fib(b - 1) == 1 && Fib(b) == 2 && Fib(b + 1) == 3;
    TenFurtherFrom(b, 2, 3);
    TenFurtherFrom(b + 10, 233, 377);
    TenFurtherFrom(b + 20, 28657, 46368);
    TenFurtherFrom(b + 30, 3524578, 5702887);
    TenFurtherFrom(b + 40, 433494437, 701408733);
    TenFurtherFrom(b + 50, 53316291173, 86267571272);
    TenFurtherFrom(b + 60, 6557470319842, 10610209857723);
    TenFurtherFrom(b + 70, 806515533049393, 1304969544928657);
    TenFurtherFrom(b + 80, 99194853094755497, 160500643816367088);
    k := b + 90;
  }

  lemma {:induction false} FibGrows(j: nat, k: nat)
    requires j <= k
    ensures Fib(j) <= Fib(k)
    decreases k - j
  {
    if j == k {
    } else {
      FibGrows(j, k - 1);
    }
  }

  /** All results fit their words. */
  predicate Unwrapped(n: nat) {
    forall k {:trigger Wrap(Fib(k))} :: 2 <= k <= n + 2 ==> Wrap(Fib(k)) == Fib(k)
  }

  /** All results are kept unwrapped exactly when n <= 91. */
  lemma UnwrappedUpTo91(n: nat)
    ensures Unwrapped(n) <==> n <= 91
  {
    var last := FibNinetyThree();
    UnwrappedUpTo(n, last);
  }

  lemma UnwrappedUpTo(n: nat, last: nat)
    requires 2 <= last && Fib(last) < WORD_SIZE < Fib(last + 1)
    ensures Unwrapped(n) <==> n + 2 <= last
  {
    if n + 2 <= last {
      SmallResultsAreKept(n, last);
    } else {
      LargeResultWraps(n, last + 1);
    }
  }

  lemma LargeResultWraps(n: nat, first: nat)
    requires 2 <= first <= n + 2 && WORD_SIZE < Fib(first)
    ensures !Unwrapped(n)
  {
    FibGrows(first, n + 2);
    WrapKeepsExactly(Fib(n + 2));
  }

  lemma SmallResultsAreKept(n: nat, last: nat)
    requires n + 2 <= last && Fib(last) < WORD_SIZE
    ensures Unwrapped(n)
  {
    forall k | 2 <= k <= n + 2
      ensures Wrap(Fib(k)) == Fib(k)
    {
      FibGrows(k, last);
      WrapKeepsExactly(Fib(k));
    }
  }

  lemma WrapKeepsExactly(x: nat)
    ensures Wrap(x) == x <==> x < WORD_SIZE
  {
  }

  // ---------------------------------------------------------------------------------------------
  // The high-level instruction
  // ---------------------------------------------------------------------------------------------

  /** What the high-level instruction leaves, when no number exceeds a word. */
  function HighLevelResult(s: State): State
    requires 16 <= |s.regs|
  {
    var a: nat, b: nat, n: nat := s.regs[1], s.regs[2], s.regs[4];
    State(s.regs[1 := Wrap(Gib(a, b, n))][2 := Wrap(Gib(a, b, n + 1))][3 := Wrap(Gib(a, b, n + 1))][4 := 0],
          Stored(s.mem, a, b, n, n))
  }

  /** `fib_hl`: it succeeds exactly when its results fit the memory and the last number fits a word. */
  function FibHighLevel(s: State): Option<State> {
    if 16 <= |s.regs| && s.regs[4] <= |s.mem| && Last(s) < WORD_SIZE then Some(HighLevelResult(s)) else None
  }

  /** The last number of the sequence that starts in R1 and R2. */
  function Last(s: State): nat
    requires 16 <= |s.regs|
  {
    Gib(s.regs[1], s.regs[2], Passes(s) + 1)
  }

  lemma {:induction false} GibGrows(a: nat, b: nat, j: nat, k: nat)
    requires 1 <= j <= k
    ensures Gib(a, b, j) <= Gib(a, b, k)
    decreases k - j
  {
    if j == k {
    } else {
      GibGrows(a, b, j, k - 1);
    }
  }

  /**
   `fib_hl` in place: unbounded integers inside, but a number that does not fit a word cannot be
   stored and stops it, like an address past the memory.
   */
  method FibHl(registers: array<Word>, systemState: array<Word>) returns (ok: bool)
    requires registers != systemState && 16 <= registers.Length
    modifies registers, systemState
    ensures ok <==> FibHighLevel(old(State(registers[..], systemState[..]))).Some?
    ensures ok ==>
      State(registers[..], systemState[..]) == FibHighLevel(old(State(registers[..], systemState[..]))).value
  {
    var r1: nat, r2: nat, r3: nat, r4: nat := registers[1], registers[2], registers[2], registers[4];
    ghost var a: nat, b: nat, n: nat := r1, r2, r4;
    ghost var i := 0;
    while r4 != 0
      invariant i + r4 == n && registers[..] == old(registers[..])
      invariant i == 0 || n <= systemState.Length
      invariant r1 == Gib(a, b, i) && r2 == Gib(a, b, i + 1) && r3 == r2 && r2 < WORD_SIZE
      invariant r1 < WORD_SIZE
      invariant systemState[..] == Stored(old(systemState[..]), a, b, n, i)
    {
      r3 := r1 + r2;
      assert r3 == Gib(a, b, i + 2);
      r1 := r2;
      r2 := r3;
      r4 := r4 - 1;
      if systemState.Length <= r4 {
        return false;
      }
      if WORD_SIZE <= r3 {
        GibGrows(a, b, i + 2, n + 1);
        return false;
      }
      StoredNext(old(systemState[..]), a, b, n, i, r3);
      systemState[r4] := r3;
      i := i + 1;
    }
    WrapKeepsExactly(r1);
    WrapKeepsExactly(r2);
    registers[1], registers[2], registers[3], registers[4] := r1, r2, r3, r4;
    assert registers[..] == old(registers[..])[1 := r1][2 := r2][3 := r3][4 := r4];
    ok := true;
  }

  /**
   On the machine, the 6n cycles of the loop, wherever it stands in a program, leave the memory and
   the registers of the high-level instruction, but for PC.
   */
  lemma HighLevelDoesTheLoop(prog: Program, h: nat, hl: HighLevelCode, s: State)
    requires HasLoop(prog, hl.code, h) && AtLoop(s, hl.code, hl.code + h)
    requires Assembles(prog, hl.code) && Loaded(prog, hl, s)
    ensures var high := HighLevelResult(s);
            Run(hl, s, 6 * Passes(s)) == Some(State(high.regs[PC := hl.code + h + 6], high.mem))
  {
    AllPassesAreHighLevel(s, hl.code, hl.code + h);
    LoopOnMachine(prog, h, hl, s, 6 * Passes(s));
  }

  lemma LoopOnMachine(prog: Program, h: nat, hl: HighLevelCode, s: State, cycles: nat)
    requires HasLoop(prog, hl.code, h) && AtLoop(s, hl.code, hl.code + h) && cycles == 6 * Passes(s)
    requires Assembles(prog, hl.code) && Loaded(prog, hl, s)
    ensures Run(hl, s, cycles) == Some(AfterPasses(s, hl.code, hl.code + h, Passes(s)))
  {
    LoopRuns(prog, hl.code, h, s, cycles);
    MachineRunsProgram(prog, hl, s, cycles, 0);
  }

  lemma LoopRuns(prog: Program, code: nat, h: nat, s: State, cycles: nat)
    requires HasLoop(prog, code, h) && AtLoop(s, code, code + h) && cycles == 6 * Passes(s)
    ensures SymbolicRun(prog, code, s, cycles) == Some(AfterPasses(s, code, code + h, Passes(s)))
  {
    ProgramDoesLoop(prog, code, h);
    PassesRun(Stepper(prog, code), s, code, code + h, Passes(s), 0);
  }

  lemma AllPassesAreHighLevel(s: State, code: nat, head: nat)
    requires AtLoop(s, code, head)
    ensures var high := HighLevelResult(s);
            AfterPasses(s, code, head, Passes(s)) == State(high.regs[PC := head + 6], high.mem)
  {
    assert AfterPasses(s, code, head, Passes(s)).regs == HighLevelResult(s).regs[PC := head + 6];
  }

  /** The program of the Python model, which starts a timer first and ends in its interrupt handler. */
  function TimerProgram(n: nat, timer: nat, handler: HighLevel): Program {
    [ Line(None, Set(1, 10)),
      Line(None, Set(2, 10)),
      Line(None, Set(3, timer)),
      Line(None, Str(1, 3)),
      Line(None, Set(3, timer + 1)),
      Line(None, Str(2, 3)),
      Line(None, Set(1, 1)),
      Line(None, Set(2, 1)),
      Line(None, Set(3, 0)),
      Line(None, Set(4, n)),
      Line(None, Set(5, 1)),
      Line(Some(1), Alu(Add, 3, 1, 2)),
      Line(None, Mov(1, 2)),
      Line(None, Mov(2, 3)),
      Line(None, Alu(Sub, 4, 4, 5)),
      Line(None, Str(3, 4)),
      Line(None, Cbnz(4, 1)),
      Line(None, Wfi),
      Line(None, Hli(handler)) ]
  }

  lemma TimerProgramHasLoop(prog: Program, n: nat, timer: nat, handler: HighLevel, code: nat)
    requires prog == TimerProgram(n, timer, handler) && code + 11 < 0x1_0000_0000_0000
    ensures HasLoop(prog, code, 11)
  {
    assert prog[11].defines == Some(1);
    assert LatestDefinition(prog, 16, 1) == Some(11);
  }

  lemma TimerProgramAssembles(prog: Program, n: nat, timer: nat, handler: HighLevel, code: nat)
    requires prog == TimerProgram(n, timer, handler)
    requires n < 0x1_0000_0000_0000 && timer + 1 < 0x1_0000_0000_0000 && code + 11 < 0x1_0000_0000_0000
    ensures Assembles(prog, code)
  {
    TimerProgramHasLoop(prog, n, timer, handler, code);
    forall k | 0 <= k < |prog|
      ensures LabelKnown(prog, k) && InRange(prog[k].instr, TargetOf(prog, code, k))
    {
      assert k != 16 ==> !UsesLabel(prog[k].instr);
    }
  }

  /** The same registers but for PC, and the same words below `code`. */
  predicate SameData(s: State, t: State, code: nat) {
    && |s.regs| == |t.regs| && (forall r :: 0 <= r < |s.regs| && r != PC ==> s.regs[r] == t.regs[r])
    && code <= |s.mem| && code <= |t.mem| && forall a :: 0 <= a < code ==> s.mem[a] == t.mem[a]
  }

  lemma HighLevelDependsOnData(s: State, t: State, code: nat)
    requires 16 <= |s.regs| && SameData(s, t, code) && s.regs[4] <= code
    ensures FibHighLevel(t).Some? <==> Last(s) < WORD_SIZE
    ensures SameData(HighLevelResult(s), HighLevelResult(t), code)
  {
  }

  lemma OneHliCycle(t: State, hl: HighLevelCode)
    requires 16 <= |t.regs| && !Suspended(t) && t.regs[PC] + 1 < WORD_SIZE
    requires t.regs[PC] < |t.mem| && t.mem[t.regs[PC]] == HLI
    requires hl.code <= t.regs[PC] < hl.code + |hl.table| && hl.table[t.regs[PC] - hl.code] == Some(FibHighLevel)
    ensures var fetched := State(t.regs[PC := t.regs[PC] + 1], t.mem);
            Cycle(hl, t) == FibHighLevel(fetched)
  {
    assert Fetched(t) == State(t.regs[PC := t.regs[PC] + 1], t.mem);
    CycleOfHli(FibHighLevel, hl, t);
  }

  /**
   Two machines with the same data, one about to execute the high-level instruction and the other the
   encoded loop: unless a number exceeds a word, one cycle of the first and 6n of the second lead to
   the same data again, and only then does the first go on.
   */
  lemma OneHliReplacesTheLoop(prog: Program, h: nat, hl: HighLevelCode, s: State, hl2: HighLevelCode, t: State)
    requires HasLoop(prog, hl.code, h) && AtLoop(s, hl.code, hl.code + h)
    requires Assembles(prog, hl.code) && Loaded(prog, hl, s)
    requires SameData(s, t, hl.code) && t.regs[PC] + 1 < WORD_SIZE
    requires t.regs[PC] < |t.mem| && t.mem[t.regs[PC]] == HLI
    requires hl2.code <= t.regs[PC] < hl2.code + |hl2.table| && hl2.table[t.regs[PC] - hl2.code] == Some(FibHighLevel)
    ensures Run(hl, s, 6 * Passes(s)).Some?
    ensures Cycle(hl2, t).Some? <==> Last(s) < WORD_SIZE
    ensures Cycle(hl2, t).Some? ==> SameData(Run(hl, s, 6 * Passes(s)).value, Cycle(hl2, t).value, hl.code)
  {
    HighLevelDoesTheLoop(prog, h, hl, s);
    OneHliCycle(t, hl2);
    HighLevelDependsOnData(s, State(t.regs[PC := t.regs[PC] + 1], t.mem), hl.code);
  }
}
