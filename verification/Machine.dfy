/**
 The assembler and the fetch-decode-execute machine of
 Code/Ch1-memory-centric-system-model/advanced-model (abstract_system_encoder.py, abstract_system_cpu_*.py
 and abstract_system_processor.py), and of its C++ twin in cpp-code, over 64-bit words.
 */
module Machine {
  import opened Options
  import opened Division

  const WORD_BITS: nat := 64
  const WORD_SIZE: int := 0x1_0000_0000_0000_0000
  type Word = w: int | 0 <= w < WORD_SIZE

  const SP: nat := 13
  const LR: nat := 14
  const PC: nat := 15
  /** Register of the Python model that stops execution when it is not zero; the C++ model has none. */
  const SCR: nat := 23

  /** Entries of the interrupt vector table, at the start of the memory. */
  const IVT_SIZE: nat := 16

  const LDR: nat := 16
  const STR: nat := 17
  const BL: nat := 18
  const BX: nat := 19
  const PUSH: nat := 20
  const POP: nat := 21
  const MOV: nat := 22
  const SET: nat := 23
  const NOP: nat := 24
  const CBZ: nat := 25
  const CBNZ: nat := 26
  const B: nat := 27
  const ADR: nat := 28
  const WFI: nat := 29
  const HLI: nat := 30

  datatype State = State(regs: seq<Word>, mem: seq<Word>)

  // ---------------------------------------------------------------------------------------------
  // Assembly programs
  // ---------------------------------------------------------------------------------------------

  datatype AluOp = Add | Sub | Mul | Div | And | Orr | Eor | Asr | Asl

  /** The operations in the order of their opcodes. */
  const ALU: seq<AluOp> := [Add, Sub, Mul, Div, And, Orr, Eor, Asr, Asl]

  /** A high-level instruction changes registers and memory as it likes; None when it fails. */
  type HighLevel = State -> Option<State>

  /** The encoder wants three operands of PUSH and POP, of which only the first has a meaning. */
  datatype Instr =
    | Alu(op: AluOp, rd: nat, rn: nat, rm: nat)
    | Push(rs: nat, x: nat, y: nat)
    | Pop(rd: nat, x: nat, y: nat)
    | Mov(rd: nat, rs: nat)
    | Set(rd: nat, immediate: nat)
    | Ldr(rd: nat, address: nat)
    | Str(rs: nat, ra: nat)
    | Cbz(rt: nat, tag: nat)
    | Cbnz(rt: nat, tag: nat)
    | Branch(tag: nat)
    | BranchLink(tag: nat)
    | Nop
    | Wfi
    | Hli(run: HighLevel)

  /** An instruction, with the label that it may define. */
  datatype Line = Line(defines: Option<nat>, instr: Instr)

  type Program = seq<Line>

  /** The latest line at or before `k` that defines `tag`. */
  function LatestDefinition(prog: Program, k: nat, tag: nat): (r: Option<nat>)
    requires k < |prog|
    ensures r.Some? ==> r.value <= k && prog[r.value].defines == Some(tag)
    ensures forall j :: 0 <= j <= k && prog[j].defines == Some(tag) ==> r.Some? && j <= r.value
  {
    if prog[k].defines == Some(tag) then Some(k)
    else if k == 0 then None
    else LatestDefinition(prog, k - 1, tag)
  }

  predicate UsesLabel(i: Instr) { i.Cbz? || i.Cbnz? || i.Branch? || i.BranchLink? }

  /** The label of line `k` is defined at or before it. */
  predicate LabelKnown(prog: Program, k: nat)
    requires k < |prog|
  {
    UsesLabel(prog[k].instr) ==> LatestDefinition(prog, k, prog[k].instr.tag).Some?
  }

  /** Address that the label of line `k` stands for; 0 for an instruction without one. */
  function TargetOf(prog: Program, code: nat, k: nat): nat
    requires k < |prog| && LabelKnown(prog, k)
  {
    if UsesLabel(prog[k].instr) then LatestDefinition(prog, k, prog[k].instr.tag).value + code else 0
  }

  // ---------------------------------------------------------------------------------------------
  // Encoding and decoding
  // ---------------------------------------------------------------------------------------------

  function AluOpcode(op: AluOp): nat {
    match op
    case Add => 0
    case Sub => 1
    case Mul => 2
    case Div => 3
    case And => 4
    case Orr => 5
    case Eor => 6
    case Asr => 7
    case Asl => 8
  }

  /** An instruction word taken apart; a field that an instruction does not have is 0. */
  datatype Decoded = Decoded(opcode: nat, a: nat, b: nat, c: nat)

  /** The operands of an instruction, with its label replaced by `target`. */
  function Operands(i: Instr, target: nat): Decoded {
    match i
    case Alu(op, rd, rn, rm) => Decoded(AluOpcode(op), rd, rn, rm)
    case Push(rs, x, y) => Decoded(PUSH, rs, x, y)
    case Pop(rd, x, y) => Decoded(POP, rd, x, y)
    case Mov(rd, rs) => Decoded(MOV, rd, rs, 0)
    case Set(rd, v) => Decoded(SET, rd, v, 0)
    case Ldr(rd, address) => Decoded(LDR, rd, address, 0)
    case Str(rs, ra) => Decoded(STR, rs, ra, 0)
    case Cbz(rt, _) => Decoded(CBZ, rt, target, 0)
    case Cbnz(rt, _) => Decoded(CBNZ, rt, target, 0)
    case Branch(_) => Decoded(B, target, 0, 0)
    case BranchLink(_) => Decoded(BL, target, 0, 0)
    case Nop => Decoded(NOP, 0, 0, 0)
    case Wfi => Decoded(WFI, 0, 0, 0)
    case Hli(_) => Decoded(HLI, 0, 0, 0)
  }

  predicate ThreeOperands(i: Instr) { i.Alu? || i.Push? || i.Pop? }

  /** The operands fit in the fields of a word. */
  predicate InRange(i: Instr, target: nat) {
    var d := Operands(i, target);
    if ThreeOperands(i) then d.a < 0x100 && d.b < 0x100 && d.c < 0x100
    else if i.Branch? || i.BranchLink? then target < 0x100_0000_0000_0000
    else d.a < 0x100 && d.b < 0x1_0000_0000_0000
  }

  function Encode(i: Instr, target: nat): nat {
    match i
    case Alu(op, rd, rn, rm) => AluOpcode(op) + rd * 0x100 + rn * 0x1_0000 + rm * 0x100_0000
    case Push(rs, x, y) => PUSH + rs * 0x100 + x * 0x1_0000 + y * 0x100_0000
    case Pop(rd, x, y) => POP + rd * 0x100 + x * 0x1_0000 + y * 0x100_0000
    case Mov(rd, rs) => MOV + rd * 0x100 + rs * 0x1_0000
    case Set(rd, v) => SET + rd * 0x100 + v * 0x1_0000
    case Ldr(rd, address) => LDR + rd * 0x100 + address * 0x1_0000
    case Str(rs, ra) => STR + rs * 0x100 + ra * 0x1_0000
    case Cbz(rt, _) => CBZ + rt * 0x100 + target * 0x1_0000
    case Cbnz(rt, _) => CBNZ + rt * 0x100 + target * 0x1_0000
    case Branch(_) => B + target * 0x100
    case BranchLink(_) => BL + target * 0x100
    case Nop => NOP
    case Wfi => WFI
    case Hli(_) => HLI
  }

  /** What the assembler makes of a line: a word, and a high-level instruction beside it. */
  datatype Encoded = Encoded(word: nat, hli: Option<HighLevel>)

  function HliOf(i: Instr): Option<HighLevel> { if i.Hli? then Some(i.run) else None }

  /** `encodeInstruction`: looking up a label that is not there fails. */
  function EncodeInstruction(i: Instr, labels: map<nat, nat>, code: nat): Option<Encoded> {
    if !UsesLabel(i) then Some(Encoded(Encode(i, 0), HliOf(i)))
    else if i.tag in labels then Some(Encoded(Encode(i, labels[i.tag] + code), None))
    else None
  }

  function Decode(ir: nat): Decoded {
    var instr := ir % 0x100;
    if instr in {LDR, STR, MOV, SET, CBZ, CBNZ} then
      Decoded(instr, ir / 0x100 % 0x100, ir / 0x1_0000, 0)
    else if instr in {B, BL, BX} then Decoded(instr, ir / 0x100, 0, 0)
    else if instr in {NOP, WFI} then Decoded(instr, 0, 0, 0)
    else Decoded(instr, ir / 0x100 % 0x100, ir / 0x1_0000 % 0x100, ir / 0x100_0000 % 0x100)
  }

  lemma FieldsOfWord(opcode: nat, a: nat, rest: nat)
    requires opcode < 0x100 && a < 0x100
    ensures var ir := opcode + a * 0x100 + rest * 0x1_0000;
            ir % 0x100 == opcode && ir / 0x100 % 0x100 == a && ir / 0x1_0000 == rest
  {
  }

  lemma DecodeThreeOperands(opcode: nat, a: nat, b: nat, c: nat)
    requires opcode < LDR || opcode in {PUSH, POP, ADR}
    requires a < 0x100 && b < 0x100
    ensures Decode(opcode + a * 0x100 + b * 0x1_0000 + c * 0x100_0000) == Decoded(opcode, a, b, c % 0x100)
  {
    var ir := opcode + a * 0x100 + b * 0x1_0000 + c * 0x100_0000;
    FieldsOfWord(opcode, a, b + 0x100 * c);
    assert ir / 0x1_0000 == b + 0x100 * c;
    assert ir / 0x100_0000 == c;
  }

  lemma LowByte(opcode: nat, rest: nat)
    requires opcode < 0x100
    ensures (opcode + rest * 0x100) % 0x100 == opcode && (opcode + rest * 0x100) / 0x100 == rest
  {
  }

  lemma DecodeAddress(opcode: nat, target: nat)
    requires opcode == B || opcode == BL
    ensures Decode(opcode + target * 0x100) == Decoded(opcode, target, 0, 0)
  {
    LowByte(opcode, target);
  }

  lemma DecodeEncodeThreeOperands(i: Instr, target: nat)
    requires InRange(i, target) && ThreeOperands(i)
    ensures Decode(Encode(i, target)) == Operands(i, target)
  {
    var d := Operands(i, target);
    assert Encode(i, target) == d.opcode + d.a * 0x100 + d.b * 0x1_0000 + d.c * 0x100_0000;
    DecodeThreeOperands(d.opcode, d.a, d.b, d.c);
  }

  lemma DecodeTwoOperands(opcode: nat, a: nat, b: nat)
    requires opcode in {LDR, STR, MOV, SET, CBZ, CBNZ} && a < 0x100
    ensures Decode(opcode + a * 0x100 + b * 0x1_0000) == Decoded(opcode, a, b, 0)
  {
    FieldsOfWord(opcode, a, b);
  }

  /** Decoding gives back what was encoded, and the word fits 64 bits and is not taken for an HLI. */
  lemma DecodeEncode(i: Instr, target: nat)
    requires InRange(i, target) && !i.Hli?
    ensures Decode(Encode(i, target)) == Operands(i, target)
    ensures Encode(i, target) < WORD_SIZE && Encode(i, target) != HLI
  {
    if ThreeOperands(i) {
      DecodeEncodeThreeOperands(i, target);
    } else if i.Branch? || i.BranchLink? {
      DecodeAddress(Operands(i, target).opcode, target);
    } else if !i.Nop? && !i.Wfi? {
      var d := Operands(i, target);
      DecodeTwoOperands(d.opcode, d.a, d.b);
    }
    assert Decode(HLI).opcode == HLI;
  }

  /** Different operands or opcodes have different words. */
  lemma EncodingIsInjective(i: Instr, targetI: nat, j: Instr, targetJ: nat)
    requires InRange(i, targetI) && InRange(j, targetJ) && !i.Hli? && !j.Hli?
    requires Encode(i, targetI) == Encode(j, targetJ)
    ensures Operands(i, targetI) == Operands(j, targetJ)
    ensures !UsesLabel(i) ==> i == j
  {
    DecodeEncode(i, targetI);
    DecodeEncode(j, targetJ);
  }

  /**
   ADR is encoded with a long second field but decoded as three short ones: the target comes back,
   spread over two of them, exactly when it is below 2^16.
   */
  lemma AdrKeepsShortTargetsOnly(rd: nat, target: nat)
    requires rd < 0x100
    ensures var d := Decode(ADR + rd * 0x100 + target * 0x1_0000);
            && d.opcode == ADR && d.a == rd
            && (d.b + 0x100 * d.c == target <==> target < 0x1_0000)
  {
    DecodeThreeOperands(ADR, rd, target % 0x100, target / 0x100);
  }

  /** Labels defined by the lines before `k`, each with its latest line. */
  ghost predicate LabelsBefore(prog: Program, k: nat, labels: map<nat, nat>)
    requires k <= |prog|
  {
    forall tag :: if k == 0 then tag !in labels
                  else (if tag in labels then Some(labels[tag]) else None) == LatestDefinition(prog, k - 1, tag)
  }

  lemma LabelsAdvance(prog: Program, k: nat, labels: map<nat, nat>, next: map<nat, nat>)
    requires k < |prog| && LabelsBefore(prog, k, labels)
    requires next == if prog[k].defines.Some? then labels[prog[k].defines.value := k] else labels
    ensures LabelsBefore(prog, k + 1, next)
  {
  }

  lemma EncodedLine(prog: Program, code: nat, k: nat, labels: map<nat, nat>)
    requires k < |prog| && LabelsBefore(prog, k + 1, labels)
    ensures EncodeInstruction(prog[k].instr, labels, code) ==
              if LabelKnown(prog, k)
              then Some(Encoded(Encode(prog[k].instr, TargetOf(prog, code, k)), HliOf(prog[k].instr))) else None
  {
  }

  /**
   One pass over the program.  It fails exactly when some label is not defined at or before its use,
   and otherwise word `k` is instruction `k` with its label replaced by `code` plus the line of its
   latest definition.
   */
  method EncodeProgram(prog: Program, code: nat) returns (r: Option<seq<Encoded>>)
    ensures r.Some? <==> forall k :: 0 <= k < |prog| ==> LabelKnown(prog, k)
    ensures r.Some? ==> |r.value| == |prog|
    ensures r.Some? ==>
      forall k :: 0 <= k < |prog| ==>
        r.value[k] == Encoded(Encode(prog[k].instr, TargetOf(prog, code, k)), HliOf(prog[k].instr))
  {
    var pc := 0;
    var labels: map<nat, nat> := map[];
    var encoded: seq<Encoded> := [];
    while pc < |prog|
      invariant 0 <= pc <= |prog| && |encoded| == pc
      invariant LabelsBefore(prog, pc, labels)
      invariant forall k :: 0 <= k < pc ==>
        && LabelKnown(prog, k)
        && encoded[k] == Encoded(Encode(prog[k].instr, TargetOf(prog, code, k)), HliOf(prog[k].instr))
    {
      ghost var before := labels;
      if prog[pc].defines.Some? {
        labels := labels[prog[pc].defines.value := pc];
      }
      LabelsAdvance(prog, pc, before, labels);
      EncodedLine(prog, code, pc, labels);
      var word := EncodeInstruction(prog[pc].instr, labels, code);
      if word.None? {
        return None;
      }
      encoded := encoded + [word.value];
      pc := pc + 1;
    }
    return Some(encoded);
  }

  // ---------------------------------------------------------------------------------------------
  // The machine
  // ---------------------------------------------------------------------------------------------

  function Wrap(x: int): Word { x % WORD_SIZE }

  function PowerOfTwo(n: nat): (r: nat)
    ensures 1 <= r
  {
    if n == 0 then 1 else 2 * PowerOfTwo(n - 1)
  }

  /** The lowest `width` bits of AND, ORR or EOR. */
  function Bitwise(op: AluOp, x: nat, y: nat, width: nat): (r: nat)
    ensures r < PowerOfTwo(width)
  {
    if width == 0 then 0
    else
      var p, q := x % 2 == 1, y % 2 == 1;
      var bit := match op case And => p && q case Orr => p || q case _ => p != q;
      2 * Bitwise(op, x / 2, y / 2, width - 1) + if bit then 1 else 0
  }

  /** The `alu` table.  DIV is a floating-point division in Python, which is left out. */
  function Compute(op: AluOp, x: Word, y: Word): Option<Word> {
    match op
    case Add => Some(Wrap(x + y))
    case Sub => Some(Wrap(x - y))
    case Mul => Some(Wrap(x * y))
    case Div => None
    case And => Some(Wrap(Bitwise(And, x, y, WORD_BITS)))
    case Orr => Some(Wrap(Bitwise(Orr, x, y, WORD_BITS)))
    case Eor => Some(Wrap(Bitwise(Eor, x, y, WORD_BITS)))
    case Asr => Some(if y < WORD_BITS then Wrap(x / PowerOfTwo(y)) else 0)
    case Asl => Some(if y < WORD_BITS then Wrap(x * PowerOfTwo(y)) else 0)
  }

  /**
   Effect of a decoded instruction; None for an index out of range and for an opcode without an
   operation.  B and BL fail as well: they look for their target in the second field, which the
   decoder leaves empty.
   */
  function Execute(d: Decoded, s: State): Option<State>
    requires PC < |s.regs|
  {
    if d.opcode == LDR then
      if d.a < |s.regs| && d.b < |s.mem| then Some(s.(regs := s.regs[d.a := s.mem[d.b]])) else None
    else if d.opcode == STR then
      if d.a < |s.regs| && d.b < |s.regs| && s.regs[d.b] < |s.mem|
      then Some(s.(mem := s.mem[s.regs[d.b] := s.regs[d.a]])) else None
    else if d.opcode == PUSH then
      if d.a < |s.regs| && s.regs[SP] < |s.mem|
      then Some(State(Bumped(s.regs, 1), s.mem[s.regs[SP] := s.regs[d.a]])) else None
    else if d.opcode == POP then
      if d.a < |s.regs| && s.regs[SP] < |s.mem|
      then Some(s.(regs := Bumped(s.regs[d.a := s.mem[s.regs[SP]]], -1))) else None
    else if d.opcode == CBNZ then
      if d.a < |s.regs| && d.b < WORD_SIZE
      then Some(if s.regs[d.a] != 0 then s.(regs := s.regs[PC := d.b]) else s) else None
    else if d.opcode == CBZ then
      if d.a < |s.regs| && d.b < WORD_SIZE
      then Some(if s.regs[d.a] == 0 then s.(regs := s.regs[PC := d.b]) else s) else None
    else if d.opcode == BX then
      if d.a < |s.regs| then Some(s.(regs := s.regs[PC := s.regs[d.a]])) else None
    else if d.opcode == MOV then
      if d.a < |s.regs| && d.b < |s.regs| then Some(s.(regs := s.regs[d.a := s.regs[d.b]])) else None
    else if d.opcode == SET then
      if d.a < |s.regs| && d.b < WORD_SIZE then Some(s.(regs := s.regs[d.a := d.b])) else None
    else if d.opcode == NOP || d.opcode == WFI then Some(s)
    else if d.opcode < |ALU| then ExecuteAlu(ALU[d.opcode], d.a, d.b, d.c, s)
    else None
  }

  function ExecuteAlu(op: AluOp, rd: nat, rn: nat, rm: nat, s: State): Option<State> {
    if rd < |s.regs| && rn < |s.regs| && rm < |s.regs| then
      var v := Compute(op, s.regs[rn], s.regs[rm]);
      if v.Some? then Some(s.(regs := s.regs[rd := v.value])) else None
    else None
  }

  /** The stack pointer moved. */
  function Bumped(regs: seq<Word>, step: int): seq<Word>
    requires PC < |regs|
  {
    var sp: int := regs[SP];
    regs[SP := Wrap(sp + step)]
  }

  /** The program counter after a fetch. */
  function Fetched(s: State): State
    requires PC < |s.regs|
  {
    var pc: int := s.regs[PC];
    s.(regs := s.regs[PC := Wrap(pc + 1)])
  }

  predicate Suspended(s: State) { SCR < |s.regs| && s.regs[SCR] != 0 }

  /** The high-level instructions, by their line, of the code that starts at `code`. */
  datatype HighLevelCode = HighLevelCode(code: nat, table: seq<Option<HighLevel>>)

  predicate SameSize(s: State, t: State) { |s.regs| == |t.regs| && |s.mem| == |t.mem| }

  /** The high-level instruction on `s`, as long as it keeps the arrays at their sizes. */
  function ExecuteHighLevel(run: HighLevel, s: State): Option<State> {
    var r := run(s);
    if r.Some? && SameSize(s, r.value) then r else None
  }

  /** A cycle at an HLI word; the table is looked up before the test for suspension. */
  function HighLevelCycle(hl: HighLevelCode, s: State): Option<State>
    requires PC < |s.regs|
  {
    var line: int := s.regs[PC] - hl.code;
    if !(0 <= line < |hl.table|) then None
    else if Suspended(Fetched(s)) then Some(Fetched(s))
    else if hl.table[line].None? then None
    else ExecuteHighLevel(hl.table[line].value, Fetched(s))
  }

  /** One cycle: fetch, and unless suspended decode and execute. */
  function Cycle(hl: HighLevelCode, s: State): Option<State> {
    if PC < |s.regs| && s.regs[PC] < |s.mem| then
      if s.mem[s.regs[PC]] == HLI then HighLevelCycle(hl, s)
      else if Suspended(Fetched(s)) then Some(Fetched(s))
      else Execute(Decode(s.mem[s.regs[PC]]), Fetched(s))
    else None
  }

  /** `n` steps, while none fails. */
  function Iterate<S>(step: S -> Option<S>, s: S, n: nat): Option<S>
    decreases n
  {
    if n == 0 then Some(s)
    else
      var next := step(s);
      if next.None? then None else Iterate(step, next.value, n - 1)
  }

  function Cycler(hl: HighLevelCode): State -> Option<State> { t => Cycle(hl, t) }

  function Run(hl: HighLevelCode, s: State, cycles: nat): Option<State> { Iterate(Cycler(hl), s, cycles) }

  /** If `f` follows `g` wherever `good` holds, so do their runs, and `f` can go on from the end. */
  lemma {:induction false} Simulation<S(!new)>(f: S -> Option<S>, g: S -> Option<S>, good: S -> bool,
                                               s: S, n: nat, more: nat)
    requires good(s) && Iterate(g, s, n).Some?
    requires forall t :: good(t) && g(t).Some? ==> f(t) == g(t) && good(g(t).value)
    ensures Iterate(f, s, n) == Iterate(g, s, n) && good(Iterate(g, s, n).value)
    ensures Iterate(f, s, n + more) == Iterate(f, Iterate(g, s, n).value, more)
    decreases n
  {
    if n == 0 {
    } else {
      Simulation(f, g, good, g(s).value, n - 1, more);
    }
  }

  // ---------------------------------------------------------------------------------------------
  // What a program means
  // ---------------------------------------------------------------------------------------------

  function Meaning(i: Instr, target: nat, s: State): Option<State>
    requires PC < |s.regs|
  {
    var n := |s.regs|;
    match i
    case Alu(op, rd, rn, rm) => ExecuteAlu(op, rd, rn, rm, s)
    case Push(rs, _, _) =>
      if rs < n && s.regs[SP] < |s.mem|
      then Some(State(Bumped(s.regs, 1), s.mem[s.regs[SP] := s.regs[rs]])) else None
    case Pop(rd, _, _) =>
      if rd < n && s.regs[SP] < |s.mem|
      then Some(s.(regs := Bumped(s.regs[rd := s.mem[s.regs[SP]]], -1))) else None
    case Mov(rd, rs) => if rd < n && rs < n then Some(s.(regs := s.regs[rd := s.regs[rs]])) else None
    case Set(rd, v) => if rd < n && v < WORD_SIZE then Some(s.(regs := s.regs[rd := v])) else None
    case Ldr(rd, address) =>
      if rd < n && address < |s.mem| then Some(s.(regs := s.regs[rd := s.mem[address]])) else None
    case Str(rs, ra) =>
      if rs < n && ra < n && s.regs[ra] < |s.mem| then Some(s.(mem := s.mem[s.regs[ra] := s.regs[rs]])) else None
    case Cbz(rt, _) => if rt < n then JumpIf(s.regs[rt] == 0, target, s) else None
    case Cbnz(rt, _) => if rt < n then JumpIf(s.regs[rt] != 0, target, s) else None
    case Branch(_) => None
    case BranchLink(_) => None
    case Nop => Some(s)
    case Wfi => Some(s)
    case Hli(run) => ExecuteHighLevel(run, s)
  }

  function JumpIf(jump: bool, target: nat, s: State): Option<State>
    requires PC < |s.regs|
  {
    if WORD_SIZE <= target then None else if jump then Some(s.(regs := s.regs[PC := target])) else Some(s)
  }

  /** Labels are defined before use and all operands fit. */
  predicate Assembles(prog: Program, code: nat) {
    forall k :: 0 <= k < |prog| ==> LabelKnown(prog, k) && InRange(prog[k].instr, TargetOf(prog, code, k))
  }

  /** The line at the program counter. */
  function LineAt(prog: Program, code: nat, s: State): Option<nat> {
    if PC < |s.regs| && code <= s.regs[PC] < code + |prog| then Some(s.regs[PC] - code) else None
  }

  /** The words of the code are the same in both states. */
  predicate KeepsCode(prog: Program, code: nat, s: State, t: State) {
    |s.mem| == |t.mem| && forall a :: code <= a < code + |prog| && a < |s.mem| ==> t.mem[a] == s.mem[a]
  }

  /** One line of the program; None when the program counter leaves it or the line changes the code. */
  function SymbolicStep(prog: Program, code: nat, s: State): Option<State> {
    var k := LineAt(prog, code, s);
    if k.None? || !LabelKnown(prog, k.value) then None
    else if Suspended(Fetched(s)) then Some(Fetched(s))
    else
      var r := Meaning(prog[k.value].instr, TargetOf(prog, code, k.value), Fetched(s));
      if r.Some? && KeepsCode(prog, code, s, r.value) then r else None
  }

  function Stepper(prog: Program, code: nat): State -> Option<State> { t => SymbolicStep(prog, code, t) }

  function SymbolicRun(prog: Program, code: nat, s: State, steps: nat): Option<State> {
    Iterate(Stepper(prog, code), s, steps)
  }

  /** The words of the program are in memory at `code`, and its high-level instructions in their table. */
  ghost predicate Loaded(prog: Program, hl: HighLevelCode, s: State)
    requires Assembles(prog, hl.code)
  {
    && hl.code + |prog| <= |s.mem|
    && (forall k :: 0 <= k < |prog| ==>
          s.mem[hl.code + k] == Encode(prog[k].instr, TargetOf(prog, hl.code, k)))
    && (forall k :: 0 <= k < |prog| && prog[k].instr.Hli? ==>
          k < |hl.table| && hl.table[k] == Some(prog[k].instr.run))
  }

  lemma AluTableIsInOrder(op: AluOp)
    ensures AluOpcode(op) < |ALU| && ALU[AluOpcode(op)] == op && AluOpcode(op) < LDR
  {
  }

  lemma ExecuteOfAlu(d: Decoded, op: AluOp, s: State)
    requires PC < |s.regs| && d.opcode < |ALU| && ALU[d.opcode] == op && d.opcode < LDR
    ensures Execute(d, s) == ExecuteAlu(op, d.a, d.b, d.c, s)
  {
  }

  lemma ExecuteMeansOfAlu(i: Instr, target: nat, s: State)
    requires PC < |s.regs| && i.Alu?
    ensures Execute(Operands(i, target), s) == Meaning(i, target, s)
  {
    AluTableIsInOrder(i.op);
    ExecuteOfAlu(Operands(i, target), i.op, s);
  }

  lemma ExecuteMeansOfMemory(i: Instr, target: nat, s: State)
    requires PC < |s.regs| && (i.Ldr? || i.Str? || i.Push? || i.Pop?)
    ensures Execute(Operands(i, target), s) == Meaning(i, target, s)
  {
  }

  lemma ExecuteMeansOfJump(i: Instr, target: nat, s: State)
    requires PC < |s.regs| && UsesLabel(i)
    ensures Execute(Operands(i, target), s) == Meaning(i, target, s)
  {
  }

  /** What the executor does with the fields of an instruction is what the instruction means. */
  lemma ExecuteMeans(i: Instr, target: nat, s: State)
    requires PC < |s.regs| && !i.Hli?
    ensures Execute(Operands(i, target), s) == Meaning(i, target, s)
  {
    if i.Alu? {
      ExecuteMeansOfAlu(i, target, s);
    } else if i.Ldr? || i.Str? || i.Push? || i.Pop? {
      ExecuteMeansOfMemory(i, target, s);
    } else if UsesLabel(i) {
      ExecuteMeansOfJump(i, target, s);
    }
  }

  lemma CycleOfWord(i: Instr, target: nat, hl: HighLevelCode, s: State)
    requires PC < |s.regs| && s.regs[PC] < |s.mem| && s.mem[s.regs[PC]] == Encode(i, target)
    requires InRange(i, target) && !i.Hli?
    ensures Cycle(hl, s) == if Suspended(Fetched(s)) then Some(Fetched(s)) else Meaning(i, target, Fetched(s))
  {
    DecodeEncode(i, target);
    assert Decode(s.mem[s.regs[PC]]) == Operands(i, target);
    ExecuteMeans(i, target, Fetched(s));
  }

  lemma CycleOfHli(run: HighLevel, hl: HighLevelCode, s: State)
    requires PC < |s.regs| && s.regs[PC] < |s.mem| && s.mem[s.regs[PC]] == HLI
    requires hl.code <= s.regs[PC] < hl.code + |hl.table| && hl.table[s.regs[PC] - hl.code] == Some(run)
    ensures Cycle(hl, s) == if Suspended(Fetched(s)) then Some(Fetched(s)) else ExecuteHighLevel(run, Fetched(s))
  {
  }

  /** `encoded` is what the assembler makes of `prog`. */
  ghost predicate AssembledAs(prog: Program, code: nat, encoded: seq<Encoded>)
    requires Assembles(prog, code)
  {
    && |encoded| == |prog|
    && forall k :: 0 <= k < |prog| ==>
         encoded[k] == Encoded(Encode(prog[k].instr, TargetOf(prog, code, k)), HliOf(prog[k].instr))
  }

  lemma WordsFit(prog: Program, code: nat, encoded: seq<Encoded>)
    requires Assembles(prog, code) && AssembledAs(prog, code, encoded)
    ensures forall k :: 0 <= k < |prog| ==> encoded[k].word < WORD_SIZE
  {
    forall k | 0 <= k < |prog|
      ensures encoded[k].word < WORD_SIZE
    {
      if !prog[k].instr.Hli? {
        DecodeEncode(prog[k].instr, TargetOf(prog, code, k));
      }
    }
  }

  lemma LoadedFrom(prog: Program, encoded: seq<Encoded>, hl: HighLevelCode, s: State)
    requires Assembles(prog, hl.code) && AssembledAs(prog, hl.code, encoded) && hl.code + |prog| <= |s.mem|
    requires forall k :: 0 <= k < |encoded| ==> s.mem[hl.code + k] == encoded[k].word
    requires forall k :: 0 <= k < |encoded| && encoded[k].hli.Some? ==>
      k < |hl.table| && hl.table[k] == encoded[k].hli
    ensures Loaded(prog, hl, s)
  {
  }

  lemma StaysLoaded(prog: Program, hl: HighLevelCode, s: State, t: State)
    requires Assembles(prog, hl.code) && Loaded(prog, hl, s) && KeepsCode(prog, hl.code, s, t)
    ensures Loaded(prog, hl, t)
  {
  }

  lemma CycleOfLine(prog: Program, hl: HighLevelCode, s: State, k: nat)
    requires Assembles(prog, hl.code) && Loaded(prog, hl, s)
    requires PC < |s.regs| && k < |prog| && s.regs[PC] == hl.code + k
    ensures Cycle(hl, s) == if Suspended(Fetched(s)) then Some(Fetched(s))
                            else Meaning(prog[k].instr, TargetOf(prog, hl.code, k), Fetched(s))
  {
    var i, target := prog[k].instr, TargetOf(prog, hl.code, k);
    assert s.mem[hl.code + k] == Encode(i, target);
    if i.Hli? {
      CycleOfHli(i.run, hl, s);
    } else {
      CycleOfWord(i, target, hl, s);
    }
  }

  /** One cycle does what one line means, and the code stays in place. */
  lemma CycleFollowsProgram(prog: Program, hl: HighLevelCode, s: State)
    requires Assembles(prog, hl.code) && Loaded(prog, hl, s) && SymbolicStep(prog, hl.code, s).Some?
    ensures Cycle(hl, s) == SymbolicStep(prog, hl.code, s)
    ensures Loaded(prog, hl, Cycle(hl, s).value)
  {
    CycleOfLine(prog, hl, s, LineAt(prog, hl.code, s).value);
    StaysLoaded(prog, hl, s, SymbolicStep(prog, hl.code, s).value);
  }

  /**
   The encoded words, fetched, decoded and executed, do what the symbolic program means, for any
   number of cycles in which the program counter stays in the program and no line changes it, and
   after `more` cycles the machine is where `more` cycles take it from the end of the symbolic run.
   */
  lemma MachineRunsProgram(prog: Program, hl: HighLevelCode, s: State, cycles: nat, more: nat)
    requires Assembles(prog, hl.code) && Loaded(prog, hl, s) && SymbolicRun(prog, hl.code, s, cycles).Some?
    ensures Run(hl, s, cycles) == SymbolicRun(prog, hl.code, s, cycles)
    ensures Run(hl, s, cycles + more) == Run(hl, SymbolicRun(prog, hl.code, s, cycles).value, more)
    ensures Loaded(prog, hl, SymbolicRun(prog, hl.code, s, cycles).value)
  {
    forall t | Loaded(prog, hl, t) && SymbolicStep(prog, hl.code, t).Some?
      ensures Cycle(hl, t) == SymbolicStep(prog, hl.code, t) && Loaded(prog, hl, Cycle(hl, t).value)
    {
      CycleFollowsProgram(prog, hl, t);
    }
    var good := t => Assembles(prog, hl.code) && Loaded(prog, hl, t);
    Simulation(Cycler(hl), Stepper(prog, hl.code), good, s, cycles, more);
  }

  /**
   POP reads before it decrements, so a PUSH followed by a POP gives the register back exactly when
   the word above the one pushed equals it.
   */
  lemma PopUndoesPushExactly(s: State, r: nat, t: State)
    requires r < |s.regs| && PC < |s.regs| && r != SP && s.regs[SP] + 1 < |s.mem| && s.regs[SP] + 1 < WORD_SIZE
    requires Meaning(Push(r, 0, 0), 0, s) == Some(t)
    ensures Meaning(Pop(r, 0, 0), 0, t).Some?
    ensures var u := Meaning(Pop(r, 0, 0), 0, t).value;
            u.regs == s.regs <==> s.mem[s.regs[SP] + 1] == s.regs[r]
  {
    var u := Meaning(Pop(r, 0, 0), 0, t).value;
    assert u.regs[SP] == s.regs[SP] && u.regs[r] == s.mem[s.regs[SP] + 1];
  }

  // ---------------------------------------------------------------------------------------------
  // Laws of the instructions
  // ---------------------------------------------------------------------------------------------

  lemma WrapOfSum(x: int, y: int)
    ensures var wrapped: int := Wrap(x); Wrap(wrapped + y) == Wrap(x + y)
  {
  }

  /** A product is repeated addition, modulo 2^64. */
  lemma ProductIsRepeatedAddition(x: Word, y: Word)
    requires y < 0xFFFF_FFFF_FFFF_FFFF
    ensures Compute(Mul, x, 0) == Some(0)
    ensures Compute(Mul, x, y).Some? && Compute(Mul, x, y + 1).Some?
    ensures var before: int, x: int := Compute(Mul, x, y).value, x;
            Compute(Mul, x, y + 1).value == (before + x) % 0x1_0000_0000_0000_0000
  {
    var a: int, b: int := x, y;
    var p := a * b;
    assert a * (b + 1) == p + a;
    WrapOfSum(p, a);
  }

  /** A sum modulo 2^64, which a difference takes back. */
  lemma SumAndDifference(x: Word, y: Word)
    ensures var sum: int := x as int + y as int;
            Compute(Add, x, y) == Some(if sum < 0x1_0000_0000_0000_0000 then sum else sum - 0x1_0000_0000_0000_0000)
    ensures Compute(Sub, Compute(Add, x, y).value, y) == Some(x)
  {
  }

  /** Bit `k` of a number, by halving. */
  predicate Bit(x: nat, k: nat) { if k == 0 then x % 2 == 1 else Bit(x / 2, k - 1) }

  lemma {:induction false} BitwiseBits(op: AluOp, x: nat, y: nat, width: nat, k: nat)
    requires k < width
    ensures var r := Bitwise(op, x, y, width);
            && (op == And ==> (Bit(r, k) <==> Bit(x, k) && Bit(y, k)))
            && (op == Orr ==> (Bit(r, k) <==> Bit(x, k) || Bit(y, k)))
            && (op == Eor ==> (Bit(r, k) <==> Bit(x, k) != Bit(y, k)))
  {
    if k == 0 {
    } else {
      BitwiseBits(op, x / 2, y / 2, width - 1, k - 1);
      assert Bitwise(op, x, y, width) / 2 == Bitwise(op, x / 2, y / 2, width - 1);
    }
  }

  lemma FourDoublings(k: nat)
    ensures PowerOfTwo(k + 4) == 16 * PowerOfTwo(k)
  {
    assert PowerOfTwo(k + 2) == 4 * PowerOfTwo(k);
  }

  lemma SixteenDoublings(k: nat)
    ensures PowerOfTwo(k + 16) == 0x1_0000 * PowerOfTwo(k)
  {
    FourDoublings(k);
    FourDoublings(k + 4);
    FourDoublings(k + 8);
    FourDoublings(k + 12);
  }

  lemma WordsHave64Bits()
    ensures PowerOfTwo(WORD_BITS) == WORD_SIZE
  {
    var k := 0;
    SixteenDoublings(k);
    SixteenDoublings(k + 16);
    SixteenDoublings(k + 32);
    SixteenDoublings(k + 48);
  }

  lemma LogicFits(op: AluOp, x: Word, y: Word)
    requires op == And || op == Orr || op == Eor
    ensures Compute(op, x, y) == Some(Bitwise(op, x, y, WORD_BITS))
  {
    WordsHave64Bits();
  }

  /** AND, ORR and EOR work bit by bit on all 64 bits. */
  lemma LogicWorksBitByBit(op: AluOp, x: Word, y: Word, k: nat)
    requires (op == And || op == Orr || op == Eor) && k < 64
    ensures Compute(op, x, y).Some?
    ensures var r: nat := Compute(op, x, y).value;
            && (op == And ==> (Bit(r, k) <==> Bit(x, k) && Bit(y, k)))
            && (op == Orr ==> (Bit(r, k) <==> Bit(x, k) || Bit(y, k)))
            && (op == Eor ==> (Bit(r, k) <==> Bit(x, k) != Bit(y, k)))
  {
    LogicFits(op, x, y);
    BitwiseBits(op, x, y, WORD_BITS, k);
  }

  lemma WrapOfDouble(z: int)
    ensures var wrapped: int := Wrap(z); Wrap(2 * wrapped) == Wrap(2 * z)
  {
  }

  lemma DoublingWraps(n: int, factor: int)
    ensures var wrapped: int := Wrap(n * factor); Wrap(2 * wrapped) == Wrap(n * (2 * factor))
  {
    WrapOfDouble(n * factor);
    assert n * (2 * factor) == 2 * (n * factor);
  }

  lemma MultipleWraps(n: int)
    ensures Wrap(n * WORD_SIZE) == 0
  {
  }

  /** Shifting left by `y`, also by 64, as long as that is written as a product. */
  lemma LeftShiftIsProduct(x: Word, y: Word)
    requires y <= WORD_BITS
    ensures var factor: int, n: int := PowerOfTwo(y), x; Compute(Asl, x, y) == Some(Wrap(n * factor))
  {
    if y == WORD_BITS {
      WordsHave64Bits();
      MultipleWraps(x);
    }
  }

  /** ASL doubles, modulo 2^64, as often as its second operand says. */
  lemma LeftShiftDoubles(x: Word, y: Word)
    requires y < 0xFFFF_FFFF_FFFF_FFFF
    ensures Compute(Asl, x, 0) == Some(x)
    ensures Compute(Asl, x, y).Some? && Compute(Asl, x, y + 1).Some?
    ensures var before: int := Compute(Asl, x, y).value;
            Compute(Asl, x, y + 1).value == (2 * before) % 0x1_0000_0000_0000_0000
  {
    LeftShiftIsProduct(x, 0);
    if y < WORD_BITS {
      LeftShiftIsProduct(x, y);
      LeftShiftIsProduct(x, y + 1);
      DoublingWraps(x, PowerOfTwo(y));
    }
  }

  lemma WrapOfQuotient(n: nat, p: nat)
    requires 1 <= p && n < WORD_SIZE
    ensures Wrap(n / p) == n / p
    ensures n / WORD_SIZE == 0
  {
    QuotientIsNoLarger(n, p);
  }

  /** Shifting right by `y` is dividing by 2^y, rounding down. */
  lemma RightShiftIsQuotient(x: Word, y: Word)
    requires y <= 64
    ensures Compute(Asr, x, y).Some?
    ensures var n: int := x; Compute(Asr, x, y).value == n / PowerOfTwo(y)
  {
    WrapOfQuotient(x, PowerOfTwo(y));
    if y == WORD_BITS {
      WordsHave64Bits();
    }
  }

  /** ASR halves, rounding down, as often as its second operand says. */
  lemma RightShiftHalves(x: Word, y: Word)
    requires y < 0xFFFF_FFFF_FFFF_FFFF
    ensures Compute(Asr, x, 0) == Some(x)
    ensures Compute(Asr, x, y).Some? && Compute(Asr, x, y + 1).Some?
    ensures var before: int := Compute(Asr, x, y).value;
            Compute(Asr, x, y + 1).value == before / 2
  {
    RightShiftIsQuotient(x, 0);
    if y < WORD_BITS {
      RightShiftIsQuotient(x, y);
      RightShiftIsQuotient(x, y + 1);
      HalvingTheQuotient(x, PowerOfTwo(y));
    }
  }

  /** Only register `r` may differ. */
  predicate OnlyRegister(s: State, t: State, r: nat) {
    && t.mem == s.mem && |t.regs| == |s.regs|
    && forall k :: 0 <= k < |s.regs| && k != r ==> t.regs[k] == s.regs[k]
  }

  /**
   A load after a store to its address gives the stored register; the store changes one word and the
   load one register.
   */
  lemma LoadReadsWhatStoreWrote(s: State, rs: nat, ra: nat, rd: nat)
    requires PC < |s.regs| && rs < |s.regs| && ra < |s.regs| && rd < |s.regs| && s.regs[ra] < |s.mem|
    ensures var t := Meaning(Str(rs, ra), 0, s);
            && t.Some? && t.value.regs == s.regs && |t.value.mem| == |s.mem|
            && (forall a :: 0 <= a < |s.mem| && a != s.regs[ra] ==> t.value.mem[a] == s.mem[a])
            && var u := Meaning(Ldr(rd, s.regs[ra]), 0, t.value);
               u.Some? && u.value.regs[rd] == s.regs[rs] && OnlyRegister(t.value, u.value, rd)
  {
  }

  /** Of CBZ and CBNZ on the same register, CBZ jumps when it is zero and CBNZ when it is not. */
  lemma ConditionalBranchesAreOpposite(s: State, rt: nat, tag: nat, target: nat)
    requires 15 < |s.regs| && rt < |s.regs| && target < 0x1_0000_0000_0000_0000
    ensures var z, nz := Meaning(Cbz(rt, tag), target, s), Meaning(Cbnz(rt, tag), target, s);
            && z.Some? && nz.Some?
            && var (jumped, stayed) := if s.regs[rt] == 0 then (z.value, nz.value) else (nz.value, z.value);
               stayed == s && jumped.regs[15] == target && OnlyRegister(s, jumped, 15)
  {
  }

  /** A push stores its register at the stack pointer and moves that up; nothing else changes. */
  lemma PushStoresAtStackPointer(s: State, rs: nat)
    requires 15 < |s.regs| && rs < |s.regs| && s.regs[13] < |s.mem| && s.regs[13] < 0xFFFF_FFFF_FFFF_FFFF
    ensures var t := Meaning(Push(rs, 0, 0), 0, s);
            && t.Some? && |t.value.mem| == |s.mem| && t.value.mem[s.regs[13]] == s.regs[rs]
            && (forall a :: 0 <= a < |s.mem| && a != s.regs[13] ==> t.value.mem[a] == s.mem[a])
            && |t.value.regs| == |s.regs| && t.value.regs[13] == s.regs[13] + 1
            && (forall r :: 0 <= r < |s.regs| && r != 13 ==> t.value.regs[r] == s.regs[r])
  {
  }

  /** B, BL and the opcodes without an operation fail, whatever their operands. */
  lemma UnknownOpcodesFail(d: Decoded, s: State)
    requires 15 < |s.regs| && (d.opcode in {18, 27, 28} || 30 < d.opcode || 9 <= d.opcode < 16)
    ensures Execute(d, s).None?
  {
  }

  /** While register 23 is not zero a cycle moves PC and does nothing else, and then goes on suspended. */
  lemma SuspendedCycleMovesOnlyPc(hl: HighLevelCode, s: State, t: State)
    requires 23 < |s.regs| && s.regs[23] != 0 && s.regs[15] < |s.mem| && s.regs[15] < 0xFFFF_FFFF_FFFF_FFFF
    requires s.mem[s.regs[15]] != 0x1E || hl.code <= s.regs[15] < hl.code + |hl.table|
    requires t == State(s.regs[15 := s.regs[15] + 1], s.mem)
    ensures Cycle(hl, s) == Some(t)
  {
  }

  /** The words of one instruction of each kind with three operands. */
  lemma WordsOfThreeOperands()
    ensures Encode(Alu(Add, 3, 1, 2), 0) == 0x0201_0300 && Encode(Alu(Sub, 4, 4, 5), 0) == 0x0504_0401
    ensures Encode(Alu(Mul, 3, 1, 2), 0) == 0x0201_0302 && Encode(Alu(Div, 3, 1, 2), 0) == 0x0201_0303
    ensures Encode(Alu(And, 3, 1, 2), 0) == 0x0201_0304 && Encode(Alu(Orr, 3, 1, 2), 0) == 0x0201_0305
    ensures Encode(Alu(Eor, 3, 1, 2), 0) == 0x0201_0306 && Encode(Alu(Asr, 3, 1, 2), 0) == 0x0201_0307
    ensures Encode(Alu(Asl, 3, 1, 2), 0) == 0x0201_0308
    ensures Encode(Push(1, 2, 3), 0) == 0x0302_0114 && Encode(Pop(1, 2, 3), 0) == 0x0302_0115
  {
  }

  /** The words of one instruction of each other kind; the target is line 5 of code at 0xC00000. */
  lemma WordsOfOtherInstructions(run: HighLevel)
    ensures Encode(Ldr(1, 0x1234), 0) == 0x1234_0110 && Encode(Str(3, 4), 0) == 0x0004_0311
    ensures Encode(Mov(1, 2), 0) == 0x0002_0116 && Encode(Set(4, 84), 0) == 0x0054_0417
    ensures Encode(BranchLink(1), 0xC0_0005) == 0xC000_0512 && Encode(Branch(1), 0xC0_0005) == 0xC000_051B
    ensures Encode(Cbz(4, 1), 0xC0_0005) == 0xC0_0005_0419 && Encode(Cbnz(4, 1), 0xC0_0005) == 0xC0_0005_041A
    ensures Encode(Nop, 0) == 0x18 && Encode(Wfi, 0) == 0x1D && Encode(Hli(run), 0) == 0x1E
  {
  }

  // ---------------------------------------------------------------------------------------------
  // Interrupts
  // ---------------------------------------------------------------------------------------------

  /** The first raised line, or their number when none is raised. */
  function FirstRaised(irqs: seq<bool>): (k: nat)
    ensures k <= |irqs| && (k < |irqs| ==> irqs[k])
    ensures forall j :: 0 <= j < k ==> !irqs[j]
  {
    if irqs == [] || irqs[0] then 0 else 1 + FirstRaised(irqs[1..])
  }

  /** The first raised line is served: its flag is cleared and its handler is next; None without a vector. */
  function Interrupted(s: State, irqs: seq<bool>): Option<(State, seq<bool>)> {
    var k := FirstRaised(irqs);
    if k == |irqs| then Some((s, irqs))
    else if SCR < |s.regs| && k < IVT_SIZE && k < |s.mem| then
      Some((s.(regs := s.regs[SCR := 0][LR := s.regs[PC]][PC := s.mem[k]]), irqs[k := false]))
    else None
  }

  /** A handler that ends in BX LR goes on where the program was interrupted, and no longer suspended. */
  lemma ReturnFromInterrupt(s: State, irqs: seq<bool>, ir: Word)
    requires Interrupted(s, irqs).Some? && true in irqs && ir == BX + LR * 0x100
    ensures var t := Interrupted(s, irqs).value.0;
            && Execute(Decode(ir), t) == Some(s.(regs := s.regs[SCR := 0][LR := s.regs[PC]]))
            && !Suspended(t)
    ensures multiset(Interrupted(s, irqs).value.1)[true] == multiset(irqs)[true] - 1
  {
    assert Decode(ir) == Decoded(BX, LR, 0, 0);
    var t := Interrupted(s, irqs).value.0;
    assert t.regs[PC := t.regs[LR]] == s.regs[SCR := 0][LR := s.regs[PC]];
  }

  /**
   The first raised line is served: its handler starts at the address in its vector, the link register
   holds the interrupted address, the processor is not suspended, and nothing else changes but the flag.
   */
  lemma FirstRaisedLineIsServed(s: State, irqs: seq<bool>, k: nat)
    requires k < |irqs| && irqs[k] && forall j :: 0 <= j < k ==> !irqs[j]
    requires k < 16 && k < |s.mem| && 23 < |s.regs|
    ensures Interrupted(s, irqs).Some?
    ensures var (t, left) := Interrupted(s, irqs).value;
            && t.mem == s.mem && |t.regs| == |s.regs|
            && t.regs[15] == s.mem[k] && t.regs[14] == s.regs[15] && t.regs[23] == 0
            && (forall r :: 0 <= r < |s.regs| && r != 14 && r != 15 && r != 23 ==> t.regs[r] == s.regs[r])
            && |left| == |irqs| && !left[k]
            && forall j :: 0 <= j < |irqs| && j != k ==> left[j] == irqs[j]
  {
  }

  /** Without a raised line nothing happens. */
  lemma NothingRaised(s: State, irqs: seq<bool>)
    requires forall j :: 0 <= j < |irqs| ==> !irqs[j]
    ensures Interrupted(s, irqs) == Some((s, irqs))
  {
  }

  /** Interrupts, when there are peripherals, and then a cycle. */
  function Action(peripherals: bool, hl: HighLevelCode, s: State, irqs: seq<bool>): Option<(State, seq<bool>)> {
    var served := if peripherals then Interrupted(s, irqs) else Some((s, irqs));
    if served.None? then None
    else
      var next := Cycle(hl, served.value.0);
      if next.None? then None else Some((next.value, served.value.1))
  }

  /** An interrupt is served before the cycle, which so starts the handler; without peripherals flags are ignored. */
  lemma InterruptComesBeforeCycle(hl: HighLevelCode, s: State, irqs: seq<bool>, k: nat)
    requires k < |irqs| && irqs[k] && forall j :: 0 <= j < k ==> !irqs[j]
    requires k < 16 && k < |s.mem| && 23 < |s.regs| && s.mem[k] < |s.mem| && s.mem[k] < 0xFFFF_FFFF_FFFF_FFFF
    requires s.mem[s.mem[k]] == 0x18
    ensures var r := Action(true, hl, s, irqs);
            && r.Some? && r.value.0.regs[14] == s.regs[15] && r.value.0.regs[15] == s.mem[k] + 1
            && r.value.0.regs[23] == 0 && r.value.0.mem == s.mem && r.value.1 == irqs[k := false]
    ensures Action(false, hl, s, irqs).Some? <==> Cycle(hl, s).Some?
    ensures Cycle(hl, s).Some? ==> Action(false, hl, s, irqs) == Some((Cycle(hl, s).value, irqs))
  {
    FirstRaisedLineIsServed(s, irqs, k);
    var t := Interrupted(s, irqs).value.0;
    assert Decode(0x18) == Decoded(NOP, 0, 0, 0);
    assert Cycle(hl, t) == Some(Fetched(t));
  }

  // ---------------------------------------------------------------------------------------------
  // The processor in place
  // ---------------------------------------------------------------------------------------------

  class Processor {
    const code: nat
    const registers: array<Word>
    const systemState: array<Word>
    var hlCode: seq<Option<HighLevel>>

    ghost predicate Valid() {
      registers != systemState && PC < registers.Length
    }

    function Abs(): State
      reads registers, systemState
    {
      State(registers[..], systemState[..])
    }

    function Table(): HighLevelCode
      reads this
    {
      HighLevelCode(code, hlCode)
    }

    constructor (code: nat, registers: array<Word>, systemState: array<Word>, hlCodeSize: nat)
      requires registers != systemState && PC < registers.Length
      ensures Valid() && this.code == code && this.registers == registers && this.systemState == systemState
      ensures hlCode == seq(hlCodeSize, _ => None)
    {
      this.code, this.registers, this.systemState := code, registers, systemState;
      hlCode := seq(hlCodeSize, _ => None);
    }

    /** Write the encoded words one by one, and the high-level instructions to their table. */
    method LoadCode(encoded: seq<Encoded>)
      requires Valid() && code + |encoded| <= systemState.Length
      requires forall k :: 0 <= k < |encoded| ==>
        encoded[k].word < WORD_SIZE && (encoded[k].hli.Some? ==> k < |hlCode|)
      modifies this`hlCode, systemState
      ensures forall a :: 0 <= a < systemState.Length ==>
        systemState[a] == if code <= a < code + |encoded| then encoded[a - code].word else old(systemState[a])
      ensures |hlCode| == |old(hlCode)| && forall k :: 0 <= k < |hlCode| ==>
        hlCode[k] == if k < |encoded| && encoded[k].hli.Some? then encoded[k].hli else old(hlCode)[k]
    {
      for pc := 0 to |encoded|
        invariant forall a :: 0 <= a < systemState.Length ==>
          systemState[a] == if code <= a < code + pc then encoded[a - code].word else old(systemState[a])
        invariant |hlCode| == |old(hlCode)| && forall k :: 0 <= k < |hlCode| ==>
          hlCode[k] == if k < pc && encoded[k].hli.Some? then encoded[k].hli else old(hlCode)[k]
      {
        if encoded[pc].hli.Some? {
          hlCode := hlCode[pc := encoded[pc].hli];
        }
        systemState[code + pc] := encoded[pc].word;
      }
    }

    /** Assemble a program and load it. */
    method AssembleAndLoad(prog: Program)
      requires Valid() && Assembles(prog, code) && code + |prog| <= systemState.Length
      requires forall k :: 0 <= k < |prog| && prog[k].instr.Hli? ==> k < |hlCode|
      modifies this`hlCode, systemState
      ensures Loaded(prog, Table(), Abs())
      ensures forall a :: 0 <= a < systemState.Length && !(code <= a < code + |prog|) ==>
        systemState[a] == old(systemState[a])
    {
      var encoded := EncodeProgram(prog, code);
      WordsFit(prog, code, encoded.value);
      LoadCode(encoded.value);
      LoadedFrom(prog, encoded.value, Table(), Abs());
    }

    /** Load a program, and make its first line the next. */
    method Start(prog: Program)
      requires Valid() && Assembles(prog, code) && code + |prog| <= systemState.Length && code < WORD_SIZE
      requires forall k :: 0 <= k < |prog| && prog[k].instr.Hli? ==> k < |hlCode|
      modifies this`hlCode, registers, systemState
      ensures Loaded(prog, Table(), Abs()) && registers[..] == old(registers[..])[PC := code]
      ensures forall a :: 0 <= a < systemState.Length && !(code <= a < code + |prog|) ==>
        systemState[a] == old(systemState[a])
    {
      AssembleAndLoad(prog);
      registers[PC] := code;
    }

    /** Serve the first raised interrupt line. */
    method CheckIrqs(irqs: array<bool>) returns (ok: bool)
      requires Valid()
      modifies registers, irqs
      ensures ok <==> Interrupted(old(Abs()), old(irqs[..])).Some?
      ensures ok ==> (Abs(), irqs[..]) == Interrupted(old(Abs()), old(irqs[..])).value
    {
      var idx := 0;
      while idx < irqs.Length && !irqs[idx]
        invariant 0 <= idx <= irqs.Length
        invariant forall j :: 0 <= j < idx ==> !irqs[j]
      {
        idx := idx + 1;
      }
      assert FirstRaised(irqs[..]) == idx by {
        assert irqs[..][FirstRaised(irqs[..])..] == [] || irqs[..][FirstRaised(irqs[..])];
      }
      if idx == irqs.Length {
        return true;
      }
      if registers.Length <= SCR || IVT_SIZE <= idx || systemState.Length <= idx {
        return false;
      }
      registers[SCR] := 0;
      registers[LR] := registers[PC];
      registers[PC] := systemState[idx];
      irqs[idx] := false;
      ok := true;
    }

    method FetchInstruction() returns (ir: Word)
      requires Valid() && registers[PC] < systemState.Length
      modifies registers
      ensures ir == old(systemState[registers[PC]]) && Abs() == Fetched(old(Abs()))
    {
      var pcr: int := registers[PC];
      ir := systemState[pcr];
      registers[PC] := Wrap(pcr + 1);
    }

    /** Execute in place; `ok` is false where the program would fail. */
    method ExecuteInstruction(d: Decoded) returns (ok: bool)
      requires Valid()
      modifies registers, systemState
      ensures ok <==> Execute(d, old(Abs())).Some?
      ensures Abs() == if ok then Execute(d, old(Abs())).value else old(Abs())
    {
      var n := registers.Length;
      ok := true;
      if d.opcode == LDR && d.a < n && d.b < systemState.Length {
        registers[d.a] := systemState[d.b];
      } else if d.opcode == STR && d.a < n && d.b < n && registers[d.b] < systemState.Length {
        var addr := registers[d.b];
        systemState[addr] := registers[d.a];
      } else if d.opcode == PUSH && d.a < n && registers[SP] < systemState.Length {
        var sptr: int := registers[SP];
        systemState[sptr] := registers[d.a];
        registers[SP] := Wrap(sptr + 1);
      } else if d.opcode == POP && d.a < n && registers[SP] < systemState.Length {
        registers[d.a] := systemState[registers[SP]];
        var sptr: int := registers[SP];
        registers[SP] := Wrap(sptr - 1);
      } else if d.opcode == CBNZ && d.a < n && d.b < WORD_SIZE {
        if registers[d.a] != 0 {
          registers[PC] := d.b;
        }
      } else if d.opcode == CBZ && d.a < n && d.b < WORD_SIZE {
        if registers[d.a] == 0 {
          registers[PC] := d.b;
        }
      } else if d.opcode == BX && d.a < n {
        registers[PC] := registers[d.a];
      } else if d.opcode == MOV && d.a < n && d.b < n {
        registers[d.a] := registers[d.b];
      } else if d.opcode == SET && d.a < n && d.b < WORD_SIZE {
        registers[d.a] := d.b;
      } else if d.opcode == NOP || d.opcode == WFI {
      } else if d.opcode < |ALU| && d.a < n && d.b < n && d.c < n {
        var v := Compute(ALU[d.opcode], registers[d.b], registers[d.c]);
        if v.None? {
          return false;
        }
        registers[d.a] := v.value;
      } else {
        ok := false;
      }
    }

    /** Hand the state to a high-level instruction, which may change all of it. */
    method RunHighLevel(run: HighLevel) returns (ok: bool)
      requires Valid()
      modifies registers, systemState
      ensures ok <==> ExecuteHighLevel(run, old(Abs())).Some?
      ensures Abs() == if ok then ExecuteHighLevel(run, old(Abs())).value else old(Abs())
    {
      var r := run(Abs());
      if r.None? || |r.value.regs| != registers.Length || |r.value.mem| != systemState.Length {
        return false;
      }
      forall i | 0 <= i < registers.Length {
        registers[i] := r.value.regs[i];
      }
      forall a | 0 <= a < systemState.Length {
        systemState[a] := r.value.mem[a];
      }
      assert registers[..] == r.value.regs && systemState[..] == r.value.mem;
      ok := true;
    }

    /** One cycle: fetch, look up a high-level instruction, and unless suspended decode and execute. */
    method FetchAndExecute() returns (ok: bool)
      requires Valid()
      modifies registers, systemState
      ensures ok <==> Cycle(Table(), old(Abs())).Some?
      ensures ok ==> Abs() == Cycle(Table(), old(Abs())).value
    {
      if systemState.Length <= registers[PC] {
        return false;
      }
      var line: int := registers[PC] - code;
      var ir := FetchInstruction();
      if ir == HLI && !(0 <= line < |hlCode|) {
        return false;
      }
      if SCR < registers.Length && registers[SCR] != 0 {
        return true;
      }
      if ir != HLI {
        ok := ExecuteInstruction(Decode(ir));
      } else if hlCode[line].Some? {
        ok := RunHighLevel(hlCode[line].value);
      } else {
        ok := false;
      }
    }

    /** Serve an interrupt, when there are peripherals, and do one cycle. */
    method ProcessorAction(peripherals: bool, irqs: array<bool>) returns (ok: bool)
      requires Valid()
      modifies registers, systemState, irqs
      ensures ok <==> Action(peripherals, Table(), old(Abs()), old(irqs[..])).Some?
      ensures ok ==> (Abs(), irqs[..]) == Action(peripherals, Table(), old(Abs()), old(irqs[..])).value
    {
      if peripherals {
        ok := CheckIrqs(irqs);
        if !ok {
          return;
        }
      }
      ok := FetchAndExecute();
    }

    /** Cycles without peripherals. */
    method RunCycles(cycles: nat) returns (ok: bool)
      requires Valid()
      modifies registers, systemState
      ensures ok <==> Run(Table(), old(Abs()), cycles).Some?
      ensures ok ==> Abs() == Run(Table(), old(Abs()), cycles).value
    {
      ghost var s := Abs();
      var irqs := new bool[0];
      for k := 0 to cycles
        invariant Run(Table(), s, cycles) == Run(Table(), Abs(), cycles - k)
      {
        ok := ProcessorAction(false, irqs);
        if !ok {
          return;
        }
      }
      ok := true;
    }
  }
}
