/**
 The task compiler of Code/Ch3-Hardware-Architecture/transform_to_one_sub_per_line.pl: labels are
 resolved to line numbers, every line becomes a function that updates `pc`, and a loop calls the
 function of the current line until `pc` reaches the number of lines.
 */
module Dispatch {
  import opened Options

  type Store = map<string, int>

  function Restrict(s: Store, vars: set<string>): Store { map x | x in s && x in vars :: s[x] }

  /** A statement: any function of the store, of which only the variables `vars` are read and written. */
  datatype Action = Action(vars: set<string>, run: Store -> Store) {
    function Do(s: Store): Store { s + Restrict(run(Restrict(s, vars)), vars) }
  }

  /** A condition over the variables `vars`. */
  datatype Condition = Condition(vars: set<string>, test: Store -> bool) {
    predicate Holds(s: Store) { test(Restrict(s, vars)) }
  }

  datatype Body = Plain(action: Action) | Goto(tag: string) | IfGoto(cond: Condition, tag: string)

  datatype Line = Line(tag: Option<string>, body: Body)

  type Task = seq<Line>

  predicate Defined(task: Task, tag: string) {
    exists k :: 0 <= k < |task| && task[k].tag == Some(tag)
  }

  predicate UniqueLabels(task: Task) {
    forall j, k :: 0 <= j < k < |task| && task[j].tag.Some? ==> task[j].tag != task[k].tag
  }

  predicate TargetsDefined(task: Task) {
    forall k :: 0 <= k < |task| && !task[k].body.Plain? ==> Defined(task, task[k].body.tag)
  }

  // ---------------------------------------------------------------------------------------------
  // The goto program
  // ---------------------------------------------------------------------------------------------

  datatype Config = Running(pc: int, store: Store) | Halted(store: Store)

  /** The line that carries `label`. */
  function Target(task: Task, tag: string): (k: nat)
    requires Defined(task, tag)
    ensures k < |task| && task[k].tag == Some(tag)
  {
    if task[0].tag == Some(tag) then 0
    else
      assert Defined(task[1..], tag) by {
        var k :| 0 <= k < |task| && task[k].tag == Some(tag);
        assert task[1..][k - 1] == task[k];
      }
      1 + Target(task[1..], tag)
  }

  function At(task: Task, pc: int, store: Store): Config {
    if pc == |task| then Halted(store) else Running(pc, store)
  }

  function SourceStep(task: Task, c: Config): Config
    requires TargetsDefined(task)
  {
    if c.Halted? || !(0 <= c.pc < |task|) then c
    else match task[c.pc].body
      case Plain(action) => At(task, c.pc + 1, action.Do(c.store))
      case Goto(tag) => At(task, Target(task, tag), c.store)
      case IfGoto(cond, tag) =>
        At(task, if cond.Holds(c.store) then Target(task, tag) else c.pc + 1, c.store)
  }

  function SourceRun(task: Task, store: Store, steps: nat): Config
    requires TargetsDefined(task)
  {
    if steps == 0 then At(task, 0, store) else SourceStep(task, SourceRun(task, store, steps - 1))
  }

  // ---------------------------------------------------------------------------------------------
  // The label map
  // ---------------------------------------------------------------------------------------------

  /** The number of the last line with each label. */
  function LabelMap(task: Task): map<string, nat> {
    if task == [] then map[]
    else
      var init, last := task[..|task| - 1], task[|task| - 1];
      if last.tag.Some? then LabelMap(init)[last.tag.value := |init|] else LabelMap(init)
  }

  method BuildLabelMap(task: Task) returns (labels: map<string, nat>)
    ensures labels == LabelMap(task)
  {
    labels := map[];
    var lineNumber := 0;
    while lineNumber < |task|
      invariant 0 <= lineNumber <= |task|
      invariant labels == LabelMap(task[..lineNumber])
    {
      assert task[..lineNumber + 1][..lineNumber] == task[..lineNumber];
      var tag := task[lineNumber].tag;
      if tag.Some? {
        labels := labels[tag.value := lineNumber];
      }
      lineNumber := lineNumber + 1;
    }
    assert task[..lineNumber] == task;
  }

  /** Every id in the label map is a line with that label, and no defined label is missing. */
  lemma {:induction false} LabelMapIsExact(task: Task)
    ensures forall l :: l in LabelMap(task) ==>
              LabelMap(task)[l] < |task| && task[LabelMap(task)[l]].tag == Some(l)
    ensures forall k :: 0 <= k < |task| && task[k].tag.Some? ==> task[k].tag.value in LabelMap(task)
  {
    if task == [] {
    } else {
      var init := task[..|task| - 1];
      LabelMapIsExact(init);
      forall k | 0 <= k < |task| && task[k].tag.Some?
        ensures task[k].tag.value in LabelMap(task)
      {
        assert k < |init| ==> task[k] == init[k];
      }
    }
  }

  lemma LabelMapFindsTarget(task: Task, tag: string)
    requires UniqueLabels(task) && Defined(task, tag)
    ensures tag in LabelMap(task) && LabelMap(task)[tag] == Target(task, tag)
  {
    LabelMapIsExact(task);
    assert task[Target(task, tag)].tag.value == tag;
  }

  // ---------------------------------------------------------------------------------------------
  // Rewriting the lines
  // ---------------------------------------------------------------------------------------------

  /** Text of a line: what the source has, and what the rewriting puts in. */
  datatype Token =
    | Stmt(action: Action)
    | If(cond: Condition)
    | Jump(tag: string)    // goto label
    | PcInc                  // pc++;
    | PcSet(id: nat)         // pc = id;
    | Branch(id: nat)        // { pc = id; } else { pc++; }

  type Code = seq<seq<Token>>

  function Text(body: Body): seq<Token> {
    match body
    case Plain(action) => [Stmt(action)]
    case Goto(tag) => [Jump(tag)]
    case IfGoto(cond, tag) => [If(cond), Jump(tag)]
  }

  /** The text a line is meant to become; `doubled` adds the second `pc++` of a labelled line. */
  function Rewritten(labels: map<string, nat>, line: Line, doubled: bool): seq<Token>
    requires line.body.Plain? || line.body.tag in labels
  {
    match line.body
    case Plain(action) =>
      if doubled && line.tag.Some? then [Stmt(action), PcInc, PcInc] else [Stmt(action), PcInc]
    case Goto(tag) => [PcSet(labels[tag])]
    case IfGoto(cond, tag) => [If(cond), Branch(labels[tag])]
  }

  function Compile(task: Task, doubled: bool): Code
    requires TargetsDefined(task)
  {
    LabelMapIsExact(task);
    seq(|task|, k requires 0 <= k < |task| => Rewritten(LabelMap(task), task[k], doubled))
  }

  /** Position of the first goto, or the length of the line. */
  function JumpAt(line: seq<Token>): (at: nat)
    ensures at <= |line| && (at < |line| ==> line[at].Jump?)
    ensures forall i :: 0 <= i < at ==> !line[i].Jump?
  {
    if line == [] then 0 else if line[0].Jump? then 0 else 1 + JumpAt(line[1..])
  }

  /** The in-place edits of one line; with `doubled` false the append after a label is left out. */
  method RewriteLine(labels: map<string, nat>, source: Line, doubled: bool) returns (line: seq<Token>)
    requires source.body.Plain? || source.body.tag in labels
    ensures line == Rewritten(labels, source, doubled)
  {
    line := Text(source.body);
    if source.tag.Some? && doubled {
      line := line + [PcInc];
    }
    var at := JumpAt(line);
    assert source.body.IfGoto? ==> line[1].Jump?;
    if at < |line| {
      var id := labels[line[at].tag];
      if line[0].If? {
        line := line[..at];
        assert line == [Text(source.body)[0]];
        line := line + [Branch(id)];
      } else {
        line := [PcSet(id)];
      }
    } else {
      line := line + [PcInc];
    }
  }

  method RewriteLines(task: Task, doubled: bool) returns (code: Code)
    requires TargetsDefined(task)
    ensures code == Compile(task, doubled)
  {
    LabelMapIsExact(task);
    var labels := BuildLabelMap(task);
    code := [];
    for lineNumber := 0 to |task|
      invariant |code| == lineNumber
      invariant forall k :: 0 <= k < lineNumber ==> code[k] == Compile(task, doubled)[k]
    {
      var line := RewriteLine(labels, task[lineNumber], doubled);
      code := code + [line];
    }
  }

  // ---------------------------------------------------------------------------------------------
  // The generated program
  // ---------------------------------------------------------------------------------------------

  /** Effect of one generated function. */
  function Call(line: seq<Token>, pc: int, store: Store): (int, Store)
    decreases |line|
  {
    if line == [] then (pc, store)
    else match line[0]
      case Stmt(action) => Call(line[1..], pc, action.Do(store))
      case PcInc => Call(line[1..], pc + 1, store)
      case PcSet(id) => Call(line[1..], id, store)
      case If(cond) =>
        if 2 <= |line| && line[1].Branch? then
          Call(line[2..], if cond.Holds(store) then line[1].id else pc + 1, store)
        else Call(line[1..], pc, store)
      case _ => Call(line[1..], pc, store)
  }

  /** The dispatch loop; calling past the table of functions has no defined result. */
  datatype Dispatcher = Calling(pc: int, store: Store) | Done(store: Store) | Crashed

  function DispatchStep(code: Code, m: Dispatcher): Dispatcher {
    if !m.Calling? then m
    else if !(0 <= m.pc < |code|) then Crashed
    else
      var (pc, store) := Call(code[m.pc], m.pc, m.store);
      if pc == |code| then Done(store) else Calling(pc, store)
  }

  function DispatchRun(code: Code, store: Store, steps: nat): Dispatcher {
    if steps == 0 then Calling(0, store) else DispatchStep(code, DispatchRun(code, store, steps - 1))
  }

  /** The dispatch loop itself, for at most `steps` calls. */
  method DispatchLoop(code: Code, store: Store, steps: nat) returns (m: Dispatcher)
    ensures m == DispatchRun(code, store, steps)
  {
    var pc, s, k := 0, store, 0;
    while k < steps
      invariant 0 <= k <= steps
      invariant DispatchRun(code, store, k) == Calling(pc, s)
    {
      k := k + 1;
      if !(0 <= pc < |code|) {
        StoppedDispatchStays(code, store, k, steps);
        return Crashed;
      }
      var called := Call(code[pc], pc, s);
      pc, s := called.0, called.1;
      if pc == |code| {
        StoppedDispatchStays(code, store, k, steps);
        return Done(s);
      }
    }
    return Calling(pc, s);
  }

  lemma {:induction false} StoppedDispatchStays(code: Code, store: Store, k: nat, steps: nat)
    requires k <= steps && !DispatchRun(code, store, k).Calling?
    ensures DispatchRun(code, store, steps) == DispatchRun(code, store, k)
  {
    if k == steps {
    } else {
      StoppedDispatchStays(code, store, k, steps - 1);
    }
  }

  // ---------------------------------------------------------------------------------------------
  // Lockstep
  // ---------------------------------------------------------------------------------------------

  function Image(c: Config): Dispatcher {
    match c
    case Running(pc, store) => Calling(pc, store)
    case Halted(store) => Done(store)
  }

  /** Lines that the script as written gives two increments. */
  predicate Doubled(line: Line) { line.tag.Some? && line.body.Plain? }

  /** What the function generated for a line does. */
  lemma CallOfRewritten(labels: map<string, nat>, line: Line, doubled: bool, pc: int, store: Store)
    requires line.body.Plain? || line.body.tag in labels
    ensures Call(Rewritten(labels, line, doubled), pc, store) ==
      match line.body
      case Plain(action) => (pc + (if doubled && Doubled(line) then 2 else 1), action.Do(store))
      case Goto(tag) => (labels[tag], store)
      case IfGoto(cond, tag) => (if cond.Holds(store) then labels[tag] else pc + 1, store)
  {
    var text := Rewritten(labels, line, doubled);
    match line.body {
      case Plain(action) =>
        var rest := text[1..][1..];
        assert rest == if doubled && Doubled(line) then [PcInc] else [];
        assert Call(rest, pc + 1, action.Do(store)).0 == pc + if rest == [] then 1 else 2;
      case Goto(tag) =>
        assert text[1..] == [];
      case IfGoto(cond, tag) =>
        assert text[2..] == [];
    }
  }

  /** The generated function of a conditional goto goes to its target exactly when the test holds. */
  lemma ConditionalGotoGoesWhereItsTestSays(labels: map<string, nat>, line: Line, doubled: bool,
                                            pc: int, store: Store)
    requires line.body.IfGoto? && line.body.tag in labels
    ensures var holds := line.body.cond.test(map x | x in store && x in line.body.cond.vars :: store[x]);
            Call(Rewritten(labels, line, doubled), pc, store)
              == (if holds then labels[line.body.tag] else pc + 1, store)
  {
    CallOfRewritten(labels, line, doubled, pc, store);
  }

  /** So does the conditional goto itself, to the line that carries its label. */
  lemma SourceGoesWhereItsTestSays(task: Task, pc: nat, store: Store) returns (target: nat)
    requires TargetsDefined(task) && pc < |task| && task[pc].body.IfGoto?
    ensures target < |task| && task[target].tag == Some(task[pc].body.tag)
    ensures var cond := task[pc].body.cond;
            var next := if cond.test(map x | x in store && x in cond.vars :: store[x]) then target else pc + 1;
            SourceStep(task, Running(pc, store)) == if next == |task| then Halted(store) else Running(next, store)
  {
    target := Target(task, task[pc].body.tag);
  }

  /** A variable of a statement gets what the statement computes for it, and all others keep their values. */
  predicate Assigned(action: Action, before: Store, after: Store) {
    var computed := action.run(map x | x in before && x in action.vars :: before[x]);
    && (forall x :: x in action.vars && x in computed ==> x in after && after[x] == computed[x])
    && (forall x :: x in before && !(x in action.vars && x in computed) ==> x in after && after[x] == before[x])
    && (forall x :: x in after ==> x in before || (x in action.vars && x in computed))
  }

  lemma StatementAssignsItsVariables(labels: map<string, nat>, line: Line, doubled: bool, pc: int, store: Store)
    requires line.body.Plain?
    ensures Assigned(line.body.action, store, Call(Rewritten(labels, line, doubled), pc, store).1)
  {
    CallOfRewritten(labels, line, doubled, pc, store);
    var vars := line.body.action.vars;
    assert Restrict(store, vars) == map x | x in store && x in vars :: store[x];
  }

  lemma SourceAssignsItsVariables(task: Task, pc: nat, store: Store)
    requires TargetsDefined(task) && pc < |task| && task[pc].body.Plain?
    ensures Assigned(task[pc].body.action, store, SourceStep(task, Running(pc, store)).store)
  {
    var vars := task[pc].body.action.vars;
    assert Restrict(store, vars) == map x | x in store && x in vars :: store[x];
  }

  /** At line `pc` one call of the generated code does what one line of the task does. */
  predicate StepAgrees(task: Task, doubled: bool, pc: int, store: Store)
    requires TargetsDefined(task)
  {
    DispatchStep(Compile(task, doubled), Calling(pc, store)) == Image(SourceStep(task, Running(pc, store)))
  }

  /** One call does what one line does, unless the line has two increments. */
  lemma StepsAgreeExactly(task: Task, doubled: bool, pc: int, store: Store)
    requires UniqueLabels(task) && TargetsDefined(task) && 0 <= pc < |task|
    ensures StepAgrees(task, doubled, pc, store) <==> !(doubled && Doubled(task[pc]))
  {
    LabelMapIsExact(task);
    if !task[pc].body.Plain? {
      LabelMapFindsTarget(task, task[pc].body.tag);
    }
    CallOfRewritten(LabelMap(task), task[pc], doubled, pc, store);
  }

  /** The script as written is right wherever a task may be resumed, exactly when only gotos are labelled. */
  lemma AgreesEverywhereExactly(task: Task)
    requires UniqueLabels(task) && TargetsDefined(task)
    ensures (forall pc, store :: 0 <= pc < |task| ==> StepAgrees(task, true, pc, store))
       <==> (forall k :: 0 <= k < |task| ==> !Doubled(task[k]))
  {
    forall pc, store | 0 <= pc < |task|
      ensures StepAgrees(task, true, pc, store) <==> !Doubled(task[pc])
    {
      StepsAgreeExactly(task, true, pc, store);
    }
    if k :| 0 <= k < |task| && Doubled(task[k]) {
      assert !StepAgrees(task, true, k, map[]);
    }
  }

  lemma {:induction false} SourceStaysInTask(task: Task, store: Store, steps: nat)
    requires TargetsDefined(task)
    ensures var c := SourceRun(task, store, steps); c.Running? ==> 0 <= c.pc < |task|
  {
    if steps == 0 {
    } else {
      SourceStaysInTask(task, store, steps - 1);
    }
  }

  /** The next line to execute is not one with two increments. */
  predicate SingleIncrementAt(task: Task, store: Store, k: nat)
    requires TargetsDefined(task)
  {
    var c := SourceRun(task, store, k);
    c.Running? && 0 <= c.pc < |task| ==> !Doubled(task[c.pc])
  }

  predicate AgreesAt(task: Task, doubled: bool, store: Store, k: nat)
    requires TargetsDefined(task)
  {
    DispatchRun(Compile(task, doubled), store, k) == Image(SourceRun(task, store, k))
  }

  predicate NoDoubledLineExecuted(task: Task, store: Store, steps: nat)
    requires TargetsDefined(task)
  {
    forall k :: 0 <= k < steps ==> SingleIncrementAt(task, store, k)
  }

  predicate InLockstep(task: Task, doubled: bool, store: Store, steps: nat)
    requires TargetsDefined(task)
  {
    forall k :: 0 <= k <= steps ==> AgreesAt(task, doubled, store, k)
  }

  lemma AgreementContinuesExactly(task: Task, doubled: bool, store: Store, k: nat)
    requires UniqueLabels(task) && TargetsDefined(task) && AgreesAt(task, doubled, store, k)
    ensures AgreesAt(task, doubled, store, k + 1) <==> !doubled || SingleIncrementAt(task, store, k)
  {
    SourceStaysInTask(task, store, k);
    var c := SourceRun(task, store, k);
    if c.Running? {
      StepsAgreeExactly(task, doubled, c.pc, c.store);
    }
  }

  lemma {:induction false} LockstepWithoutDoubledLines(task: Task, doubled: bool, store: Store, k: nat)
    requires task != [] && UniqueLabels(task) && TargetsDefined(task)
    requires !doubled || NoDoubledLineExecuted(task, store, k)
    ensures AgreesAt(task, doubled, store, k)
  {
    if k == 0 {
    } else {
      LockstepWithoutDoubledLines(task, doubled, store, k - 1);
      AgreementContinuesExactly(task, doubled, store, k - 1);
    }
  }

  /**
   The generated program stays in lockstep with the task (same store, same line, and one stops
   exactly when the other does) as long as no line with two increments is executed, and no longer.
   */
  lemma LockstepExactly(task: Task, doubled: bool, store: Store, steps: nat)
    requires task != [] && UniqueLabels(task) && TargetsDefined(task)
    ensures InLockstep(task, doubled, store, steps) <==>
              !doubled || NoDoubledLineExecuted(task, store, steps)
  {
    if !doubled || NoDoubledLineExecuted(task, store, steps) {
      forall k | 0 <= k <= steps
        ensures AgreesAt(task, doubled, store, k)
      {
        LockstepWithoutDoubledLines(task, doubled, store, k);
      }
    } else if InLockstep(task, doubled, store, steps) {
      forall k | 0 <= k < steps
        ensures SingleIncrementAt(task, store, k)
      {
        assert AgreesAt(task, doubled, store, k + 1);
        AgreementContinuesExactly(task, doubled, store, k);
      }
    }
  }

  /** The script as written is right, for every store and any number of steps, when only gotos are labelled. */
  lemma LabelsOnGotosSuffice(task: Task, store: Store, steps: nat)
    requires task != [] && UniqueLabels(task) && TargetsDefined(task)
    requires forall k :: 0 <= k < |task| ==> !Doubled(task[k])
    ensures InLockstep(task, true, store, steps)
  {
    LockstepExactly(task, true, store, steps);
  }

  /** With one increment per line only lines of the table are called, and the loop never runs past it. */
  lemma CallsStayInTable(task: Task, store: Store, steps: nat)
    requires task != [] && UniqueLabels(task) && TargetsDefined(task)
    ensures var m := DispatchRun(Compile(task, false), store, steps);
            !m.Crashed? && (m.Calling? ==> 0 <= m.pc < |task|)
  {
    LockstepExactly(task, false, store, steps);
    SourceStaysInTask(task, store, steps);
    assert AgreesAt(task, false, store, steps);
  }

  /**
   As written, when a run reaches a labelled statement on the last line of its task (and has executed
   no other line with two increments), the task halts, but its dispatch loop runs past the table.
   */
  lemma LabelledLastLineCrashes(task: Task, store: Store, k: nat)
    requires UniqueLabels(task) && TargetsDefined(task) && NoDoubledLineExecuted(task, store, k)
    requires task != [] && Doubled(task[|task| - 1])
    requires var c := SourceRun(task, store, k); c.Running? && c.pc == |task| - 1
    ensures SourceRun(task, store, k + 1).Halted?
    ensures DispatchRun(Compile(task, true), store, k + 2).Crashed?
  {
    var code, c := Compile(task, true), SourceRun(task, store, k);
    LockstepWithoutDoubledLines(task, true, store, k);
    LabelMapIsExact(task);
    CallOfRewritten(LabelMap(task), task[c.pc], true, c.pc, c.store);
    assert DispatchRun(code, store, k + 1) == DispatchStep(code, DispatchRun(code, store, k));
    assert DispatchRun(code, store, k + 1) == Calling(|task| + 1, task[c.pc].body.action.Do(c.store));
    assert DispatchRun(code, store, k + 2) == DispatchStep(code, DispatchRun(code, store, k + 1));
  }

  /** The smallest such task: one labelled statement. */
  lemma OneLabelledLineCrashes(tag: string, action: Action, store: Store)
    ensures var task := [Line(Some(tag), Plain(action))];
            && TargetsDefined(task)
            && SourceRun(task, store, 1).Halted?
            && DispatchRun(Compile(task, true), store, 2).Crashed?
  {
    var task := [Line(Some(tag), Plain(action))];
    assert UniqueLabels(task) && TargetsDefined(task);
    assert SourceRun(task, store, 0) == Running(0, store);
    LabelledLastLineCrashes(task, store, 0);
  }

  /** A task without lines halts at once, but its dispatch loop calls the missing first function. */
  lemma EmptyTaskCrashes(store: Store, doubled: bool)
    ensures SourceRun([], store, 0).Halted? && DispatchRun(Compile([], doubled), store, 1).Crashed?
  {
  }
}
