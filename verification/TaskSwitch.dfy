/**
 Time slicing of the compiled tasks of Code/Ch3-Hardware-Architecture/transform_to_one_sub_per_line.pl:
 hoisting of the task variables to global ones, `save_context` and `restore_context`, and any
 interleaving of the per-line functions of the tasks.
 */
module TaskSwitch {
  import opened Options
  import opened Dispatch

  /** r0-r12, sp, lr, pc */
  const NREGS: nat := 16
  const PC: nat := 15

  // ---------------------------------------------------------------------------------------------
  // Hoisting
  // ---------------------------------------------------------------------------------------------

  /** A variable declared in a task, by the text that the script uses as its key. */
  datatype Declaration = Declaration(name: string, task: nat)

  predicate DistinctNames(decls: seq<Declaration>) {
    forall j, k :: 0 <= j < k < |decls| ==> decls[j].name != decls[k].name
  }

  /** The hoisted variables of a task. */
  function VarsOf(owner: map<string, nat>, task: nat): set<string> { set x | x in owner && owner[x] == task }

  /** Record the owner of each variable, or stop at a name declared twice. */
  method Hoist(decls: seq<Declaration>) returns (owner: Option<map<string, nat>>)
    ensures owner.Some? <==> DistinctNames(decls)
    ensures owner.Some? ==>
      && (forall k :: 0 <= k < |decls| ==> decls[k].name in owner.value && owner.value[decls[k].name] == decls[k].task)
      && (forall x :: x in owner.value ==> exists k :: 0 <= k < |decls| && decls[k].name == x)
      && (forall k :: 0 <= k < |decls| ==> decls[k].name in VarsOf(owner.value, decls[k].task))
      && (forall t: nat, u: nat :: t != u ==> VarsOf(owner.value, t) !! VarsOf(owner.value, u))
  {
    var globals: map<string, nat> := map[];
    for i := 0 to |decls|
      invariant DistinctNames(decls[..i])
      invariant forall k :: 0 <= k < i ==> decls[k].name in globals && globals[decls[k].name] == decls[k].task
      invariant forall x :: x in globals ==> exists k :: 0 <= k < i && decls[k].name == x
    {
      if decls[i].name in globals {
        return None;
      }
      globals := globals[decls[i].name := decls[i].task];
    }
    assert decls[..|decls|] == decls;
    return Some(globals);
  }

  // ---------------------------------------------------------------------------------------------
  // Footprints
  // ---------------------------------------------------------------------------------------------

  predicate TokenWithin(token: Token, vars: set<string>) {
    match token
    case Stmt(action) => action.vars <= vars
    case If(cond) => cond.vars <= vars
    case _ => true
  }

  /** The functions of `code` use no variables but `vars`. */
  predicate LineWithin(line: seq<Token>, vars: set<string>) {
    forall i :: 0 <= i < |line| ==> TokenWithin(line[i], vars)
  }

  predicate CodeWithin(code: Code, vars: set<string>) {
    forall k :: 0 <= k < |code| ==> LineWithin(code[k], vars)
  }

  lemma DoCommutesWithRestrict(action: Action, s: Store, vars: set<string>)
    requires action.vars <= vars
    ensures action.Do(Restrict(s, vars)) == Restrict(action.Do(s), vars)
  {
    assert Restrict(Restrict(s, vars), action.vars) == Restrict(s, action.vars);
  }

  /** What a line does to the variables of its task depends on them alone. */
  lemma {:induction false} CallCommutesWithRestrict(line: seq<Token>, pc: int, s: Store, vars: set<string>)
    requires LineWithin(line, vars)
    ensures Call(line, pc, Restrict(s, vars)) == (Call(line, pc, s).0, Restrict(Call(line, pc, s).1, vars))
    decreases |line|
  {
    if line == [] {
    } else {
      assert TokenWithin(line[0], vars);
      match line[0] {
        case Stmt(action) =>
          DoCommutesWithRestrict(action, s, vars);
          CallCommutesWithRestrict(line[1..], pc, action.Do(s), vars);
        case PcInc => CallCommutesWithRestrict(line[1..], pc + 1, s, vars);
        case PcSet(id) => CallCommutesWithRestrict(line[1..], id, s, vars);
        case If(cond) =>
          assert Restrict(Restrict(s, vars), cond.vars) == Restrict(s, cond.vars);
          if 2 <= |line| && line[1].Branch? {
            CallCommutesWithRestrict(line[2..], if cond.Holds(s) then line[1].id else pc + 1, s, vars);
          } else {
            CallCommutesWithRestrict(line[1..], pc, s, vars);
          }
        case _ => CallCommutesWithRestrict(line[1..], pc, s, vars);
      }
    }
  }

  /** A line leaves the variables of other tasks alone. */
  lemma {:induction false} CallKeepsOtherVariables(line: seq<Token>, pc: int, s: Store,
                                                   vars: set<string>, others: set<string>)
    requires LineWithin(line, vars) && vars !! others
    ensures Restrict(Call(line, pc, s).1, others) == Restrict(s, others)
    decreases |line|
  {
    if line == [] {
    } else {
      assert TokenWithin(line[0], vars);
      match line[0] {
        case Stmt(action) =>
          assert Restrict(action.Do(s), others) == Restrict(s, others);
          CallKeepsOtherVariables(line[1..], pc, action.Do(s), vars, others);
        case PcInc => CallKeepsOtherVariables(line[1..], pc + 1, s, vars, others);
        case PcSet(id) => CallKeepsOtherVariables(line[1..], id, s, vars, others);
        case If(cond) =>
          if 2 <= |line| && line[1].Branch? {
            CallKeepsOtherVariables(line[2..], if cond.Holds(s) then line[1].id else pc + 1, s, vars, others);
          } else {
            CallKeepsOtherVariables(line[1..], pc, s, vars, others);
          }
        case _ => CallKeepsOtherVariables(line[1..], pc, s, vars, others);
      }
    }
  }

  // ---------------------------------------------------------------------------------------------
  // One task alone
  // ---------------------------------------------------------------------------------------------

  /** Registers, variables and the lines executed so far. */
  datatype Thread = Thread(regs: seq<int>, store: Store, trace: seq<int>)

  /** One line; it may leave anything in the registers below `pc`.  A finished task does nothing. */
  function Tick(code: Code, scratch: seq<int>, th: Thread): (r: Thread)
    requires |th.regs| == NREGS && |scratch| == PC
    ensures |r.regs| == NREGS
  {
    var pc := th.regs[PC];
    if !(0 <= pc < |code|) then th
    else
      var (pc', store') := Call(code[pc], pc, th.store);
      Thread(scratch + [pc'], store', th.trace + [pc])
  }

  predicate ScratchOk(scratches: seq<seq<int>>) {
    forall i :: 0 <= i < |scratches| ==> |scratches[i]| == PC
  }

  function Alone(code: Code, th: Thread, scratches: seq<seq<int>>): (r: Thread)
    requires |th.regs| == NREGS && ScratchOk(scratches)
    ensures |r.regs| == NREGS
  {
    if scratches == [] then th
    else Tick(code, scratches[|scratches| - 1], Alone(code, th, scratches[..|scratches| - 1]))
  }

  // ---------------------------------------------------------------------------------------------
  // All tasks on one set of registers
  // ---------------------------------------------------------------------------------------------

  datatype System = System(store: Store, regs: seq<int>, contexts: seq<seq<int>>, current: nat,
                             traces: seq<seq<int>>)

  predicate WellFormed(m: System) {
    && |m.regs| == NREGS && m.current < |m.contexts| == |m.traces|
    && forall t :: 0 <= t < |m.contexts| ==> |m.contexts[t]| == NREGS
  }

  datatype Event = RunLine(scratch: seq<int>) | SwitchTo(task: nat)

  predicate EventOk(tasks: nat, e: Event) {
    match e
    case RunLine(scratch) => |scratch| == PC
    case SwitchTo(task) => task < tasks
  }

  function Step(codes: seq<Code>, m: System, e: Event): (r: System)
    requires WellFormed(m) && |codes| == |m.contexts| && EventOk(|codes|, e)
    ensures WellFormed(r) && |r.contexts| == |m.contexts|
  {
    match e
    case RunLine(scratch) =>
      var th := Tick(codes[m.current], scratch, Thread(m.regs, m.store, m.traces[m.current]));
      m.(regs := th.regs, store := th.store, traces := m.traces[m.current := th.trace])
    case SwitchTo(task) =>
      var saved := m.contexts[m.current := m.regs];
      m.(contexts := saved, regs := saved[task], current := task)
  }

  predicate EventsOk(tasks: nat, events: seq<Event>) {
    forall i :: 0 <= i < |events| ==> EventOk(tasks, events[i])
  }

  function Exec(codes: seq<Code>, m: System, events: seq<Event>): (r: System)
    requires WellFormed(m) && |codes| == |m.contexts| && EventsOk(|codes|, events)
    ensures WellFormed(r) && |r.contexts| == |m.contexts|
  {
    if events == [] then m
    else Step(codes, Exec(codes, m, events[..|events| - 1]), events[|events| - 1])
  }

  /** What task `t` would find if it ran now: its registers, its variables and its trace. */
  function ThreadOf(m: System, t: nat, vars: set<string>): Thread
    requires WellFormed(m) && t < |m.contexts|
  {
    Thread(if t == m.current then m.regs else m.contexts[t], Restrict(m.store, vars), m.traces[t])
  }

  /** The lines that task `t` is given, when task `start` runs first. */
  function Own(events: seq<Event>, start: nat, t: nat): seq<seq<int>> {
    if events == [] then []
    else
      var init, last := events[..|events| - 1], events[|events| - 1];
      if last.RunLine? && Current(init, start) == t then Own(init, start, t) + [last.scratch]
      else Own(init, start, t)
  }

  function Current(events: seq<Event>, start: nat): nat {
    if events == [] then start
    else match events[|events| - 1]
      case SwitchTo(task) => task
      case RunLine(_) => Current(events[..|events| - 1], start)
  }

  lemma {:induction false} OwnIsOk(tasks: nat, events: seq<Event>, start: nat, t: nat)
    requires EventsOk(tasks, events)
    ensures ScratchOk(Own(events, start, t))
  {
    if events == [] {
    } else {
      OwnIsOk(tasks, events[..|events| - 1], start, t);
      assert EventOk(tasks, events[|events| - 1]);
    }
  }

  lemma {:induction false} CurrentIsTracked(codes: seq<Code>, m: System, events: seq<Event>)
    requires WellFormed(m) && |codes| == |m.contexts| && EventsOk(|codes|, events)
    ensures Exec(codes, m, events).current == Current(events, m.current)
  {
    if events == [] {
    } else {
      CurrentIsTracked(codes, m, events[..|events| - 1]);
    }
  }

  predicate OwnVariables(codes: seq<Code>, owner: map<string, nat>) {
    forall t :: 0 <= t < |codes| ==> CodeWithin(codes[t], VarsOf(owner, t))
  }

  /** One event advances the current task by a line, or changes no task at all. */
  lemma StepMovesOneTask(codes: seq<Code>, owner: map<string, nat>, m: System, e: Event, t: nat)
    requires WellFormed(m) && |codes| == |m.contexts| && EventOk(|codes|, e) && t < |codes|
    requires OwnVariables(codes, owner)
    ensures ThreadOf(Step(codes, m, e), t, VarsOf(owner, t)) ==
      if e.RunLine? && t == m.current then Tick(codes[t], e.scratch, ThreadOf(m, t, VarsOf(owner, t)))
      else ThreadOf(m, t, VarsOf(owner, t))
  {
    if e.RunLine? {
      var code, pc := codes[m.current], m.regs[PC];
      if 0 <= pc < |code| {
        assert LineWithin(code[pc], VarsOf(owner, m.current));
        if t == m.current {
          CallCommutesWithRestrict(code[pc], pc, m.store, VarsOf(owner, t));
        } else {
          CallKeepsOtherVariables(code[pc], pc, m.store, VarsOf(owner, m.current), VarsOf(owner, t));
        }
      }
    }
  }

  /**
   For every interleaving, the registers, variables and line trace of each task are those of that
   task run alone for the lines it was given.
   */
  lemma {:induction false} EachTaskRunsAsIfAlone(codes: seq<Code>, owner: map<string, nat>, m: System,
                                                 events: seq<Event>, t: nat)
    requires WellFormed(m) && |codes| == |m.contexts| && EventsOk(|codes|, events) && t < |codes|
    requires OwnVariables(codes, owner)
    ensures ScratchOk(Own(events, m.current, t))
    ensures ThreadOf(Exec(codes, m, events), t, VarsOf(owner, t)) ==
              Alone(codes[t], ThreadOf(m, t, VarsOf(owner, t)), Own(events, m.current, t))
  {
    OwnIsOk(|codes|, events, m.current, t);
    if events == [] {
    } else {
      var init := events[..|events| - 1];
      EachTaskRunsAsIfAlone(codes, owner, m, init, t);
      CurrentIsTracked(codes, m, init);
      StepMovesOneTask(codes, owner, Exec(codes, m, init), events[|events| - 1], t);
      var own := Own(events, m.current, t);
      assert own != Own(init, m.current, t) ==> own[..|own| - 1] == Own(init, m.current, t);
    }
  }

  // ---------------------------------------------------------------------------------------------
  // Time slicing keeps the meaning of the source
  // ---------------------------------------------------------------------------------------------

  predicate TaskWithin(task: Task, vars: set<string>) {
    forall k :: 0 <= k < |task| ==>
      match task[k].body
      case Plain(action) => action.vars <= vars
      case Goto(_) => true
      case IfGoto(cond, _) => cond.vars <= vars
  }

  lemma CompiledCodeStaysWithin(task: Task, vars: set<string>)
    requires TargetsDefined(task) && TaskWithin(task, vars)
    ensures CodeWithin(Compile(task, false), vars)
  {
  }

  /** The thread stands where the goto program stands after as many steps. */
  predicate Stands(task: Task, th: Thread, c: Config) {
    && |th.regs| == 16
    && th.store == c.store
    && th.regs[15] == if c.Running? then c.pc else |task|
  }

  /** The trace lists the lines of the goto program in order: `steps` of them, or all until it halts. */
  predicate Traces(task: Task, trace: seq<int>, store: Store, steps: nat)
    requires TargetsDefined(task)
  {
    && (forall j :: 0 <= j < |trace| ==>
          SourceRun(task, store, j).Running? && SourceRun(task, store, j).pc == trace[j])
    && |trace| <= steps
    && if SourceRun(task, store, steps).Running? then |trace| == steps else SourceRun(task, store, |trace|).Halted?
  }

  lemma TickFollowsSourceStep(task: Task, scratch: seq<int>, th: Thread, c: Config)
    requires UniqueLabels(task) && TargetsDefined(task) && |scratch| == PC
    requires Stands(task, th, c) && (c.Running? ==> 0 <= c.pc < |task|)
    ensures var r := Tick(Compile(task, false), scratch, th);
            && Stands(task, r, SourceStep(task, c))
            && r.trace == if c.Running? then th.trace + [c.pc] else th.trace
  {
    if c.Running? {
      StepsAgreeExactly(task, false, c.pc, c.store);
    }
  }

  lemma TraceGrows(task: Task, trace: seq<int>, store: Store, steps: nat, next: seq<int>)
    requires TargetsDefined(task) && Traces(task, trace, store, steps)
    requires next == var c := SourceRun(task, store, steps); if c.Running? then trace + [c.pc] else trace
    ensures Traces(task, next, store, steps + 1)
  {
  }

  lemma {:induction false} AloneFollowsSource(task: Task, th: Thread, scratches: seq<seq<int>>)
    requires task != [] && UniqueLabels(task) && TargetsDefined(task)
    requires |th.regs| == NREGS && th.regs[PC] == 0 && th.trace == [] && ScratchOk(scratches)
    ensures var r := Alone(Compile(task, false), th, scratches);
            var c := SourceRun(task, th.store, |scratches|);
            && Stands(task, r, c) && Traces(task, r.trace, th.store, |scratches|)
  {
    if scratches == [] {
    } else {
      var n := |scratches| - 1;
      AloneFollowsSource(task, th, scratches[..n]);
      var c := SourceRun(task, th.store, n);
      assert c.Running? ==> 0 <= c.pc < |task| by {
        SourceStaysInTask(task, th.store, n);
      }
      var before := Alone(Compile(task, false), th, scratches[..n]);
      TickFollowsSourceStep(task, scratches[n], before, c);
      TraceGrows(task, before.trace, th.store, n, Tick(Compile(task, false), scratches[n], before).trace);
    }
  }

  /**
   Tasks compiled with one increment per line and time sliced in any way mean what their source
   means: each stands where its goto program stands after as many steps as it was given lines, and
   has executed just the lines that the goto program executes in those steps.
   */
  lemma TimeSlicingKeepsMeaning(tasks: seq<Task>, owner: map<string, nat>, m: System, events: seq<Event>, t: nat)
    requires WellFormed(m) && |tasks| == |m.contexts| && EventsOk(|tasks|, events) && t < |tasks|
    requires forall u :: 0 <= u < |tasks| ==>
      && tasks[u] != [] && UniqueLabels(tasks[u]) && TargetsDefined(tasks[u])
      && TaskWithin(tasks[u], VarsOf(owner, u))
    requires ThreadOf(m, t, VarsOf(owner, t)).regs[PC] == 0 && m.traces[t] == []
    ensures var codes := seq(|tasks|, u requires 0 <= u < |tasks| => Compile(tasks[u], false));
            var th := ThreadOf(Exec(codes, m, events), t, VarsOf(owner, t));
            var store := Restrict(m.store, VarsOf(owner, t));
            var lines := |Own(events, m.current, t)|;
            && Stands(tasks[t], th, SourceRun(tasks[t], store, lines))
            && Traces(tasks[t], th.trace, store, lines)
  {
    var codes := seq(|tasks|, u requires 0 <= u < |tasks| => Compile(tasks[u], false));
    forall u | 0 <= u < |codes|
      ensures CodeWithin(codes[u], VarsOf(owner, u))
    {
      CompiledCodeStaysWithin(tasks[u], VarsOf(owner, u));
    }
    EachTaskRunsAsIfAlone(codes, owner, m, events, t);
    AloneFollowsSource(tasks[t], ThreadOf(m, t, VarsOf(owner, t)), Own(events, m.current, t));
  }

  // ---------------------------------------------------------------------------------------------
  // The registers and contexts in place
  // ---------------------------------------------------------------------------------------------

  class TaskMachine {
    const regs: array<int>
    const context: array2<int>
    var store: Store
    var current: nat
    ghost var traces: seq<seq<int>>

    ghost predicate Valid()
      reads this, regs, context
    {
      && regs.Length == NREGS && context.Length1 == NREGS
      && current < context.Length0 == |traces|
    }

    ghost function Row(task: nat): (r: seq<int>)
      requires context.Length1 == NREGS && task < context.Length0
      reads context
      ensures |r| == NREGS && forall i :: 0 <= i < NREGS ==> r[i] == context[task, i]
    {
      seq(NREGS, i requires 0 <= i < NREGS reads context => context[task, i])
    }

    ghost function Rows(): (r: seq<seq<int>>)
      requires context.Length1 == NREGS
      reads context
      ensures |r| == context.Length0 && forall t :: 0 <= t < |r| ==> r[t] == Row(t)
    {
      seq(context.Length0, t requires 0 <= t < context.Length0 reads context => Row(t))
    }

    ghost function Abs(): (m: System)
      requires Valid()
      reads this, regs, context
      ensures WellFormed(m) && |m.contexts| == context.Length0
    {
      System(store, regs[..], Rows(), current, traces)
    }

    constructor (tasks: nat, first: nat, initial: Store)
      requires first < tasks
      ensures Valid() && fresh(regs) && fresh(context) && context.Length0 == tasks
      ensures current == first && store == initial
      ensures forall t :: 0 <= t < tasks ==>
        ThreadOf(Abs(), t, {}).regs[PC] == 0 && traces[t] == []
    {
      regs := new int[NREGS](_ => 0);
      context := new int[tasks, NREGS]((_, _) => 0);
      current, store := first, initial;
      traces := seq(tasks, _ => []);
    }

    method SaveContext(task: nat)
      requires Valid() && task < context.Length0
      modifies context
      ensures Valid() && Rows() == old(Rows())[task := regs[..]]
      ensures regs.Length == 16 && forall i :: 0 <= i < 16 ==> context[task, i] == regs[i]
    {
      forall i | 0 <= i < NREGS {
        context[task, i] := regs[i];
      }
      assert Row(task) == regs[..];
      assert forall t :: 0 <= t < context.Length0 && t != task ==> Row(t) == old(Row(t));
    }

    method RestoreContext(task: nat)
      requires Valid() && task < context.Length0
      modifies regs
      ensures Valid() && regs[..] == Rows()[task]
      ensures regs.Length == 16 && forall i :: 0 <= i < 16 ==> regs[i] == context[task, i]
    {
      forall i | 0 <= i < NREGS {
        regs[i] := context[task, i];
      }
      assert regs[..] == Row(task);
    }

    method Switch(task: nat)
      requires Valid() && task < context.Length0
      modifies this`current, regs, context
      ensures Valid()
      ensures forall codes: seq<Code> :: |codes| == context.Length0 ==>
        Abs() == Step(codes, old(Abs()), SwitchTo(task))
    {
      SaveContext(current);
      RestoreContext(task);
      current := task;
    }

    /** Call the function of the current line of the current task. */
    method CallLine(codes: seq<Code>, scratch: seq<int>)
      requires Valid() && |codes| == context.Length0 && |scratch| == PC
      modifies this`store, this`traces, regs
      ensures Valid()
      ensures Abs() == Step(codes, old(Abs()), RunLine(scratch))
    {
      var pc := regs[PC];
      if 0 <= pc < |codes[current]| {
        var called := Call(codes[current][pc], pc, store);
        forall i | 0 <= i < PC {
          regs[i] := scratch[i];
        }
        regs[PC] := called.0;
        store := called.1;
        traces := traces[current := traces[current] + [pc]];
        assert regs[..] == scratch + [called.0];
      } else {
        assert traces[current := traces[current]] == traces;
      }
    }

    /** Any interleaving of lines and switches. */
    method Run(codes: seq<Code>, events: seq<Event>)
      requires Valid() && |codes| == context.Length0 && EventsOk(|codes|, events)
      modifies this, regs, context
      ensures Valid() && Abs() == Exec(codes, old(Abs()), events)
    {
      ghost var m := Abs();
      for i := 0 to |events|
        invariant Valid() && Abs() == Exec(codes, m, events[..i])
      {
        assert events[..i + 1][..i] == events[..i] && EventOk(|codes|, events[i]);
        match events[i]
        case RunLine(scratch) => CallLine(codes, scratch);
        case SwitchTo(task) => Switch(task);
      }
      assert events[..|events|] == events;
    }
  }
}
