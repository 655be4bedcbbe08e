/** The engine that walks a list of stages, and the stack of rollback guards it unwinds.

    What stages do is not fixed: a run is given as a script of turns, one for each execution of a stage, saying what
    the execution does to the disk, whether it fails, where it sends the cursor, and whether the operation has been
    cancelled by then.  Everything is proved for every script.  A script may end while the pipeline is still running.
  */
module Orchestrator {
  import opened Basics
  import opened Disk

  /** The type of a stage, by which backward jumps name their target. */
  type StageType = nat

  datatype StageResult = Advance | Repeat | RepeatBack(target: StageType)

  datatype RunError = StageError | StageNotFound | Cancelled

  datatype NextStep = RunAt(index: nat) | Finish | Stop(index: nat, error: RunError)

  // ---- The cursor ----------------------------------------------------------------------------------

  /** `k` is the nearest stage of the type before `index`. */
  predicate IsNearestBefore(stages: seq<StageType>, index: nat, target: StageType, k: nat)
    requires index <= |stages|
  {
    k < index && stages[k] == target && forall j :: k < j < index ==> stages[j] != target
  }

  class Cursor {
    const stages: seq<StageType>
    var index: nat

    constructor (stages: seq<StageType>)
      ensures this.stages == stages && index == 0
    {
      this.stages, index := stages, 0;
    }

    method Find(target: StageType) returns (found: Option<nat>)
      requires index <= |stages|
      ensures found.Some? ==> IsNearestBefore(stages, index, target, found.value)
      ensures found.None? ==> target !in stages[..index]
    {
      var k := index;
      while k > 0
        invariant 0 <= k <= index <= |stages|
        invariant forall j :: k <= j < index ==> stages[j] != target
      {
        k := k - 1;
        if stages[k] == target {
          return Some(k);
        }
      }
      found := None;
    }

    /** Moves on, stays, or jumps strictly back; a jump without a target leaves the cursor where it is. */
    method MoveBy(result: StageResult) returns (ok: bool)
      requires index < |stages|
      modifies this
      ensures index <= |stages|
      ensures ok <==> (result.RepeatBack? ==> result.target in stages[..old(index)])
      ensures match result
              case Advance => index == old(index) + 1
              case Repeat => index == old(index)
              case RepeatBack(target) =>
                if ok then IsNearestBefore(stages, old(index), target, index) else index == old(index)
    {
      ok := true;
      match result {
        case Advance =>
          index := index + 1;
        case Repeat =>
        case RepeatBack(target) =>
          var found := Find(target);
          if found.Some? {
            index := found.value;
          } else {
            ok := false;
          }
      }
    }

    /** Moves the cursor by the last result and says what to run; a missing target and a cancellation unwind. */
    method Next(context: Context, cancelled: bool, previous: Option<StageResult>) returns (r: NextStep)
      requires index <= |stages| && (previous.Some? ==> index < |stages|)
      modifies this, context, context.disk
      ensures index <= |stages| && context.handed == old(context.handed)
      ensures r.Stop? ==> context.rollback == []
                          && context.undone == old(context.undone) + Reverse(old(context.rollback))
                          && context.disk.files == Unwound(old(context.disk.files), old(context.rollback))
      ensures !r.Stop? ==> context.rollback == old(context.rollback) && context.undone == old(context.undone)
                           && context.disk.files == old(context.disk.files)
      ensures r == Stop(index, StageNotFound) ==>
                && index == old(index) && previous.Some? && previous.value.RepeatBack?
                && previous.value.target !in stages[..index]
      ensures r != Stop(index, StageNotFound) ==>
                && (if previous.None? then index == old(index) else Follows(stages, old(index), previous.value, index))
                && r == (if cancelled then Stop(index, Cancelled)
                         else if index < |stages| then RunAt(index) else Finish)
    {
      hide Unwound, Reverse, Undone;
      if previous.Some? {
        var moved := MoveBy(previous.value);
        if !moved {
          context.Unwind();
          return Stop(index, StageNotFound);
        }
      }
      if cancelled {
        context.Unwind();
        return Stop(index, Cancelled);
      }
      r := if index < |stages| then RunAt(index) else Finish;
    }
  }

  // ---- Guards and the context ----------------------------------------------------------------------

  /** What undoes one execution of a stage. */
  datatype Guard = FileGuard(written: seq<WrittenFile>) | StepGuard(steps: seq<Step>) | NoRollback

  function Undone(files: Files, guard: Guard): Files {
    match guard
    case FileGuard(written) => RestoredAll(files, written)
    case StepGuard(steps) => UndoSteps(files, steps).files
    case NoRollback => files
  }

  function Unwound(files: Files, guards: seq<Guard>): Files
    decreases |guards|
  {
    if guards == [] then files else Unwound(Undone(files, guards[|guards| - 1]), guards[..|guards| - 1])
  }

  lemma NothingToUnwind(files: Files)
    ensures Unwound(files, []) == files
  {
  }

  function Reverse<T>(s: seq<T>): (r: seq<T>)
    ensures |r| == |s| && forall i :: 0 <= i < |s| ==> r[i] == s[|s| - 1 - i]
  {
    if s == [] then [] else [s[|s| - 1]] + Reverse(s[..|s| - 1])
  }

  lemma {:induction false} ReverseAppend<T>(s: seq<T>, t: seq<T>)
    ensures Reverse(s + t) == Reverse(t) + Reverse(s)
    decreases |t|
  {
    if t == [] {
      assert s + t == s;
    } else {
      assert (s + t)[..|s + t| - 1] == s + t[..|t| - 1];
      ReverseAppend(s, t[..|t| - 1]);
    }
  }

  /** What executing something leaves behind before anything is unwound: the disk, the guards handed over, and whether
      it went through. */
  datatype Effect = Effect(files: Files, guards: seq<Guard>, ok: bool)

  /** The disk, the stack, every guard handed over so far and every guard rolled back so far. */
  datatype Snapshot = Snapshot(files: Files, rollback: seq<Guard>, handed: seq<Guard>, undone: seq<Guard>)

  /** Something with this effect has gone through, or has failed and every guard has been rolled back, once, last
      first. */
  ghost predicate Ended(before: Snapshot, after: Snapshot, e: Effect) {
    after == if e.ok then Snapshot(e.files, before.rollback + e.guards, before.handed + e.guards, before.undone)
             else Snapshot(Unwound(e.files, before.rollback + e.guards), [], before.handed + e.guards,
                           before.undone + Reverse(before.rollback + e.guards))
  }

  class Context {
    const disk: DiskState
    var rollback: seq<Guard>

    /** Every guard handed over so far, and every guard rolled back so far, in order. */
    ghost var handed: seq<Guard>
    ghost var undone: seq<Guard>

    constructor (disk: DiskState)
      ensures this.disk == disk && rollback == [] && handed == [] && undone == []
    {
      this.disk, rollback, handed, undone := disk, [], [], [];
    }

    ghost function Now(): Snapshot
      reads this, disk
    {
      Snapshot(disk.files, rollback, handed, undone)
    }

    method Push(guard: Guard)
      modifies this
      ensures rollback == old(rollback) + [guard] && handed == old(handed) + [guard] && undone == old(undone)
    {
      rollback, handed := rollback + [guard], handed + [guard];
    }

    /** Rolls back every guard, last first; a guard that fails to roll back does not stop the others. */
    method Unwind()
      modifies this, disk
      ensures rollback == [] && handed == old(handed)
      ensures undone == old(undone) + Reverse(old(rollback))
      ensures disk.files == Unwound(old(disk.files), old(rollback))
    {
      while rollback != []
        invariant handed == old(handed)
        invariant undone + Reverse(rollback) == old(undone) + Reverse(old(rollback))
        invariant Unwound(disk.files, rollback) == Unwound(old(disk.files), old(rollback))
        decreases |rollback|
      {
        var guard := rollback[|rollback| - 1];
        rollback := rollback[..|rollback| - 1];
        match guard {
          case FileGuard(written) =>
            disk.RollbackWrites(written);
          case StepGuard(steps) =>
            var _ := disk.RollbackSteps(steps);
          case NoRollback =>
        }
        undone := undone + [guard];
      }
    }

    /** Runs hooks one after the other, each with its guard; the first that fails unwinds everything. */
    method RunHooks(hooks: seq<Hook>) returns (ok: bool)
      modifies this, disk
      ensures ok == HooksEffect(old(disk.files), hooks).ok
      ensures Ended(old(Now()), Now(), HooksEffect(old(disk.files), hooks))
    {
      hide RunSteps, UndoSteps, AllLossless, Execute, Reverse, Unwound;
      ghost var whole := HooksEffect(disk.files, hooks);
      for i := 0 to |hooks|
        invariant Continues(whole, old(handed), handed, HooksEffect(disk.files, hooks[i..]))
        invariant Continues(whole, old(rollback), rollback, HooksEffect(disk.files, hooks[i..]))
        invariant undone == old(undone)
      {
        assert hooks[i..][0] == hooks[i] && hooks[i..][1..] == hooks[i + 1..];
        var done, executed, _ := disk.RunHook(hooks[i]);
        if !done {
          assert rollback + [] == rollback && handed + [] == handed;
          Unwind();
          return false;
        }
        Push(StepGuard(executed));
      }
      ok := true;
    }
  }

  /** Of the whole effect, the guards `soFar` beyond `before` are there, and `rest` is still to come. */
  ghost predicate Continues(whole: Effect, before: seq<Guard>, soFar: seq<Guard>, rest: Effect) {
    && whole.files == rest.files && whole.ok == rest.ok
    && before + whole.guards == soFar + rest.guards
  }

  /** Hooks run one after the other; a critical one that is refused a step takes its own steps back and ends it. */
  function HooksEffect(files: Files, hooks: seq<Hook>): Effect
    decreases |hooks|
  {
    if hooks == [] then Effect(files, [], true)
    else
      var run := RunSteps(files, hooks[0].steps);
      if run.complete || !hooks[0].critical then
        var rest := HooksEffect(run.files, hooks[1..]);
        rest.(guards := [StepGuard(run.executed)] + rest.guards)
      else Effect(UndoSteps(run.files, run.executed).files, [], false)
  }

  /** The disks that hooks go through, one after the other. */
  ghost predicate IsHookTrace(trace: seq<Files>, files: Files, hooks: seq<Hook>) {
    && 0 < |trace| <= |hooks| + 1 && trace[0] == files
    && forall i :: 0 <= i < |trace| - 1 ==> trace[i + 1] == RunSteps(trace[i], hooks[i].steps).files
  }

  /** Every hook of a list is run, each with one guard for the steps it executed, unless a critical one is refused a
      step: then those before it have been run, and it has taken its own steps back. */
  lemma {:induction false} HooksRunInOrder(files: Files, hooks: seq<Hook>) returns (trace: seq<Files>)
    ensures IsHookTrace(trace, files, hooks)
    ensures var e, last := HooksEffect(files, hooks), |trace| - 1;
            && |e.guards| == last
            && (forall i :: 0 <= i < last ==> e.guards[i] == StepGuard(RunSteps(trace[i], hooks[i].steps).executed)
                                              && (hooks[i].critical ==> RunSteps(trace[i], hooks[i].steps).complete))
            && (e.ok <==> last == |hooks|)
            && (e.ok ==> e.files == trace[last])
            && (!e.ok ==> var run := RunSteps(trace[last], hooks[last].steps);
                          hooks[last].critical && !run.complete && e.files == UndoSteps(run.files, run.executed).files)
    decreases |hooks|
  {
    hide RunSteps, UndoSteps;
    trace := [files];
    if hooks != [] {
      var run := RunSteps(files, hooks[0].steps);
      if run.complete || !hooks[0].critical {
        var rest := HooksRunInOrder(run.files, hooks[1..]);
        trace := [files] + rest;
        assert forall i :: 0 < i < |trace| ==> trace[i] == rest[i - 1];
        assert forall i :: 0 < i < |hooks| ==> hooks[i] == hooks[1..][i - 1];
      }
    }
  }

  // ---- Stages --------------------------------------------------------------------------------------

  /** The part of an execution that hands over a guard. */
  datatype Work = Nothing | Writes(ops: seq<Write>) | Hooks(hooks: seq<Hook>)

  /** One turn.

      `loose` is what the execution writes without handing over a guard, such as the sequence counter or a boot entry;
      it happens also when the execution then fails.
    */
  datatype Turn = Turn(cancelled: bool, fails: bool, loose: seq<Write>, work: Work, result: StageResult)

  /** What one execution leaves behind. */
  function TurnEffect(files: Files, turn: Turn): Effect {
    var written := Written(files, turn.loose);
    if turn.fails then Effect(written, [], false)
    else
      match turn.work
      case Nothing => Effect(written, [NoRollback], true)
      case Writes(ops) => Effect(Written(written, ops), [FileGuard(Remembered(written, ops))], true)
      case Hooks(hooks) =>
        var e := HooksEffect(written, hooks);
        if e.ok then e.(guards := e.guards + [StepGuard([])]) else e
  }

  /** What the first `n` executions leave behind. */
  function RunEffect(files: Files, script: seq<Turn>, n: nat): Effect
    requires n <= |script|
  {
    if n == 0 then Effect(files, [], true)
    else
      var before := RunEffect(files, script, n - 1);
      var last := TurnEffect(before.files, script[n - 1]);
      Effect(last.files, before.guards + last.guards, before.ok && last.ok)
  }

  /** No hook, up to the first that fails, loses anything. */
  ghost predicate LosslessHooks(files: Files, hooks: seq<Hook>)
    decreases |hooks|
  {
    hooks == []
    || (var run := RunSteps(files, hooks[0].steps);
        && AllLossless(files, hooks[0].steps)
        && (run.complete || !hooks[0].critical ==> LosslessHooks(run.files, hooks[1..])))
  }

  /** Undoing the guarded part brings back the disk it started from. */
  ghost predicate Reversible(files: Files, turn: Turn) {
    var written := Written(files, turn.loose);
    turn.fails
    || match turn.work
       case Nothing => true
       case Writes(ops) => forall p :: p in PathsOf(ops) ==> !IsLink(written, p)
       case Hooks(hooks) => LosslessHooks(written, hooks)
  }

  /** An execution goes through unless it fails or one of its hooks does; its loose writes happen either way, its other
      work only when it does not fail; and if it goes through, the last guard it hands over is its own. */
  lemma TurnGoesThrough(files: Files, turn: Turn)
    ensures var e, written := TurnEffect(files, turn), Written(files, turn.loose);
            && (e.ok <==> !turn.fails && (turn.work.Hooks? ==> HooksEffect(written, turn.work.hooks).ok))
            && (turn.fails ==> e.files == written && e.guards == [])
            && (!turn.fails && turn.work.Nothing? ==> e.files == written && e.guards == [NoRollback])
            && (!turn.fails && turn.work.Writes? ==>
                  && e.files == Written(written, turn.work.ops)
                  && e.guards == [FileGuard(Remembered(written, turn.work.ops))])
            && (!turn.fails && turn.work.Hooks? ==>
                  var hooks := HooksEffect(written, turn.work.hooks);
                  && e.files == hooks.files
                  && e.guards == hooks.guards + if e.ok then [StepGuard([])] else [])
  {
    hide Written, HooksEffect, Remembered;
    if !turn.fails && turn.work.Hooks? {
      var hooks := HooksEffect(Written(files, turn.loose), turn.work.hooks);
      assert hooks.guards + [] == hooks.guards;
    }
  }

  /** The disks that executions go through, one after the other. */
  ghost predicate IsRunTrace(trace: seq<Files>, files: Files, script: seq<Turn>, n: nat)
    requires n <= |script|
  {
    && |trace| == n + 1 && trace[0] == files
    && forall k :: 0 <= k < n ==> trace[k + 1] == TurnEffect(trace[k], script[k]).files
  }

  /** The executions happen one after the other, each on the disk the one before left; the run goes through if all of
      them do, and the guards are theirs in order. */
  lemma {:induction false} RunGoesThrough(files: Files, script: seq<Turn>, n: nat) returns (trace: seq<Files>)
    requires n <= |script|
    ensures IsRunTrace(trace, files, script, n) && RunEffect(files, script, n).files == trace[n]
    ensures RunEffect(files, script, n).ok <==> forall k :: 0 <= k < n ==> TurnEffect(trace[k], script[k]).ok
    ensures RunEffect(files, script, n).guards
         == if n == 0 then []
            else RunEffect(files, script, n - 1).guards + TurnEffect(trace[n - 1], script[n - 1]).guards
  {
    hide TurnEffect;
    if n == 0 {
      trace := [files];
    } else {
      var shorter := RunGoesThrough(files, script, n - 1);
      var last := TurnEffect(shorter[n - 1], script[n - 1]);
      trace := shorter + [last.files];
      assert forall k :: 0 <= k < n ==> trace[k] == shorter[k];
      assert (forall k :: 0 <= k < n ==> TurnEffect(trace[k], script[k]).ok)
        <==> last.ok && forall k :: 0 <= k < n - 1 ==> TurnEffect(shorter[k], script[k]).ok;
    }
  }

  // ---- Unwinding a run -----------------------------------------------------------------------------

  lemma {:induction false} UnwoundTwice(files: Files, guards: seq<Guard>, more: seq<Guard>)
    ensures Unwound(files, guards + more) == Unwound(Unwound(files, more), guards)
    decreases |more|
  {
    if more == [] {
      assert guards + more == guards;
    } else {
      var last, rest := more[|more| - 1], more[..|more| - 1];
      assert (guards + more)[..|guards + more| - 1] == guards + rest;
      UnwoundTwice(Undone(files, last), guards, rest);
    }
  }

  lemma UnwoundOne(files: Files, guard: Guard)
    ensures Unwound(files, [guard]) == Undone(files, guard)
  {
    assert Unwound(Undone(files, guard), [guard][..0]) == Undone(files, guard);
  }

  lemma {:induction false} HooksUndone(files: Files, hooks: seq<Hook>)
    requires LosslessHooks(files, hooks)
    ensures Unwound(HooksEffect(files, hooks).files, HooksEffect(files, hooks).guards) == files
    decreases |hooks|
  {
    hide RunSteps, UndoSteps, AllLossless;
    if hooks != [] {
      var run := RunSteps(files, hooks[0].steps);
      StepsUndoExactly(files, hooks[0].steps);
      if run.complete || !hooks[0].critical {
        var rest := HooksEffect(run.files, hooks[1..]);
        HooksUndone(run.files, hooks[1..]);
        UnwoundTwice(rest.files, [StepGuard(run.executed)], rest.guards);
        UnwoundOne(run.files, StepGuard(run.executed));
      }
    }
  }

  /** Unwinding a reversible turn leaves its loose writes. */
  lemma TurnUndone(files: Files, turn: Turn)
    requires Reversible(files, turn)
    ensures var e := TurnEffect(files, turn); Unwound(e.files, e.guards) == Written(files, turn.loose)
  {
    hide LosslessHooks, RestoredAll, PathsOf, IsLink, HooksEffect, Remembered;
    var written := Written(files, turn.loose);
    if !turn.fails {
      match turn.work
      case Nothing =>
        UnwoundOne(written, NoRollback);
      case Writes(ops) =>
        UnwoundOne(Written(written, ops), FileGuard(Remembered(written, ops)));
        WritesUndoExactly(written, ops);
      case Hooks(hooks) =>
        var e := HooksEffect(written, hooks);
        HooksUndone(written, hooks);
        UnwoundTwice(e.files, e.guards, [StepGuard([])]);
        UnwoundOne(e.files, StepGuard([]));
    }
  }

  /** The paths a guard may change when it is rolled back. */
  function PathsOfStep(step: Step): set<FilePath> {
    match step
    case TouchFile(path, _) => {path}
    case MoveFile(from, to) => {from, to}
    case CreateSymlink(_, link) => {link}
  }

  function PathsOfGuard(guard: Guard): set<FilePath> {
    match guard
    case FileGuard(written) => set i | 0 <= i < |written| :: written[i].path
    case StepGuard(steps) => set i, p | 0 <= i < |steps| && p in PathsOfStep(steps[i]) :: p
    case NoRollback => {}
  }

  predicate Spares(guards: seq<Guard>, p: FilePath) {
    forall i :: 0 <= i < |guards| ==> p !in PathsOfGuard(guards[i])
  }

  lemma {:induction false} RestoredElsewhere(files: Files, ws: seq<WrittenFile>, p: FilePath, entry: Entry)
    requires forall i :: 0 <= i < |ws| ==> ws[i].path != p
    ensures RestoredAll(files[p := entry], ws) == RestoredAll(files, ws)[p := entry]
    decreases |ws|
  {
    if ws != [] {
      var w := ws[|ws| - 1];
      assert Restored(files[p := entry], w) == Restored(files, w)[p := entry];
      RestoredElsewhere(Restored(files, w), ws[..|ws| - 1], p, entry);
    }
  }

  lemma UndoneStepElsewhere(files: Files, step: Step, p: FilePath, entry: Entry)
    requires p !in PathsOfStep(step)
    ensures match UndoStep(files, step)
            case None => UndoStep(files[p := entry], step) == None
            case Some(files') => UndoStep(files[p := entry], step) == Some(files'[p := entry])
  {
    match step
    case TouchFile(path, _) =>
      assert files[p := entry] - {path} == (files - {path})[p := entry];
    case MoveFile(from, to) =>
      if to in files {
        assert files[p := entry][from := files[to]] - {to} == (files[from := files[to]] - {to})[p := entry];
      }
    case CreateSymlink(_, link) =>
      assert files[p := entry] - {link} == (files - {link})[p := entry];
  }

  lemma {:induction false} UndoneStepsElsewhere(files: Files, steps: seq<Step>, p: FilePath, entry: Entry)
    requires forall i :: 0 <= i < |steps| ==> p !in PathsOfStep(steps[i])
    ensures UndoSteps(files[p := entry], steps).files == UndoSteps(files, steps).files[p := entry]
    decreases |steps|
  {
    hide UndoStep, PathsOfStep;
    if steps != [] {
      var step := steps[|steps| - 1];
      UndoneStepElsewhere(files, step, p, entry);
      var undone := UndoStep(files, step);
      if undone.Some? {
        UndoneStepsElsewhere(undone.value, steps[..|steps| - 1], p, entry);
      }
    }
  }

  lemma UndoneElsewhere(files: Files, guard: Guard, p: FilePath, entry: Entry)
    requires p !in PathsOfGuard(guard)
    ensures Undone(files[p := entry], guard) == Undone(files, guard)[p := entry]
  {
    hide RestoredAll, UndoSteps, PathsOfStep;
    match guard
    case FileGuard(written) =>
      RestoredElsewhere(files, written, p, entry);
    case StepGuard(steps) =>
      forall i | 0 <= i < |steps| ensures p !in PathsOfStep(steps[i]) {
      }
      UndoneStepsElsewhere(files, steps, p, entry);
    case NoRollback =>
  }

  /** A path no guard is about keeps, through the unwinding, what was written there. */
  lemma {:induction false} UnwoundElsewhere(files: Files, guards: seq<Guard>, p: FilePath, entry: Entry)
    requires Spares(guards, p)
    ensures Unwound(files[p := entry], guards) == Unwound(files, guards)[p := entry]
    decreases |guards|
  {
    hide Undone, PathsOfGuard;
    if guards != [] {
      var last, rest := guards[|guards| - 1], guards[..|guards| - 1];
      UndoneElsewhere(files, last, p, entry);
      assert forall i :: 0 <= i < |rest| ==> rest[i] == guards[i];
      UnwoundElsewhere(Undone(files, last), rest, p, entry);
    }
  }

  lemma {:induction false} LooseWritesStay(files: Files, guards: seq<Guard>, loose: seq<Write>)
    requires forall i :: 0 <= i < |loose| ==> Spares(guards, loose[i].path)
    ensures Unwound(Written(files, loose), guards) == Written(Unwound(files, guards), loose)
    decreases |loose|
  {
    hide Unwound, Spares;
    if loose != [] {
      UnwoundElsewhere(files, guards, loose[0].path, File(loose[0].content));
      assert forall i :: 0 <= i < |loose| - 1 ==> loose[1..][i] == loose[i + 1];
      LooseWritesStay(files[loose[0].path := File(loose[0].content)], guards, loose[1..]);
    }
  }

  lemma {:induction false} WrittenTwice(files: Files, ops: seq<Write>, more: seq<Write>)
    ensures Written(files, ops + more) == Written(Written(files, ops), more)
    decreases |ops|
  {
    if ops == [] {
      assert ops + more == more;
    } else {
      assert (ops + more)[1..] == ops[1..] + more;
      WrittenTwice(files[ops[0].path := File(ops[0].content)], ops[1..], more);
    }
  }

  /** Each of the first `n` executions was reversible when it started. */
  ghost predicate AllReversible(files: Files, script: seq<Turn>, n: nat)
    requires n <= |script|
  {
    forall k :: 0 <= k < n ==> Reversible(RunEffect(files, script, k).files, script[k])
  }

  /** No loose write of the first `n` executions hits a path that an earlier guard is about. */
  ghost predicate LooseApart(files: Files, script: seq<Turn>, n: nat)
    requires n <= |script|
  {
    forall k, i :: 0 <= k < n && 0 <= i < |script[k].loose| ==>
      Spares(RunEffect(files, script, k).guards, script[k].loose[i].path)
  }

  /** The loose writes of the first `n` executions. */
  function Residue(script: seq<Turn>, n: nat): seq<Write>
    requires n <= |script|
  {
    if n == 0 then [] else Residue(script, n - 1) + script[n - 1].loose
  }

  /** Unwinding a run whose executions were reversible takes back everything except exactly its loose writes. */
  lemma {:induction false} RunUndone(files: Files, script: seq<Turn>, n: nat)
    requires n <= |script| && AllReversible(files, script, n) && LooseApart(files, script, n)
    ensures var e := RunEffect(files, script, n); Unwound(e.files, e.guards) == Written(files, Residue(script, n))
  {
    hide TurnEffect, Unwound, Written, Spares, Reversible;
    if n == 0 {
      NothingToUnwind(files);
      NothingWritten(files);
    } else {
      var before, turn := RunEffect(files, script, n - 1), script[n - 1];
      var last := TurnEffect(before.files, turn);
      UnwoundTwice(last.files, before.guards, last.guards);
      TurnUndone(before.files, turn);
      LooseWritesStay(before.files, before.guards, turn.loose);
      RunUndone(files, script, n - 1);
      WrittenTwice(files, Residue(script, n - 1), turn.loose);
    }
  }

  lemma NothingWritten(files: Files)
    ensures Written(files, []) == files
  {
  }

  /** A run that wrote nothing without a guard is undone entirely. */
  lemma {:induction false} NoResidue(script: seq<Turn>, n: nat)
    requires n <= |script| && forall k :: 0 <= k < n ==> script[k].loose == []
    ensures Residue(script, n) == []
  {
    if n > 0 {
      NoResidue(script, n - 1);
    }
  }

  // ---- When undoing a run is exact -------------------------------------------------------------------

  /** The run only writes files, each under a guard. */
  predicate OnlyWrites(script: seq<Turn>, n: nat)
    requires n <= |script|
  {
    forall k :: 0 <= k < n ==> script[k].loose == [] && (script[k].fails || !script[k].work.Hooks?)
  }

  /** All the writes of such a run. */
  function AllWrites(script: seq<Turn>, n: nat): seq<Write>
    requires n <= |script|
  {
    if n == 0 then []
    else AllWrites(script, n - 1) + WritesOf(script[n - 1])
  }

  function WritesOf(turn: Turn): seq<Write> {
    if turn.fails || !turn.work.Writes? then [] else turn.work.ops
  }

  lemma {:induction false} RememberedTwice(files: Files, ops: seq<Write>, more: seq<Write>)
    ensures Remembered(files, ops + more) == Remembered(files, ops) + Remembered(Written(files, ops), more)
    decreases |ops|
  {
    hide Read;
    if ops == [] {
      assert ops + more == more;
    } else {
      assert (ops + more)[1..] == ops[1..] + more;
      RememberedTwice(files[ops[0].path := File(ops[0].content)], ops[1..], more);
    }
  }

  lemma {:induction false} RestoredTwice(files: Files, ws: seq<WrittenFile>, more: seq<WrittenFile>)
    ensures RestoredAll(files, ws + more) == RestoredAll(RestoredAll(files, more), ws)
    decreases |more|
  {
    hide Restored;
    if more == [] {
      assert ws + more == ws;
    } else {
      var last, rest := more[|more| - 1], more[..|more| - 1];
      assert (ws + more)[..|ws + more| - 1] == ws + rest;
      RestoredTwice(Restored(files, last), ws, rest);
    }
  }

  /** One turn of such a run writes its files, and unwinding it restores them. */
  lemma WritingTurn(files: Files, turn: Turn, later: Files)
    requires turn.loose == [] && (turn.fails || !turn.work.Hooks?)
    ensures TurnEffect(files, turn).files == Written(files, WritesOf(turn))
    ensures Unwound(later, TurnEffect(files, turn).guards) == RestoredAll(later, Remembered(files, WritesOf(turn)))
  {
    NothingWritten(files);
    NothingToUnwind(later);
    if !turn.fails {
      if turn.work.Writes? {
        UnwoundOne(later, FileGuard(Remembered(files, turn.work.ops)));
      } else {
        UnwoundOne(later, NoRollback);
      }
    }
  }

  lemma {:induction false} WritingRun(files: Files, script: seq<Turn>, n: nat, later: Files)
    requires n <= |script| && OnlyWrites(script, n)
    ensures RunEffect(files, script, n).files == Written(files, AllWrites(script, n))
    ensures Unwound(later, RunEffect(files, script, n).guards)
         == RestoredAll(later, Remembered(files, AllWrites(script, n)))
  {
    hide TurnEffect, Unwound, Written, Remembered, RestoredAll, WritesOf;
    if n == 0 {
      NothingWritten(files);
      NothingToUnwind(later);
      NothingRemembered(files, later);
    } else {
      var before, turn := RunEffect(files, script, n - 1), script[n - 1];
      var ops, more := AllWrites(script, n - 1), WritesOf(turn);
      WritingTurn(before.files, turn, later);
      UnwoundTwice(later, before.guards, TurnEffect(before.files, turn).guards);
      WritingRun(files, script, n - 1, Unwound(later, TurnEffect(before.files, turn).guards));
      WrittenTwice(files, ops, more);
      RememberedTwice(files, ops, more);
      RestoredTwice(later, Remembered(files, ops), Remembered(Written(files, ops), more));
    }
  }

  lemma NothingRemembered(files: Files, later: Files)
    ensures Remembered(files, []) == [] && RestoredAll(later, []) == later
  {
  }

  /** A run that only writes files under guards is undone if and only if no file it wrote was a symbolic link before the
      run. */
  lemma WritingRunUndoneExactly(files: Files, script: seq<Turn>, n: nat)
    requires n <= |script| && OnlyWrites(script, n)
    ensures var e := RunEffect(files, script, n);
            Unwound(e.files, e.guards) == files
            <==> forall p :: p in PathsOf(AllWrites(script, n)) ==> !IsLink(files, p)
  {
    hide RunEffect, Unwound, Written, Remembered, RestoredAll, PathsOf, IsLink, AllWrites, OnlyWrites;
    WritingRun(files, script, n, RunEffect(files, script, n).files);
    WritesUndoExactly(files, AllWrites(script, n));
  }

  /** With hooks, reversibility of each execution is more than is needed: a link that a hook creates and a later
      execution overwrites is gone once both have been unwound. */
  lemma ReversibleIsNotNeeded(content: Bytes)
    ensures var script := [Turn(false, false, [], Hooks([Hook(true, [CreateSymlink("target", "link")])]), Advance),
                           Turn(false, false, [], Writes([Write("link", content)]), Advance)];
            var e := RunEffect(map[], script, 2);
            Unwound(e.files, e.guards) == map[] && !AllReversible(map[], script, 2)
  {
    hide Unwound, Written, RestoredAll;
    var step, write := CreateSymlink("target", "link"), Write("link", content);
    var hook := Hook(true, [step]);
    var first := Turn(false, false, [], Hooks([hook]), Advance);
    var second := Turn(false, false, [], Writes([write]), Advance);
    var script := [first, second];
    var linked: Files := map["link" := Link("target")];
    CreatesLink(step, hook, linked);
    NothingWritten(map[]);
    NothingWritten(linked);
    assert RunEffect(map[], script, 0) == Effect(map[], [], true);
    assert TurnEffect(map[], first) == Effect(linked, [StepGuard([step]), StepGuard([])], true);
    assert RunEffect(map[], script, 1) == Effect(linked, [StepGuard([step]), StepGuard([])], true);
    OverwritesLink(write, linked);
    assert "link" in PathsOf([write]) && IsLink(linked, "link") by {
      assert [write][0].path == "link";
    }
    assert !Reversible(linked, second);
    assert script[1] == second;
    var written: Files := map["link" := File(content)];
    assert TurnEffect(linked, second) == Effect(written, [FileGuard([WrittenFile("link", None)])], true);
    UnwoundTwice(written, [StepGuard([step]), StepGuard([])], [FileGuard([WrittenFile("link", None)])]);
    UnwoundOne(written, FileGuard([WrittenFile("link", None)]));
    RemovedLink(written, step);
  }

  lemma CreatesLink(step: Step, hook: Hook, linked: Files)
    requires step == CreateSymlink("target", "link") && hook == Hook(true, [step])
    requires linked == map["link" := Link("target")]
    ensures HooksEffect(map[], [hook]) == Effect(linked, [StepGuard([step])], true)
  {
    assert map[]["link" := Link("target")] == linked;
    assert RunSteps(linked, [step][1..]) == StepsRun(linked, [], true);
    assert RunSteps(map[], [step]) == StepsRun(linked, [step], true);
    assert HooksEffect(linked, [hook][1..]) == Effect(linked, [], true);
  }

  lemma OverwritesLink(write: Write, linked: Files)
    requires write.path == "link" && linked == map["link" := Link("target")]
    ensures Written(linked, [write]) == map["link" := File(write.content)]
    ensures Remembered(linked, [write]) == [WrittenFile("link", None)]
  {
    assert Follow(linked, "link", MAX_LINKS) == Missing("target");
    var written := linked["link" := File(write.content)];
    assert Written(written, [write][1..]) == written && Remembered(written, [write][1..]) == [];
  }

  lemma RemovedLink(written: Files, step: Step)
    requires written.Keys == {"link"} && step == CreateSymlink("target", "link")
    ensures Undone(written, FileGuard([WrittenFile("link", None)])) == map[]
    ensures Unwound(map[], [StepGuard([step]), StepGuard([])]) == map[]
  {
    var ws := [WrittenFile("link", None)];
    assert Restored(written, ws[0]) == map[];
    assert RestoredAll(map[], ws[..0]) == map[];
    var guards := [StepGuard([step]), StepGuard([])];
    assert guards[..1] == [StepGuard([step])];
    UnwoundOne(map[], StepGuard([step]));
  }

  // ---- Walking through the stages ------------------------------------------------------------------

  /** Where a result sends the cursor. */
  predicate Follows(stages: seq<StageType>, index: nat, result: StageResult, next: nat) {
    && index < |stages|
    && match result
       case Advance => next == index + 1
       case Repeat => next == index
       case RepeatBack(target) => IsNearestBefore(stages, index, target, next)
  }

  datatype RunResult = Finished | Failed(index: nat, error: RunError) | StillRunning

  /** The executed stages start at the first one and each follows from the result before it. */
  predicate IsWalk(stages: seq<StageType>, script: seq<Turn>, visited: seq<nat>) {
    && |visited| <= |script|
    && (forall k :: 0 <= k < |visited| ==> visited[k] < |stages|)
    && (visited != [] ==> visited[0] == 0)
    && forall k :: 0 < k < |visited| ==> Follows(stages, visited[k - 1], script[k - 1].result, visited[k])
  }

  /** After the walk the cursor stands at `next`. */
  predicate LeavesFor(stages: seq<StageType>, script: seq<Turn>, visited: seq<nat>, next: nat) {
    if visited == [] then next == 0
    else |visited| <= |script| && Follows(stages, visited[|visited| - 1], script[|visited| - 1].result, next)
  }

  lemma NoWalk(stages: seq<StageType>, script: seq<Turn>)
    ensures IsWalk(stages, script, [])
  {
  }

  lemma ExtendWalk(stages: seq<StageType>, script: seq<Turn>, visited: seq<nat>, next: nat)
    requires IsWalk(stages, script, visited) && LeavesFor(stages, script, visited, next)
    requires next < |stages| && |visited| < |script|
    ensures IsWalk(stages, script, visited + [next])
  {
  }

  /** Why a run that executed `visited` has ended, and where. */
  ghost predicate EndsAs(stages: seq<StageType>, script: seq<Turn>, visited: seq<nat>, r: RunResult) {
    match r
    case StillRunning => |visited| == |script|
    case Finished =>
      |visited| < |script| && !script[|visited|].cancelled && LeavesFor(stages, script, visited, |stages|)
    case Failed(index, Cancelled) =>
      |visited| < |script| && script[|visited|].cancelled && LeavesFor(stages, script, visited, index)
    case Failed(index, StageNotFound) =>
      && 0 < |visited| <= |script| && visited[|visited| - 1] == index < |stages|
      && script[|visited| - 1].result.RepeatBack? && script[|visited| - 1].result.target !in stages[..index]
    case Failed(index, StageError) =>
      0 < |visited| && visited[|visited| - 1] == index
  }

  class SequentialOrchestrator {
    const cursor: Cursor
    const context: Context

    constructor (stages: seq<StageType>, context: Context)
      ensures fresh(cursor) && cursor.stages == stages && cursor.index == 0
      ensures this.context == context
    {
      cursor := new Cursor(stages);
      this.context := context;
    }

    /** Runs the stage under the cursor: on success its guards are on the stack, on failure everything is unwound. */
    method RunStage(turn: Turn) returns (ok: bool)
      modifies context, context.disk
      ensures ok == TurnEffect(old(context.disk.files), turn).ok
      ensures Ended(old(context.Now()), context.Now(), TurnEffect(old(context.disk.files), turn))
    {
      hide HooksEffect, Written, Remembered, RestoredAll, Reverse, Unwound;
      var _ := context.disk.WriteAll(turn.loose);
      if turn.fails {
        assert context.rollback + [] == context.rollback && context.handed + [] == context.handed;
        context.Unwind();
        return false;
      }
      match turn.work {
        case Nothing =>
          context.Push(NoRollback);
        case Writes(ops) =>
          var written := context.disk.WriteAll(ops);
          context.Push(FileGuard(written));
        case Hooks(hooks) =>
          ok := RunHookStage(hooks);
          return;
      }
      ok := true;
    }

    /** The hook stage: when a hook fails the stack has been unwound already, and is unwound again. */
    method RunHookStage(hooks: seq<Hook>) returns (ok: bool)
      modifies context, context.disk
      ensures var e := HooksEffect(old(context.disk.files), hooks);
              && ok == e.ok
              && Ended(old(context.Now()), context.Now(), if e.ok then e.(guards := e.guards + [StepGuard([])]) else e)
    {
      hide HooksEffect, Reverse;
      ok := context.RunHooks(hooks);
      if !ok {
        NothingReversed();
        context.Unwind();
        return;
      }
      context.Push(StepGuard([]));
    }

    /** A whole run, for any script.

        The visited stages follow the results.  What went through is exactly what the executed turns do, and its guards
        are on the stack in order.  If the run failed, every guard has been rolled back, once, last first; the disk is
        then what unwinding makes of it, which, where every execution was reversible, is the disk before the run with
        the loose writes.
      */
    method Run(script: seq<Turn>) returns (r: RunResult, ghost visited: seq<nat>)
      requires cursor.index == 0
      modifies cursor, context, context.disk
      ensures cursor.index <= |cursor.stages|
      ensures IsWalk(cursor.stages, script, visited)
      ensures |visited| <= |script| && forall k :: 0 <= k < |visited| ==> !script[k].cancelled
      ensures Ended(old(context.Now()), context.Now(),
                    RunEffect(old(context.disk.files), script, |visited|).(ok := !r.Failed?))
      ensures r.Failed? && old(context.rollback) == [] && AllReversible(old(context.disk.files), script, |visited|)
              && LooseApart(old(context.disk.files), script, |visited|) ==>
                context.disk.files == Written(old(context.disk.files), Residue(script, |visited|))
      ensures RunEffect(old(context.disk.files), script, |visited|).ok <==> !(r.Failed? && r.error == StageError)
      ensures EndsAs(cursor.stages, script, visited, r)
      ensures r.Failed? && r.error == StageError ==>
                |visited| > 0 && RunEffect(old(context.disk.files), script, |visited| - 1).ok
    {
      hide IsWalk, Ended, TurnEffect, RunEffect, AllReversible, LooseApart, Written, EndsAs, StandsAt, Unwound, Reverse,
           Follows, LeavesFor;
      ghost var before := context.Now();
      visited := [];
      NoWalk(cursor.stages, script);
      NothingRun(before, script);
      var previous: Option<StageResult> := None;
      for k := 0 to |script|
        invariant cursor.index <= |cursor.stages| && (previous.Some? ==> cursor.index < |cursor.stages|)
        invariant |visited| == k && IsWalk(cursor.stages, script, visited)
        invariant RunEffect(before.files, script, k).ok
        invariant Ended(before, context.Now(), RunEffect(before.files, script, k))
        invariant forall j :: 0 <= j < k ==> !script[j].cancelled
        invariant StandsAt(script, visited, previous, cursor.index)
      {
        var turn := script[k];
        ghost var middle, from := context.Now(), cursor.index;
        var next := cursor.Next(context, turn.cancelled, previous);
        AfterMove(cursor.stages, script, visited, previous, from, cursor.index, next);
        if next.Stop? {
          EndedByStop(before, middle, context.Now(), RunEffect(before.files, script, k));
          UndoneIfReversible(before, context.Now(), script, k);
          return Failed(next.index, next.error), visited;
        }
        if next.Finish? {
          return Finished, visited;
        }
        ExtendWalk(cursor.stages, script, visited, cursor.index);
        visited := visited + [cursor.index];
        var ok := RunStage(turn);
        EndedTwice(before, middle, context.Now(), RunEffect(before.files, script, k), TurnEffect(middle.files, turn));
        OneMoreTurn(before, middle, script, k);
        AfterTurn(cursor.stages, script, visited, cursor.index);
        if !ok {
          UndoneIfReversible(before, context.Now(), script, k + 1);
          return Failed(cursor.index, StageError), visited;
        }
        previous := Some(turn.result);
      }
      StillGoing(cursor.stages, script, visited);
      r := StillRunning;
    }
  }

  /** The cursor stands at the stage last executed, or at the first if none has been. */
  ghost predicate StandsAt(script: seq<Turn>, visited: seq<nat>, previous: Option<StageResult>, index: nat) {
    && |visited| <= |script|
    && if visited == [] then previous.None? && index == 0
       else previous == Some(script[|visited| - 1].result) && index == visited[|visited| - 1]
  }

  lemma NothingRun(before: Snapshot, script: seq<Turn>)
    ensures RunEffect(before.files, script, 0).ok && Ended(before, before, RunEffect(before.files, script, 0))
    ensures StandsAt(script, [], None, 0)
  {
    assert before.rollback + [] == before.rollback && before.handed + [] == before.handed;
  }

  /** What the cursor's answer means for the run. */
  lemma AfterMove(stages: seq<StageType>, script: seq<Turn>, visited: seq<nat>, previous: Option<StageResult>,
                  from: nat,
                  index: nat, next: NextStep)
    requires StandsAt(script, visited, previous, from) && |visited| < |script|
    requires from <= |stages| && (previous.Some? ==> from < |stages|)
    requires next == Stop(index, StageNotFound) ==>
      && index == from && index <= |stages| && previous.Some? && previous.value.RepeatBack?
      && previous.value.target !in stages[..index]
    requires next != Stop(index, StageNotFound) ==>
      && (if previous.None? then index == from else Follows(stages, from, previous.value, index))
      && next == (if script[|visited|].cancelled then Stop(index, Cancelled)
                  else if index < |stages| then RunAt(index) else Finish)
    requires index <= |stages|
    ensures next.Stop? ==> next.error != StageError && EndsAs(stages, script, visited, Failed(next.index, next.error))
    ensures next.Finish? ==> EndsAs(stages, script, visited, Finished)
    ensures next.RunAt? ==> LeavesFor(stages, script, visited, index) && !script[|visited|].cancelled
  {
    hide Follows;
  }

  lemma EndedByStop(before: Snapshot, middle: Snapshot, after: Snapshot, e: Effect)
    requires Ended(before, middle, e) && e.ok
    requires after == Snapshot(Unwound(middle.files, middle.rollback), [], middle.handed,
                               middle.undone + Reverse(middle.rollback))
    ensures Ended(before, after, e.(ok := false))
  {
  }

  lemma OneMoreTurn(before: Snapshot, middle: Snapshot, script: seq<Turn>, k: nat)
    requires k < |script| && RunEffect(before.files, script, k).ok
    requires Ended(before, middle, RunEffect(before.files, script, k))
    ensures var first, second := RunEffect(before.files, script, k), TurnEffect(middle.files, script[k]);
            RunEffect(before.files, script, k + 1) == Effect(second.files, first.guards + second.guards, second.ok)
  {
    hide TurnEffect;
  }

  lemma AfterTurn(stages: seq<StageType>, script: seq<Turn>, visited: seq<nat>, index: nat)
    requires 0 < |visited| <= |script| && visited[|visited| - 1] == index
    ensures StandsAt(script, visited, Some(script[|visited| - 1].result), index)
    ensures EndsAs(stages, script, visited, Failed(index, StageError))
  {
  }

  lemma StillGoing(stages: seq<StageType>, script: seq<Turn>, visited: seq<nat>)
    requires |visited| == |script|
    ensures EndsAs(stages, script, visited, StillRunning)
  {
  }

  lemma EndedTwice(before: Snapshot, middle: Snapshot, after: Snapshot, first: Effect, second: Effect)
    requires Ended(before, middle, first) && first.ok && Ended(middle, after, second)
    ensures Ended(before, after, Effect(second.files, first.guards + second.guards, second.ok))
  {
    hide Unwound, Reverse;
    assert before.rollback + first.guards + second.guards == before.rollback + (first.guards + second.guards);
    assert before.handed + first.guards + second.guards == before.handed + (first.guards + second.guards);
  }

  lemma NothingReversed()
    ensures Reverse<Guard>([]) == []
  {
  }

  lemma UndoneIfReversible(before: Snapshot, after: Snapshot, script: seq<Turn>, n: nat)
    requires n <= |script| && Ended(before, after, RunEffect(before.files, script, n).(ok := false))
    ensures before.rollback == [] && AllReversible(before.files, script, n) && LooseApart(before.files, script, n) ==>
              after.files == Written(before.files, Residue(script, n))
  {
    hide AllReversible, LooseApart, Unwound, Written, RunEffect;
    var e := RunEffect(before.files, script, n);
    assert [] + e.guards == e.guards;
    if before.rollback == [] && AllReversible(before.files, script, n) && LooseApart(before.files, script, n) {
      RunUndone(before.files, script, n);
    }
  }

  // ---- Validation ----------------------------------------------------------------------------------

  datatype Needs = Needs(needed: seq<nat>, provided: set<nat>)

  /** What is available to stage `k`: the initial context and what earlier stages provide. */
  function Available(initial: set<nat>, stages: seq<Needs>, k: nat): set<nat>
    requires k <= |stages|
  {
    if k == 0 then initial else Available(initial, stages, k - 1) + stages[k - 1].provided
  }

  /** A stage can use what is there at the start or what an earlier stage provides, but not what it provides itself. */
  lemma {:induction false} AvailableIs(initial: set<nat>, stages: seq<Needs>, k: nat, x: nat)
    requires k <= |stages|
    ensures x in Available(initial, stages, k) <==> x in initial || exists j :: 0 <= j < k && x in stages[j].provided
  {
    if k > 0 {
      AvailableIs(initial, stages, k - 1, x);
    }
  }

  /** Validation passes exactly when every stage finds what it needs. */
  method Validate(initial: set<nat>, stages: seq<Needs>) returns (missing: Option<nat>)
    ensures missing.None? <==>
              forall k, x :: 0 <= k < |stages| && x in stages[k].needed ==> x in Available(initial, stages, k)
    ensures missing.Some? ==>
              exists k :: 0 <= k < |stages| && missing.value in stages[k].needed
                          && missing.value !in Available(initial, stages, k)
  {
    var available := initial;
    for k := 0 to |stages|
      invariant available == Available(initial, stages, k)
      invariant forall i, x :: 0 <= i < k && x in stages[i].needed ==> x in Available(initial, stages, i)
    {
      var needed := stages[k].needed;
      for i := 0 to |needed|
        invariant forall j :: 0 <= j < i ==> needed[j] in available
      {
        if needed[i] !in available {
          return Some(needed[i]);
        }
      }
      available := available + stages[k].provided;
    }
    missing := None;
  }
}
