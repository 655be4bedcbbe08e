/** Files on disk, and the two kinds of change a pipeline can undo: atomic writes and hook primitives.

    The disk is a map from path to entry.  Directories are not modelled: the parent of every path is taken to exist.
  */
module Disk {
  import opened Basics

  type FilePath = string

  datatype Entry = File(bytes: Bytes) | Link(target: FilePath)

  type Files = map<FilePath, Entry>

  /** Where following symbolic links from a path ends. */
  datatype Resolved = Found(path: FilePath) | Missing(path: FilePath) | Loop

  const MAX_LINKS := 40

  function Follow(files: Files, path: FilePath, fuel: nat): Resolved
    decreases fuel
  {
    if path !in files then Missing(path)
    else if files[path].File? then Found(path)
    else if fuel == 0 then Loop
    else Follow(files, files[path].target, fuel - 1)
  }

  lemma FollowEnds(files: Files, path: FilePath, fuel: nat)
    ensures Follow(files, path, fuel).Found? ==>
              var p := Follow(files, path, fuel).path; p in files && files[p].File?
    ensures Follow(files, path, fuel).Missing? ==> Follow(files, path, fuel).path !in files
    decreases fuel
  {
  }

  predicate IsLink(files: Files, path: FilePath) {
    path in files && files[path].Link?
  }

  function Read(files: Files, path: FilePath): Option<Bytes> {
    var r := Follow(files, path, MAX_LINKS);
    FollowEnds(files, path, MAX_LINKS);
    if r.Found? then Some(files[r.path].bytes) else None
  }

  // ---- Atomic writes -------------------------------------------------------------------------------

  datatype WrittenFile = WrittenFile(path: FilePath, previous: Option<Bytes>)

  datatype Write = Write(path: FilePath, content: Bytes)

  function Restored(files: Files, w: WrittenFile): Files {
    if w.previous.Some? then files[w.path := File(w.previous.value)] else files - {w.path}
  }

  /** The files after the writes. */
  function Written(files: Files, ops: seq<Write>): Files
    decreases |ops|
  {
    if ops == [] then files
    else Written(files[ops[0].path := File(ops[0].content)], ops[1..])
  }

  /** What the writes remember. */
  function Remembered(files: Files, ops: seq<Write>): seq<WrittenFile>
    decreases |ops|
  {
    if ops == [] then []
    else [WrittenFile(ops[0].path, Read(files, ops[0].path))]
         + Remembered(files[ops[0].path := File(ops[0].content)], ops[1..])
  }

  /** Undoing last-first. */
  function RestoredAll(files: Files, ws: seq<WrittenFile>): Files
    decreases |ws|
  {
    if ws == [] then files
    else RestoredAll(Restored(files, ws[|ws| - 1]), ws[..|ws| - 1])
  }

  lemma {:induction false} RestoredInFront(files: Files, w: WrittenFile, ws: seq<WrittenFile>)
    ensures RestoredAll(files, [w] + ws) == Restored(RestoredAll(files, ws), w)
    decreases |ws|
  {
    if ws == [] {
      assert [w] + ws == [w];
      assert RestoredAll(Restored(files, w), [w][..0]) == Restored(files, w);
    } else {
      var last, rest := ws[|ws| - 1], ws[..|ws| - 1];
      assert ([w] + ws)[..|ws|] == [w] + rest;
      RestoredInFront(Restored(files, last), w, rest);
    }
  }

  function PathsOf(ops: seq<Write>): set<FilePath> {
    set i | 0 <= i < |ops| :: ops[i].path
  }

  /** After the writes a path holds what the last write to it put there; other paths are as they were. */
  lemma {:induction false} LastWriteWins(files: Files, ops: seq<Write>, p: FilePath)
    ensures var after := Written(files, ops);
            if p in PathsOf(ops) then
              exists i :: 0 <= i < |ops| && ops[i].path == p && (forall j :: i < j < |ops| ==> ops[j].path != p)
                          && p in after && after[p] == File(ops[i].content)
            else (p in after <==> p in files) && (p in files ==> after[p] == files[p])
    decreases |ops|
  {
    if ops != [] {
      var rest := ops[1..];
      LastWriteWins(files[ops[0].path := File(ops[0].content)], rest, p);
      assert forall i :: 0 <= i < |rest| ==> rest[i] == ops[i + 1];
      if p in PathsOf(rest) {
        var i :| 0 <= i < |rest| && rest[i].path == p && (forall j :: i < j < |rest| ==> rest[j].path != p)
                 && p in Written(files, ops) && Written(files, ops)[p] == File(rest[i].content);
        assert forall j :: i + 1 < j < |ops| ==> ops[j] == rest[j - 1];
        assert ops[i + 1].path == p;
      } else {
        assert forall j :: 0 < j < |ops| ==> ops[j] == rest[j - 1] && ops[j].path in PathsOf(rest);
      }
    }
  }

  /** After the writes and their undoing, a path that was written holds what it held, unless it was a symbolic link:
      then a plain file, or nothing, has taken the link's place. */
  lemma {:induction false} UndoneWrites(files: Files, ops: seq<Write>, p: FilePath)
    ensures var undone := RestoredAll(Written(files, ops), Remembered(files, ops));
            if p in PathsOf(ops) && IsLink(files, p) then !IsLink(undone, p)
            else (p in undone <==> p in files) && (p in files ==> undone[p] == files[p])
    decreases |ops|
  {
    if ops != [] {
      var op, rest := ops[0], ops[1..];
      var after := files[op.path := File(op.content)];
      var w := WrittenFile(op.path, Read(files, op.path));
      RestoredInFront(Written(after, rest), w, Remembered(after, rest));
      UndoneWrites(after, rest, p);
      assert PathsOf(ops) == {op.path} + PathsOf(rest) by {
        assert forall i :: 0 <= i < |rest| ==> rest[i] == ops[i + 1];
        assert forall i :: 1 <= i < |ops| ==> ops[i].path == rest[i - 1].path;
      }
    }
  }

  /** Undo is exact precisely when no written path was a symbolic link. */
  lemma WritesUndoExactly(files: Files, ops: seq<Write>)
    ensures RestoredAll(Written(files, ops), Remembered(files, ops)) == files
       <==> forall p :: p in PathsOf(ops) ==> !IsLink(files, p)
  {
    var undone := RestoredAll(Written(files, ops), Remembered(files, ops));
    forall p ensures if p in PathsOf(ops) && IsLink(files, p) then !IsLink(undone, p)
                     else (p in undone <==> p in files) && (p in files ==> undone[p] == files[p]) {
      UndoneWrites(files, ops, p);
    }
  }

  // ---- Hook primitives -----------------------------------------------------------------------------

  datatype Step =
    | TouchFile(path: FilePath, created: bool)
    | MoveFile(from: FilePath, to: FilePath)
    | CreateSymlink(target: FilePath, link: FilePath)

  datatype StepResult = Done(files: Files, step: Step) | Refused

  function Execute(files: Files, step: Step): StepResult {
    match step
    case TouchFile(path, _) =>
      (match Follow(files, path, MAX_LINKS)
       case Found(_) => Done(files, TouchFile(path, false))
       case Missing(end) => Done(files[end := File([])], TouchFile(path, true))
       case Loop => Refused)
    case MoveFile(from, to) =>
      if from !in files then Refused
      else if from == to then Done(files, step)
      else Done(files[to := files[from]] - {from}, step)
    case CreateSymlink(target, link) =>
      if link in files then Refused else Done(files[link := Link(target)], step)
  }

  function UndoStep(files: Files, step: Step): Option<Files> {
    match step
    case TouchFile(path, created) =>
      if !created then Some(files)
      else if path !in files then None
      else Some(files - {path})
    case MoveFile(from, to) =>
      if to !in files then None
      else if from == to then Some(files)
      else Some(files[from := files[to]] - {to})
    case CreateSymlink(_, link) =>
      if link !in files then None else Some(files - {link})
  }

  /** When a step is refused. */
  lemma WhenRefused(files: Files, step: Step)
    ensures step.TouchFile? ==> (Execute(files, step).Refused? <==> Follow(files, step.path, MAX_LINKS).Loop?)
    ensures step.MoveFile? ==> (Execute(files, step).Refused? <==> step.from !in files)
    ensures step.CreateSymlink? ==> (Execute(files, step).Refused? <==> step.link in files)
  {
  }

  /** When a step cannot be undone, and what undoing it does to any disk. */
  lemma WhenNotUndone(files: Files, step: Step)
    ensures step.TouchFile? && step.created ==>
              UndoStep(files, step) == if step.path in files then Some(files - {step.path}) else None
    ensures step.TouchFile? && !step.created ==> UndoStep(files, step) == Some(files)
    ensures step.MoveFile? && step.to !in files ==> UndoStep(files, step) == None
    ensures step.MoveFile? && step.to in files ==>
              && UndoStep(files, step).Some?
              && UndoStep(files, step).value
                 == map p | p in files.Keys + {step.from} && (p == step.from || p != step.to)
                        :: if p == step.from then files[step.to] else files[p]
    ensures step.CreateSymlink? ==>
              UndoStep(files, step) == if step.link in files then Some(files - {step.link}) else None
  {
    if step.MoveFile? && step.to in files {
      var undone := UndoStep(files, step).value;
      assert undone == map p | p in files.Keys + {step.from} && (p == step.from || p != step.to)
                           :: if p == step.from then files[step.to] else files[p];
    }
  }

  /** Reading follows symbolic links. */
  lemma ReadThroughLinks(files: Files, path: FilePath)
    ensures path !in files ==> Read(files, path) == None
    ensures path in files && files[path].File? ==> Read(files, path) == Some(files[path].bytes)
    ensures path in files && files[path].Link? && files[path].target in files && files[files[path].target].File? ==>
              Read(files, path) == Some(files[files[path].target].bytes)
  {
  }

  function PathsTouched(files: Files, step: Step): set<FilePath> {
    match step
    case TouchFile(path, _) =>
      var end := Follow(files, path, MAX_LINKS);
      if end.Missing? then {end.path} else {}
    case MoveFile(from, to) => {from, to}
    case CreateSymlink(_, link) => {link}
  }

  /** What a step that is not refused achieves, and that it leaves every other path alone. */
  lemma StepEffect(files: Files, step: Step, p: FilePath)
    requires Execute(files, step).Done?
    ensures var after := Execute(files, step).files;
            && (p !in PathsTouched(files, step) ==>
                  (p in after <==> p in files) && (p in files ==> after[p] == files[p]))
            && match step
               case TouchFile(path, _) =>
                 && (Read(files, path).Some? ==> after == files)
                 && (path !in files ==> Read(after, path) == Some([]))
                 && Execute(files, step).step == TouchFile(path, Read(files, path).None?)
               case MoveFile(from, to) =>
                 && from in files && to in after && after[to] == files[from]
                 && (from in after <==> from == to)
               case CreateSymlink(target, link) => link !in files && link in after && after[link] == Link(target)
  {
  }

  /** The step loses nothing: a move does not overwrite, a touch does not go through a dangling link. */
  predicate Lossless(files: Files, step: Step) {
    match step
    case TouchFile(path, _) => IsLink(files, path) ==> Follow(files, path, MAX_LINKS).Found?
    case MoveFile(from, to) => from == to || to !in files
    case CreateSymlink(_, _) => true
  }

  /** Steps run one after the other until one is refused. */
  datatype StepsRun = StepsRun(files: Files, executed: seq<Step>, complete: bool)

  function RunSteps(files: Files, steps: seq<Step>): StepsRun
    decreases |steps|
  {
    if steps == [] then StepsRun(files, [], true)
    else
      match Execute(files, steps[0])
      case Refused => StepsRun(files, [], false)
      case Done(files', step') =>
        var rest := RunSteps(files', steps[1..]);
        rest.(executed := [step'] + rest.executed)
  }

  /** Every step up to the refused one loses nothing. */
  predicate AllLossless(files: Files, steps: seq<Step>)
    decreases |steps|
  {
    steps == []
    || (match Execute(files, steps[0])
        case Refused => true
        case Done(files', _) => Lossless(files, steps[0]) && AllLossless(files', steps[1..]))
  }

  /** The disks that steps go through, one after the other, up to the first step that is refused, if one is. */
  ghost predicate IsTrace(trace: seq<Files>, files: Files, steps: seq<Step>) {
    && 0 < |trace| <= |steps| + 1 && trace[0] == files
    && (forall i :: 0 <= i < |trace| - 1 ==>
          Execute(trace[i], steps[i]).Done? && Execute(trace[i], steps[i]).files == trace[i + 1])
    && (|trace| <= |steps| ==> Execute(trace[|trace| - 1], steps[|trace| - 1]) == Refused)
  }

  /** A run of steps goes exactly as far as no step is refused in the state its predecessors leave, and is complete
      exactly if that is all the way. */
  lemma {:induction false} RunStepsTrace(files: Files, steps: seq<Step>) returns (trace: seq<Files>)
    ensures IsTrace(trace, files, steps)
    ensures var run := RunSteps(files, steps);
            && |trace| <= |steps| + 1 && run.files == trace[|trace| - 1]
            && (run.complete <==> |trace| == |steps| + 1)
            && |run.executed| == |trace| - 1
            && forall i :: 0 <= i < |run.executed| ==> Execute(trace[i], steps[i]).step == run.executed[i]
    decreases |steps|
  {
    hide Execute;
    if steps == [] || Execute(files, steps[0]).Refused? {
      trace := [files];
    } else {
      var rest := RunStepsTrace(Execute(files, steps[0]).files, steps[1..]);
      trace := [files] + rest;
      forall i | 0 <= i < |trace| - 1
        ensures Execute(trace[i], steps[i]).Done? && Execute(trace[i], steps[i]).files == trace[i + 1]
      {
        if i > 0 {
          assert trace[i] == rest[i - 1] && steps[i] == steps[1..][i - 1];
        }
      }
    }
  }

  lemma {:induction false} TracesAgree(one: seq<Files>, two: seq<Files>, files: Files, steps: seq<Step>, i: nat)
    requires IsTrace(one, files, steps) && IsTrace(two, files, steps) && i < |one|
    ensures i < |two| && one[i] == two[i]
  {
    hide Execute;
    if i > 0 {
      TracesAgree(one, two, files, steps, i - 1);
    }
  }

  /** Undoing last-first; the first refusal ends it. */
  datatype StepsUndone = StepsUndone(files: Files, complete: bool)

  function UndoSteps(files: Files, steps: seq<Step>): StepsUndone
    decreases |steps|
  {
    if steps == [] then StepsUndone(files, true)
    else
      match UndoStep(files, steps[|steps| - 1])
      case None => StepsUndone(files, false)
      case Some(files') => UndoSteps(files', steps[..|steps| - 1])
  }

  lemma {:induction false} UndoStepsInFront(files: Files, step: Step, steps: seq<Step>)
    ensures UndoSteps(files, [step] + steps)
         == var undone := UndoSteps(files, steps);
            if !undone.complete then undone
            else match UndoStep(undone.files, step)
                 case None => StepsUndone(undone.files, false)
                 case Some(files') => StepsUndone(files', true)
    decreases |steps|
  {
    if steps == [] {
      assert [step] + steps == [step];
      assert [step][..0] == [];
    } else {
      var last, rest := steps[|steps| - 1], steps[..|steps| - 1];
      assert ([step] + steps)[..|steps|] == [step] + rest;
      match UndoStep(files, last) {
        case None =>
        case Some(files') =>
          UndoStepsInFront(files', step, rest);
      }
    }
  }

  /** A lossless step is undone exactly; any other leaves an entry missing. */
  lemma StepUndo(files: Files, step: Step)
    requires Execute(files, step).Done?
    ensures var done := Execute(files, step);
            if Lossless(files, step) then UndoStep(done.files, done.step) == Some(files)
            else UndoStep(done.files, done.step).Some?
                 && exists k :: k in files && k !in UndoStep(done.files, done.step).value
  {
    var done := Execute(files, step);
    FollowEnds(files, if step.TouchFile? then step.path else "", MAX_LINKS);
    var undone := UndoStep(done.files, done.step);
    match step {
      case TouchFile(path, _) =>
        if Lossless(files, step) {
          if done.step.created {
            assert undone.value == files;
          }
        } else {
          assert path in files && path !in undone.value;
        }
      case MoveFile(from, to) =>
        if Lossless(files, step) {
          assert undone.value == files;
        } else {
          assert to in files && to !in undone.value;
        }
      case CreateSymlink(_, link) =>
        assert undone.value == files;
    }
  }

  /** An entry missing before a step is undone is, or stands for, an entry missing afterwards. */
  lemma MissingStaysMissing(files: Files, step: Step, x: Files)
    requires Execute(files, step).Done?
    requires exists k :: k in Execute(files, step).files && k !in x
    ensures var undone := UndoStep(x, Execute(files, step).step);
            undone.Some? ==> exists k :: k in files && k !in undone.value
  {
    var done := Execute(files, step);
    FollowEnds(files, if step.TouchFile? then step.path else "", MAX_LINKS);
    var undone := UndoStep(x, done.step);
    var k :| k in done.files && k !in x;
    if undone.Some? {
      if step.TouchFile? && done.step.created && IsLink(files, step.path) {
        assert step.path in files && step.path !in undone.value;
      } else {
        assert k in files && k !in undone.value;
      }
    }
  }

  lemma {:induction false} UndoOutcome(files: Files, steps: seq<Step>)
    ensures var run := RunSteps(files, steps);
            var undone := UndoSteps(run.files, run.executed);
            if AllLossless(files, steps) then undone == StepsUndone(files, true)
            else undone.complete ==> exists k :: k in files && k !in undone.files
    decreases |steps|
  {
    if steps != [] && Execute(files, steps[0]).Done? {
      var Done(files', step') := Execute(files, steps[0]);
      var run := RunSteps(files', steps[1..]);
      UndoOutcome(files', steps[1..]);
      UndoStepsInFront(run.files, step', run.executed);
      StepUndo(files, steps[0]);
      var undone := UndoSteps(run.files, run.executed);
      if !AllLossless(files', steps[1..]) && undone.complete {
        MissingStaysMissing(files, steps[0], undone.files);
      }
    }
  }

  /** Undo is complete and exact precisely when no executed step lost anything. */
  lemma StepsUndoExactly(files: Files, steps: seq<Step>)
    ensures UndoSteps(RunSteps(files, steps).files, RunSteps(files, steps).executed) == StepsUndone(files, true)
       <==> AllLossless(files, steps)
  {
    UndoOutcome(files, steps);
  }

  // ---- The disk ------------------------------------------------------------------------------------

  class DiskState {
    var files: Files

    /** Writes one file atomically and remembers what it held. */
    method WriteFile(op: Write) returns (w: WrittenFile)
      modifies this
      ensures files == old(files)[op.path := File(op.content)]
      ensures w == WrittenFile(op.path, Read(old(files), op.path))
    {
      w := WrittenFile(op.path, Read(files, op.path));
      files := files[op.path := File(op.content)];
    }

    /** Writes a group of files, collecting what is needed to undo it. */
    method WriteAll(ops: seq<Write>) returns (written: seq<WrittenFile>)
      modifies this
      ensures files == Written(old(files), ops) && written == Remembered(old(files), ops)
    {
      written := [];
      for i := 0 to |ops|
        invariant Written(files, ops[i..]) == Written(old(files), ops)
        invariant written + Remembered(files, ops[i..]) == Remembered(old(files), ops)
      {
        assert ops[i..][0] == ops[i] && ops[i..][1..] == ops[i + 1..];
        ghost var before := files;
        var w := WriteFile(ops[i]);
        assert Remembered(before, ops[i..]) == [w] + Remembered(files, ops[i + 1..]);
        written := written + [w];
      }
    }

    method RollbackWrites(written: seq<WrittenFile>)
      modifies this
      ensures files == RestoredAll(old(files), written)
    {
      var rest := written;
      while rest != []
        invariant RestoredAll(files, rest) == RestoredAll(old(files), written)
        decreases |rest|
      {
        var w := rest[|rest| - 1];
        rest := rest[..|rest| - 1];
        files := Restored(files, w);
      }
    }

    method RollbackSteps(steps: seq<Step>) returns (complete: bool)
      modifies this
      ensures UndoSteps(old(files), steps) == StepsUndone(files, complete)
    {
      var rest := steps;
      while rest != []
        invariant UndoSteps(files, rest) == UndoSteps(old(files), steps)
        decreases |rest|
      {
        var undone := UndoStep(files, rest[|rest| - 1]);
        if undone == None {
          return false;
        }
        rest := rest[..|rest| - 1];
        files := undone.value;
      }
      complete := true;
    }

    /** Runs a hook.  A critical hook that is refused a step undoes the others and fails; any other stops there. */
    method RunHook(hook: Hook) returns (ok: bool, executed: seq<Step>, ghost trace: seq<Files>)
      modifies this
      ensures IsTrace(trace, old(files), hook.steps)
      ensures !ok <==> hook.critical && |trace| <= |hook.steps|
      ensures ok ==> files == trace[|trace| - 1] && |executed| == |trace| - 1
      ensures var run := RunSteps(old(files), hook.steps);
              && ok == (run.complete || !hook.critical)
              && executed == (if ok then run.executed else [])
              && files == if ok then run.files else UndoSteps(run.files, run.executed).files
      ensures !ok && AllLossless(old(files), hook.steps) ==> files == old(files)
    {
      hide IsTrace, Execute, UndoSteps, AllLossless, RunSteps;
      executed := [];
      var steps := hook.steps;
      trace := RunStepsTrace(files, steps);
      StepsUndoExactly(files, steps);
      for i := 0 to |steps|
        invariant StillToRun(RunSteps(old(files), steps), executed, RunSteps(files, steps[i..]))
      {
        OneStep(files, steps[i..]);
        assert steps[i..][0] == steps[i] && steps[i..][1..] == steps[i + 1..];
        match Execute(files, steps[i]) {
          case Refused =>
            assert executed + [] == executed;
            if hook.critical {
              var _ := RollbackSteps(executed);
              return false, [], trace;
            }
            return true, executed, trace;
          case Done(files', step') =>
            files := files';
            executed := executed + [step'];
        }
      }
      OneStep(files, steps[|steps|..]);
      assert executed + [] == executed;
      ok := true;
    }
  }

  /** Of the whole run, `executed` has been executed and `rest` is still to come. */
  ghost predicate StillToRun(whole: StepsRun, executed: seq<Step>, rest: StepsRun) {
    whole.files == rest.files && whole.complete == rest.complete && whole.executed == executed + rest.executed
  }

  lemma OneStep(files: Files, steps: seq<Step>)
    ensures steps == [] ==> RunSteps(files, steps) == StepsRun(files, [], true)
    ensures steps != [] && Execute(files, steps[0]).Refused? ==> RunSteps(files, steps) == StepsRun(files, [], false)
    ensures steps != [] && Execute(files, steps[0]).Done? ==>
              var rest := RunSteps(Execute(files, steps[0]).files, steps[1..]);
              RunSteps(files, steps) == rest.(executed := [Execute(files, steps[0]).step] + rest.executed)
  {
    hide Execute;
  }

  datatype Hook = Hook(critical: bool, steps: seq<Step>)
}
