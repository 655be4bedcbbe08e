/** Pipelines in which a stage works through a queue.

    A queue stage takes one item from the front of its queue at each execution and asks to be repeated until the
    queue is empty; every other stage advances at once.  The measure that makes such a pipeline stop is the number of
    stages left, then the number of items left.
  */
module Pipeline {
  import opened Disk
  import opened Orchestrator

  type Item = string

  datatype StageKind = Once | Drain(queue: seq<Item>)

  /** What a run leaves behind: the items handled, and the progress reported for each of them. */
  datatype Handled = Handled(stage: nat, item: Item, processed: nat, total: nat)

  /** The reports of one stage: its items in queue order, counted from one. */
  function Reports(stage: nat, queue: seq<Item>, k: nat): seq<Handled>
    requires k <= |queue|
  {
    if k == 0 then [] else Reports(stage, queue, k - 1) + [Handled(stage, queue[k - 1], k, |queue|)]
  }

  lemma {:induction false} ReportsAreExact(stage: nat, queue: seq<Item>, k: nat, h: Handled)
    requires k <= |queue|
    ensures h in Reports(stage, queue, k)
       <==> h.stage == stage && 0 < h.processed <= k && h.total == |queue| && h.item == queue[h.processed - 1]
  {
    if k > 0 {
      ReportsAreExact(stage, queue, k - 1, h);
    }
  }

  /** The items are reported in queue order. */
  lemma {:induction false} ReportsInOrder(stage: nat, queue: seq<Item>, k: nat)
    requires k <= |queue|
    ensures |Reports(stage, queue, k)| == k
    ensures forall i :: 0 <= i < k ==> Reports(stage, queue, k)[i] == Handled(stage, queue[i], i + 1, |queue|)
  {
    if k > 0 {
      ReportsInOrder(stage, queue, k - 1);
    }
  }

  function QueueOf(kind: StageKind): seq<Item> {
    if kind.Once? then [] else kind.queue
  }

  function AllReports(stages: seq<StageKind>, n: nat): seq<Handled>
    requires n <= |stages|
  {
    if n == 0 then []
    else AllReports(stages, n - 1) + Reports(n - 1, QueueOf(stages[n - 1]), |QueueOf(stages[n - 1])|)
  }

  /** Progress never runs past the total, and an item is reported once, by its stage, at its place in the queue. */
  lemma {:induction false} ProgressIsSound(stages: seq<StageKind>, n: nat, h: Handled)
    requires n <= |stages|
    ensures h in AllReports(stages, n) <==>
              && h.stage < n && 0 < h.processed <= h.total == |QueueOf(stages[h.stage])|
              && h.item == QueueOf(stages[h.stage])[h.processed - 1]
  {
    hide Reports;
    if n > 0 {
      ProgressIsSound(stages, n - 1, h);
      var queue := QueueOf(stages[n - 1]);
      ReportsAreExact(n - 1, queue, |queue|, h);
    }
  }

  // ---- The turns of such a pipeline ------------------------------------------------------------------

  function Went(result: StageResult): Turn {
    Turn(false, false, [], Nothing, result)
  }

  function Stuck(): Turn {
    Turn(false, true, [], Nothing, Advance)
  }

  function Repeats(n: nat): (turns: seq<Turn>)
    ensures |turns| == n && forall i :: 0 <= i < n ==> turns[i] == Went(Repeat)
  {
    if n == 0 then [] else Repeats(n - 1) + [Went(Repeat)]
  }

  /** A stage is executed once, or once for each item of its queue. */
  function TurnsOf(kind: StageKind): (turns: seq<Turn>)
    requires kind != Drain([])
    ensures |turns| == if kind.Once? then 1 else |kind.queue|
  {
    if kind.Once? then [Went(Advance)] else Repeats(|kind.queue| - 1) + [Went(Advance)]
  }

  predicate NoneEmpty(stages: seq<StageKind>, n: nat)
    requires n <= |stages|
  {
    forall i :: 0 <= i < n ==> stages[i] != Drain([])
  }

  /** The turns of the first `n` stages, and the stages executed by them. */
  function Script(stages: seq<StageKind>, n: nat): seq<Turn>
    requires n <= |stages| && NoneEmpty(stages, n)
  {
    if n == 0 then [] else Script(stages, n - 1) + TurnsOf(stages[n - 1])
  }

  function Times(stage: nat, n: nat): (visits: seq<nat>)
    ensures |visits| == n && forall i :: 0 <= i < n ==> visits[i] == stage
  {
    seq(n, _ => stage)
  }

  function Visits(stages: seq<StageKind>, n: nat): seq<nat>
    requires n <= |stages| && NoneEmpty(stages, n)
  {
    if n == 0 then [] else Visits(stages, n - 1) + Times(n - 1, |TurnsOf(stages[n - 1])|)
  }

  /** The stage that follows a turn. */
  function NextStage(stage: nat, turn: Turn): nat {
    if turn.result == Repeat then stage else stage + 1
  }

  /** Each stage follows from the turn before it, and none of the turns fails or jumps. */
  ghost predicate Chained(turns: seq<Turn>, visits: seq<nat>) {
    && |turns| == |visits|
    && (forall k :: 0 <= k < |turns| ==> turns[k] == Went(Advance) || turns[k] == Went(Repeat))
    && (visits != [] ==> visits[0] == 0)
    && forall k :: 0 < k < |visits| ==> visits[k] == NextStage(visits[k - 1], turns[k - 1])
  }

  /** Where the turns lead. */
  function LeadsTo(turns: seq<Turn>, visits: seq<nat>): nat
    requires |turns| == |visits|
  {
    if visits == [] then 0 else NextStage(visits[|visits| - 1], turns[|turns| - 1])
  }

  lemma ExtendChain(turns: seq<Turn>, visits: seq<nat>, turn: Turn)
    requires Chained(turns, visits) && (turn == Went(Advance) || turn == Went(Repeat))
    ensures Chained(turns + [turn], visits + [LeadsTo(turns, visits)])
    ensures LeadsTo(turns + [turn], visits + [LeadsTo(turns, visits)]) == NextStage(LeadsTo(turns, visits), turn)
  {
    var more, then_ := turns + [turn], visits + [LeadsTo(turns, visits)];
    forall k | 0 < k < |then_| ensures then_[k] == NextStage(then_[k - 1], more[k - 1]) {
      if k < |visits| {
        assert visits[k] == NextStage(visits[k - 1], turns[k - 1]);
      }
    }
  }

  lemma {:induction false} RepeatsAreChained(turns: seq<Turn>, visits: seq<nat>, m: nat)
    requires |turns| == |visits| && Chained(turns, visits)
    ensures var stage := LeadsTo(turns, visits);
            && Chained(turns + Repeats(m), visits + Times(stage, m))
            && LeadsTo(turns + Repeats(m), visits + Times(stage, m)) == stage
  {
    hide Chained, LeadsTo;
    var stage := LeadsTo(turns, visits);
    if m == 0 {
      assert turns + Repeats(0) == turns && visits + Times(stage, 0) == visits;
    } else {
      RepeatsAreChained(turns, visits, m - 1);
      ExtendChain(turns + Repeats(m - 1), visits + Times(stage, m - 1), Went(Repeat));
      assert turns + Repeats(m) == turns + Repeats(m - 1) + [Went(Repeat)];
      assert visits + Times(stage, m) == visits + Times(stage, m - 1) + [stage];
    }
  }

  lemma {:induction false} ScriptIsChained(stages: seq<StageKind>, n: nat)
    requires n <= |stages| && NoneEmpty(stages, n)
    ensures |Script(stages, n)| == |Visits(stages, n)| && Chained(Script(stages, n), Visits(stages, n))
    ensures LeadsTo(Script(stages, n), Visits(stages, n)) == n
    ensures forall k :: 0 <= k < |Visits(stages, n)| ==> Visits(stages, n)[k] < n
  {
    hide Chained, LeadsTo, Repeats;
    if n == 0 {
      NothingChained();
    } else {
      ScriptIsChained(stages, n - 1);
      var turns, visits, kind := Script(stages, n - 1), Visits(stages, n - 1), stages[n - 1];
      var m := |TurnsOf(kind)|;
      RepeatsAreChained(turns, visits, m - 1);
      ExtendChain(turns + Repeats(m - 1), visits + Times(n - 1, m - 1), Went(Advance));
      assert TurnsOf(kind) == Repeats(m - 1) + [Went(Advance)];
      assert turns + TurnsOf(kind) == turns + Repeats(m - 1) + [Went(Advance)];
      assert visits + Times(n - 1, m) == visits + Times(n - 1, m - 1) + [n - 1];
    }
  }

  lemma NothingChained()
    ensures Chained([], []) && LeadsTo([], []) == 0
  {
  }

  /** A walk over a chained script visits exactly the stages of the chain, for as long as the chain goes. */
  lemma {:induction false} WalkIsForced(types: seq<StageType>, turns: seq<Turn>, last: Turn, visits: seq<nat>,
                                        visited: seq<nat>, n: nat)
    requires Chained(turns, visits) && IsWalk(types, turns + [last], visited)
    requires n <= |visited| && n <= |visits|
    ensures visited[..n] == visits[..n]
  {
    hide IsNearestBefore;
    if n > 0 {
      WalkIsForced(types, turns, last, visits, visited, n - 1);
      if n > 1 {
        assert visited[n - 2] == visited[..n - 1][n - 2] == visits[n - 2];
        assert Follows(types, visited[n - 2], (turns + [last])[n - 2].result, visited[n - 1]);
      }
      assert visited[..n] == visited[..n - 1] + [visited[n - 1]] && visits[..n] == visits[..n - 1] + [visits[n - 1]];
    }
  }

  lemma {:induction false} NothingFails(files: Files, script: seq<Turn>, n: nat)
    requires n <= |script| && forall k :: 0 <= k < n ==> !script[k].fails && script[k].work == Nothing
    ensures RunEffect(files, script, n).ok
  {
    if n > 0 {
      NothingFails(files, script, n - 1);
    }
  }

  lemma ForcedNext(types: seq<StageType>, turns: seq<Turn>, last: Turn, visits: seq<nat>, visited: seq<nat>, next: nat)
    requires Chained(turns, visits) && IsWalk(types, turns + [last], visited) && |visited| <= |visits|
    requires LeavesFor(types, turns + [last], visited, next)
    ensures next == if |visited| < |visits| then visits[|visited|] else LeadsTo(turns, visits)
  {
    hide IsNearestBefore;
    var m := |visited|;
    WalkIsForced(types, turns, last, visits, visited, m);
    if m > 0 {
      assert visited[m - 1] == visited[..m][m - 1] == visits[..m][m - 1] == visits[m - 1];
      assert (turns + [last])[m - 1] == turns[m - 1];
    }
  }

  lemma RunOfChain(types: seq<StageType>, turns: seq<Turn>, last: Turn, visits: seq<nat>, first: nat, r: RunResult,
                   visited: seq<nat>, files: Files)
    requires Chained(turns, visits) && LeadsTo(turns, visits) == first <= |types|
    requires forall k :: 0 <= k < |visits| ==> visits[k] < first
    requires last == if first < |types| then Stuck() else Went(Advance)
    requires IsWalk(types, turns + [last], visited) && EndsAs(types, turns + [last], visited, r)
    requires RunEffect(files, turns + [last], |visited|).ok <==> !(r.Failed? && r.error == StageError)
    ensures if first < |types| then r == Failed(first, StageError) && visited == visits + [first]
            else r == Finished && visited == visits
  {
    hide IsNearestBefore, RunEffect, IsWalk, EndsAs, Chained, LeadsTo;
    WalkIsShort(types, turns, last, visits, visited);
    if |visited| <= |visits| {
      ChainGoesThrough(turns, last, visits, files, |visited|);
      ShortRun(types, turns, last, visits, first, r, visited);
    } else {
      StuckFails(files, turns + [last], |visits|);
      LongRun(types, turns, last, visits, first, r, visited);
    }
  }

  lemma WalkIsShort(types: seq<StageType>, turns: seq<Turn>, last: Turn, visits: seq<nat>, visited: seq<nat>)
    requires Chained(turns, visits) && IsWalk(types, turns + [last], visited)
    ensures |visited| <= |visits| + 1 && |turns| == |visits| && (turns + [last])[|visits|] == last
    ensures forall k :: 0 <= k < |visited| ==> visited[k] < |types|
  {
  }

  lemma ChainGoesThrough(turns: seq<Turn>, last: Turn, visits: seq<nat>, files: Files, n: nat)
    requires Chained(turns, visits) && n <= |turns|
    ensures RunEffect(files, turns + [last], n).ok
  {
    hide RunEffect;
    NothingFails(files, turns + [last], n);
  }

  lemma ShortRun(types: seq<StageType>, turns: seq<Turn>, last: Turn, visits: seq<nat>, first: nat, r: RunResult,
                 visited: seq<nat>)
    requires Chained(turns, visits) && LeadsTo(turns, visits) == first <= |types| && |visited| <= |visits|
    requires forall k :: 0 <= k < |visits| ==> visits[k] < first
    requires !last.cancelled && IsWalk(types, turns + [last], visited) && EndsAs(types, turns + [last], visited, r)
    requires !(r.Failed? && r.error == StageError)
    ensures r == Finished && first == |types| && visited == visits
  {
    hide IsNearestBefore, IsWalk, LeavesFor;
    assert forall k :: 0 <= k < |turns| ==> (turns + [last])[k] == turns[k];
    assert r.Finished?;
    ForcedNext(types, turns, last, visits, visited, |types|);
    WalkIsForced(types, turns, last, visits, visited, |visited|);
    assert visited[..|visited|] == visited && visits[..|visits|] == visits;
  }

  lemma LongRun(types: seq<StageType>, turns: seq<Turn>, last: Turn, visits: seq<nat>, first: nat, r: RunResult,
                visited: seq<nat>)
    requires Chained(turns, visits) && LeadsTo(turns, visits) == first <= |types| && |visited| == |visits| + 1
    requires IsWalk(types, turns + [last], visited) && EndsAs(types, turns + [last], visited, r)
    requires first < |types| ==> r.Failed? && r.error == StageError
    ensures r == Failed(first, StageError) && first < |types| && visited == visits + [first]
  {
    hide IsNearestBefore, Chained, LeadsTo, LeavesFor;
    LastStage(types, turns, last, visits, visited);
    WalkIsForced(types, turns, last, visits, visited, |visits|);
    assert visited[|visits|] < |types|;
    assert visited == visited[..|visits|] + [visited[|visits|]] && visits[..|visits|] == visits;
  }

  lemma LastStage(types: seq<StageType>, turns: seq<Turn>, last: Turn, visits: seq<nat>, visited: seq<nat>)
    requires Chained(turns, visits) && IsWalk(types, turns + [last], visited) && |visited| == |visits| + 1
    ensures visited[|visits|] == LeadsTo(turns, visits)
  {
    hide IsNearestBefore;
    var n := |visits|;
    WalkIsForced(types, turns, last, visits, visited, n);
    if n > 0 {
      assert visited[n - 1] == visited[..n][n - 1] == visits[..n][n - 1] == visits[n - 1];
      assert (turns + [last])[n - 1] == turns[n - 1];
      assert Follows(types, visited[n - 1], (turns + [last])[n - 1].result, visited[n]);
    }
  }

  lemma StuckFails(files: Files, script: seq<Turn>, n: nat)
    requires n < |script|
    ensures script[n] == Stuck() ==> !RunEffect(files, script, n + 1).ok
  {
  }

  /** The whole pipeline as a run of the orchestrator: it is finished, having executed every queue stage once for each
      of its items, or it failed at the first stage with an empty queue. */
  method RunAsScript(types: seq<StageType>, stages: seq<StageKind>, context: Context)
      returns (r: RunResult, ghost visited: seq<nat>)
    requires |types| == |stages|
    modifies context, context.disk
    ensures NoneEmpty(stages, |stages|) ==> r == Finished && visited == Visits(stages, |stages|)
    ensures !NoneEmpty(stages, |stages|) ==>
              r.Failed? && r.error == StageError && r.index < |stages| && NoneEmpty(stages, r.index)
              && stages[r.index] == Drain([]) && visited == Visits(stages, r.index) + [r.index]
  {
    hide Script, Visits, TurnsOf, IsNearestBefore, IsWalk, Chained, Written, Unwound, TurnEffect;
    var first := 0;
    while first < |stages| && stages[first] != Drain([])
      invariant first <= |stages| && NoneEmpty(stages, first)
    {
      first := first + 1;
    }
    var turns := Script(stages, first);
    var last := if first < |stages| then Stuck() else Went(Advance);
    var orchestrator := new SequentialOrchestrator(types, context);
    ghost var files := context.disk.files;
    r, visited := orchestrator.Run(turns + [last]);
    ScriptIsChained(stages, first);
    RunOfChain(types, turns, last, Visits(stages, first), first, r, visited, files);
  }

  /** The run has reached stage `index` with the items `pending` left in its queue. */
  ghost predicate Midway(stages: seq<StageKind>, index: nat, pending: seq<Item>, handled: seq<Handled>,
                         turns: seq<Turn>) {
    && index <= |stages|
    && NoneEmpty(stages, index)
    && if index == |stages| then handled == AllReports(stages, index) && turns == Script(stages, index)
       else
         var queue := QueueOf(stages[index]);
         var done := |queue| - |pending|;
         && 0 <= done && pending == queue[done..] && (0 < done ==> pending != [])
         && handled == AllReports(stages, index) + Reports(index, queue, done)
         && turns == Script(stages, index) + Repeats(done)
  }

  /** The queue of the stage at `index`, if there is one. */
  function Queue(stages: seq<StageKind>, index: nat): seq<Item> {
    if index < |stages| then QueueOf(stages[index]) else []
  }

  lemma TakeItem(stages: seq<StageKind>, index: nat, pending: seq<Item>, handled: seq<Handled>, turns: seq<Turn>)
    requires Midway(stages, index, pending, handled, turns) && index < |stages| && pending != []
    ensures |pending| <= |QueueOf(stages[index])| && stages[index].Drain?
    ensures var queue := QueueOf(stages[index]);
            var rest := pending[1..];
            var h := Handled(index, pending[0], |queue| - |rest|, |queue|);
            if rest != [] then Midway(stages, index, rest, handled + [h], turns + [Went(Repeat)])
            else Midway(stages, index + 1, Queue(stages, index + 1), handled + [h], turns + [Went(Advance)])
  {
    hide AllReports, Reports, Script, Repeats, NoneEmpty, Queue, Midway;
    var queue := QueueOf(stages[index]);
    var done := |queue| - |pending|;
    MidwayParts(stages, index, pending, handled, turns);
    OneMoreReport(stages, index, done);
    OneMoreTurn(stages, index, done);
    if |pending| == 1 {
      StageBegins(stages, index + 1);
    } else {
      StageGoesOn(stages, index, done + 1);
    }
  }

  lemma MidwayParts(stages: seq<StageKind>, index: nat, pending: seq<Item>, handled: seq<Handled>, turns: seq<Turn>)
    requires Midway(stages, index, pending, handled, turns) && index < |stages| && pending != []
    ensures NoneEmpty(stages, index) && stages[index].Drain?
    ensures var queue := QueueOf(stages[index]);
            var done := |queue| - |pending|;
            && 0 <= done < |queue| && pending[0] == queue[done] && pending[1..] == queue[done + 1..]
            && handled == AllReports(stages, index) + Reports(index, queue, done)
            && turns == Script(stages, index) + Repeats(done)
  {
    hide AllReports, Reports, Script, Repeats, NoneEmpty;
  }

  lemma StageGoesOn(stages: seq<StageKind>, index: nat, done: nat)
    requires index < |stages| && NoneEmpty(stages, index) && done < |QueueOf(stages[index])|
    ensures var queue := QueueOf(stages[index]);
            Midway(stages, index, queue[done..], AllReports(stages, index) + Reports(index, queue, done),
                   Script(stages, index) + Repeats(done))
  {
    hide AllReports, Reports, Script, Repeats, NoneEmpty;
  }

  lemma StageBegins(stages: seq<StageKind>, index: nat)
    requires index <= |stages| && NoneEmpty(stages, index)
    ensures Midway(stages, index, Queue(stages, index), AllReports(stages, index), Script(stages, index))
  {
    hide AllReports, Script;
    assert AllReports(stages, index) + [] == AllReports(stages, index);
    assert Script(stages, index) + [] == Script(stages, index);
  }

  lemma OneMoreReport(stages: seq<StageKind>, index: nat, done: nat)
    requires index < |stages| && done < |QueueOf(stages[index])|
    ensures var queue := QueueOf(stages[index]);
            AllReports(stages, index) + Reports(index, queue, done) + [Handled(index, queue[done], done + 1, |queue|)]
            == if done + 1 < |queue| then AllReports(stages, index) + Reports(index, queue, done + 1)
               else AllReports(stages, index + 1)
  {
    hide AllReports;
    var queue := QueueOf(stages[index]);
    ReportsOfStage(stages, index);
    assert Reports(index, queue, done + 1)
        == Reports(index, queue, done) + [Handled(index, queue[done], done + 1, |queue|)];
  }

  lemma ReportsOfStage(stages: seq<StageKind>, index: nat)
    requires index < |stages|
    ensures var queue := QueueOf(stages[index]);
            AllReports(stages, index + 1) == AllReports(stages, index) + Reports(index, queue, |queue|)
  {
  }

  lemma OneMoreTurn(stages: seq<StageKind>, index: nat, done: nat)
    requires index < |stages| && NoneEmpty(stages, index) && done < |QueueOf(stages[index])|
    ensures NoneEmpty(stages, index + 1)
    ensures Script(stages, index) + Repeats(done) + [Went(Repeat)] == Script(stages, index) + Repeats(done + 1)
    ensures done + 1 == |QueueOf(stages[index])| ==>
              Script(stages, index) + Repeats(done) + [Went(Advance)] == Script(stages, index + 1)
  {
    assert Repeats(done + 1) == Repeats(done) + [Went(Repeat)];
    assert done + 1 == |QueueOf(stages[index])| ==> TurnsOf(stages[index]) == Repeats(done) + [Went(Advance)];
  }

  lemma PassStage(stages: seq<StageKind>, index: nat, pending: seq<Item>, handled: seq<Handled>, turns: seq<Turn>)
    requires Midway(stages, index, pending, handled, turns) && index < |stages| && stages[index].Once?
    ensures Midway(stages, index + 1, Queue(stages, index + 1), handled, turns + [Went(Advance)])
  {
  }

  /** What the queue stages do themselves: the items they handle and report, and the turns they give the orchestrator,
      which are those of RunAsScript.  One that finds its queue empty fails. */
  method RunQueues(types: seq<StageType>, stages: seq<StageKind>)
      returns (ok: bool, handled: seq<Handled>, turns: seq<Turn>)
    requires |types| == |stages|
    ensures ok <==> NoneEmpty(stages, |stages|)
    ensures ok ==> handled == AllReports(stages, |stages|) && turns == Script(stages, |stages|)
    ensures !ok ==> exists i :: 0 <= i < |stages| && NoneEmpty(stages, i) && stages[i] == Drain([])
                                && handled == AllReports(stages, i) && turns == Script(stages, i)
  {
    hide AllReports, Reports, Midway, IsNearestBefore, Queue, Script, Repeats;
    StartAndEnd(stages);
    var cursor := new Cursor(types);
    handled, turns := [], [];
    var pending := Queue(stages, 0);
    while cursor.index < |stages|
      invariant fresh(cursor) && |cursor.stages| == |stages| && cursor.index <= |stages|
      invariant Midway(stages, cursor.index, pending, handled, turns)
      decreases |stages| - cursor.index, |pending|
    {
      var index := cursor.index;
      var result := Advance;
      if stages[index].Drain? {
        if pending == [] {
          StuckAt(stages, index, handled, turns);
          return false, handled, turns;
        }
        TakeItem(stages, index, pending, handled, turns);
        var total := |stages[index].queue|;
        var item := pending[0];
        pending := pending[1..];
        handled := handled + [Handled(index, item, total - |pending|, total)];
        result := if pending == [] then Advance else Repeat;
      } else {
        PassStage(stages, index, pending, handled, turns);
      }
      turns := turns + [Went(result)];
      var _ := cursor.MoveBy(result);
      if result == Advance {
        pending := Queue(stages, cursor.index);
      }
    }
    ok := true;
  }

  lemma StartAndEnd(stages: seq<StageKind>)
    ensures Midway(stages, 0, Queue(stages, 0), [], [])
    ensures forall pending, handled, turns :: Midway(stages, |stages|, pending, handled, turns) ==>
              && NoneEmpty(stages, |stages|)
              && handled == AllReports(stages, |stages|) && turns == Script(stages, |stages|)
  {
  }

  lemma StuckAt(stages: seq<StageKind>, index: nat, handled: seq<Handled>, turns: seq<Turn>)
    requires Midway(stages, index, [], handled, turns) && index < |stages| && stages[index].Drain?
    ensures stages[index] == Drain([]) && NoneEmpty(stages, index)
    ensures handled == AllReports(stages, index) && turns == Script(stages, index)
  {
  }
}
