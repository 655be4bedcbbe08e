/** The operations of Deploys as the source performs them, on the deploy directories of a mounted system root. */
module Sysroot {
  import opened Basics
  import opened Deploys

  /** A record that was written, and the one it replaced. */
  datatype WrittenRecord = WrittenRecord(prefix: Digest, previous: Option<Record>)

  /** A retention pass; the removal after `limit` others fails. */
  datatype Retention = Retention(booted: Option<Digest>, depth: nat, limit: Option<nat>)

  // ---- Sorting records, newest first ---------------------------------------------------------------

  ghost predicate NewestFirst(rs: seq<Record>) {
    forall i, j :: 0 <= i < j < |rs| ==> rs[i].order > rs[j].order
  }

  method InsertRecord(sorted: seq<Record>, r: Record) returns (out: seq<Record>)
    requires NewestFirst(sorted)
    requires forall x :: x in sorted ==> x.order != r.order
    ensures NewestFirst(out)
    ensures forall x :: x in out <==> x in sorted || x == r
  {
    var i := 0;
    while i < |sorted| && sorted[i].order > r.order
      invariant i <= |sorted|
      invariant forall j :: 0 <= j < i ==> sorted[j].order > r.order
    {
      i := i + 1;
    }
    assert i < |sorted| ==> sorted[i] in sorted;
    InsertedIsSorted(sorted, i, r);
    out := sorted[..i] + [r] + sorted[i..];
  }

  lemma InsertedIsSorted(sorted: seq<Record>, i: nat, r: Record)
    requires NewestFirst(sorted) && i <= |sorted|
    requires forall j :: 0 <= j < i ==> sorted[j].order > r.order
    requires i < |sorted| ==> sorted[i].order < r.order
    ensures NewestFirst(sorted[..i] + [r] + sorted[i..])
    ensures forall x :: x in sorted[..i] + [r] + sorted[i..] <==> x in sorted || x == r
  {
    hide NewestFirst;
    var out := sorted[..i] + [r] + sorted[i..];
    forall a, b | 0 <= a < b < |out| ensures out[a].order > out[b].order {
      InsertedAt(sorted, i, r, a);
      InsertedAt(sorted, i, r, b);
      OrderOf(sorted, if a < i then a else a - 1, if b < i then b else b - 1);
      OrderOf(sorted, i, b - 1);
    }
    StaysNewestFirst(out);
    assert sorted == sorted[..i] + sorted[i..];
  }

  lemma InsertedAt(sorted: seq<Record>, i: nat, r: Record, k: nat)
    requires i <= |sorted| && k <= |sorted|
    ensures (sorted[..i] + [r] + sorted[i..])[k] == if k < i then sorted[k] else if k == i then r else sorted[k - 1]
  {
  }

  lemma OrderOf(sorted: seq<Record>, i: int, j: int)
    requires NewestFirst(sorted)
    ensures 0 <= i < j < |sorted| ==> sorted[i].order > sorted[j].order
  {
  }

  lemma StaysNewestFirst(out: seq<Record>)
    requires forall a, b :: 0 <= a < b < |out| ==> out[a].order > out[b].order
    ensures NewestFirst(out)
  {
  }

  method SortNewestFirst(rs: seq<Record>) returns (sorted: seq<Record>)
    requires forall i, j :: 0 <= i < j < |rs| ==> rs[i].order != rs[j].order
    ensures NewestFirst(sorted)
    ensures forall r :: r in sorted <==> r in rs
  {
    hide NewestFirst;
    sorted := [];
    assert NewestFirst([]) by { EmptyIsSorted(); }
    for k := 0 to |rs|
      invariant NewestFirst(sorted)
      invariant forall r :: r in sorted <==> r in rs[..k]
    {
      assert rs[..k + 1] == rs[..k] + [rs[k]];
      sorted := InsertRecord(sorted, rs[k]);
    }
    assert rs[..|rs|] == rs;
  }

  lemma EmptyIsSorted()
    ensures NewestFirst([])
  {
  }

  // ---- Where a record stands in the sorted list -----------------------------------------------------

  ghost predicate Lists(sorted: seq<Record>, records: map<Digest, Record>) {
    && NewestFirst(sorted)
    && (forall p :: p in records ==> records[p].prefix == p)
    && forall r :: r in sorted <==> r.prefix in records && records[r.prefix] == r
  }

  /** Exactly the records before it are newer. */
  lemma PositionCountsNewer(sorted: seq<Record>, records: map<Digest, Record>, i: nat)
    requires Lists(sorted, records) && i < |sorted|
    ensures sorted[i].prefix in records && |NewerThan(records, sorted[i].prefix)| == i
  {
    var p := sorted[i].prefix;
    assert sorted[i] in sorted;
    var front := Prefixes(sorted, i);
    forall q ensures q in NewerThan(records, p) <==> q in front {
      if q in NewerThan(records, p) {
        assert records[q] in sorted;
        var j :| 0 <= j < |sorted| && sorted[j] == records[q];
        assert j < i;
      }
      if q in front {
        var j :| 0 <= j < i && sorted[j].prefix == q;
        assert sorted[j] in sorted;
      }
    }
    assert NewerThan(records, p) == front;
    PrefixesCount(sorted, records, i);
  }

  ghost function Prefixes(sorted: seq<Record>, n: nat): set<Digest>
    requires n <= |sorted|
  {
    set j | 0 <= j < n :: sorted[j].prefix
  }

  lemma {:induction false} PrefixesCount(sorted: seq<Record>, records: map<Digest, Record>, n: nat)
    requires Lists(sorted, records) && n <= |sorted|
    ensures |Prefixes(sorted, n)| == n
  {
    hide Lists;
    if n > 0 {
      PrefixesCount(sorted, records, n - 1);
      PlacesDiffer(sorted, records, n - 1);
      assert sorted[n - 1].prefix !in Prefixes(sorted, n - 1);
      assert Prefixes(sorted, n) == Prefixes(sorted, n - 1) + {sorted[n - 1].prefix};
    } else {
      assert Prefixes(sorted, 0) == {};
    }
  }

  /** The digests among the first `n` records that are not to be kept. */
  function NotKept(sorted: seq<Record>, keep: set<Digest>, n: nat): seq<Digest>
    requires n <= |sorted|
  {
    if n == 0 then []
    else NotKept(sorted, keep, n - 1) + if sorted[n - 1].prefix in keep then [] else [sorted[n - 1].prefix]
  }

  ghost function ToSet(ps: seq<Digest>): set<Digest> {
    set p | p in ps
  }

  lemma AddToSet(ps: seq<Digest>, p: Digest)
    ensures ToSet(ps + [p]) == ToSet(ps) + {p}
  {
  }

  lemma {:induction false} NotKeptMembers(sorted: seq<Record>, keep: set<Digest>, n: nat)
    requires n <= |sorted|
    ensures forall p :: p in NotKept(sorted, keep, n) <==> p in Prefixes(sorted, n) && p !in keep
  {
    if n > 0 {
      NotKeptMembers(sorted, keep, n - 1);
      assert Prefixes(sorted, n) == Prefixes(sorted, n - 1) + {sorted[n - 1].prefix};
    }
  }

  lemma {:induction false} NotKeptInOrder(sorted: seq<Record>, records: map<Digest, Record>, keep: set<Digest>, n: nat)
    requires Lists(sorted, records) && n <= |sorted|
    ensures forall a :: 0 <= a < |NotKept(sorted, keep, n)| ==>
              NotKept(sorted, keep, n)[a] in records
              && forall j :: n <= j < |sorted| ==> records[NotKept(sorted, keep, n)[a]].order > sorted[j].order
    ensures forall a, b :: 0 <= a < b < |NotKept(sorted, keep, n)| ==>
              records[NotKept(sorted, keep, n)[a]].order > records[NotKept(sorted, keep, n)[b]].order
  {
    if n > 0 {
      NotKeptInOrder(sorted, records, keep, n - 1);
      ListedRecord(sorted, records, n - 1);
    }
  }

  lemma RemovedSoFar(sorted: seq<Record>, records: map<Digest, Record>, keep: set<Digest>, n: nat)
    requires Lists(sorted, records) && n <= |sorted|
    ensures var removed := NotKept(sorted, keep, n);
            && (forall p :: p in removed ==> p in records && p !in keep)
            && forall i, j :: 0 <= i < j < |removed| ==> records[removed[i]].order > records[removed[j]].order
  {
    NotKeptMembers(sorted, keep, n);
    NotKeptInOrder(sorted, records, keep, n);
  }

  lemma ListedRecord(sorted: seq<Record>, records: map<Digest, Record>, i: nat)
    requires Lists(sorted, records) && i < |sorted|
    ensures sorted[i].prefix in records && records[sorted[i].prefix] == sorted[i]
  {
    assert sorted[i] in sorted;
  }

  lemma AllListed(sorted: seq<Record>, records: map<Digest, Record>)
    requires Lists(sorted, records)
    ensures Prefixes(sorted, |sorted|) == records.Keys
  {
    forall p | p in records ensures p in Prefixes(sorted, |sorted|) {
      assert records[p] in sorted;
    }
    forall j | 0 <= j < |sorted| ensures sorted[j].prefix in records {
      assert sorted[j] in sorted;
    }
  }

  lemma NextInList(sorted: seq<Record>, records: map<Digest, Record>, i: nat, j: nat)
    requires Lists(sorted, records) && i < |sorted| && j < |sorted|
    ensures sorted[i].prefix in records && sorted[j].prefix in records
    ensures NextOlder(records, sorted[i].prefix, sorted[j].prefix) <==> j == i + 1
  {
    assert sorted[i] in sorted && sorted[j] in sorted;
    if j == i + 1 {
      forall q | q in records && records[q].order < sorted[i].order ensures records[q].order <= sorted[j].order {
        assert records[q] in sorted;
        var k :| 0 <= k < |sorted| && sorted[k] == records[q];
        assert k >= j;
      }
    } else if j > i + 1 {
      assert sorted[i + 1] in sorted;
      assert records[sorted[i + 1].prefix].order > sorted[j].order;
    } else if j < i {
      assert sorted[j].order > sorted[i].order;
    }
  }

  class Sysroot {
    var dirs: set<Digest>
    var records: map<Digest, Record>
    var images: set<string>
    var nextSeq: nat

    ghost function Now(): State
      reads this
    {
      State(dirs, records, images, nextSeq)
    }

    // ---- Records -------------------------------------------------------------------------------------

    /** The records of all deploy directories, read in no particular order; directories without one are skipped. */
    method ReadAll() returns (all: seq<Record>)
      requires WellFormed(Now())
      ensures forall r :: r in all <==> r.prefix in records && records[r.prefix] == r
      ensures forall i, j :: 0 <= i < j < |all| ==> all[i].order != all[j].order
    {
      all := [];
      var rest := dirs;
      while rest != {}
        invariant rest <= dirs
        invariant forall r :: r in all <==> r.prefix in dirs - rest && r.prefix in records && records[r.prefix] == r
        invariant forall i, j :: 0 <= i < j < |all| ==> all[i].order != all[j].order
      {
        var d :| d in rest;
        rest := rest - {d};
        if d in records {
          forall i | 0 <= i < |all| ensures all[i].order != records[d].order {
            assert all[i] in all;
          }
          all := all + [records[d]];
        }
      }
    }

    method WriteRecord(r: Record) returns (written: WrittenRecord)
      modifies this`records
      ensures Now() == Put(old(Now()), r)
      ensures written
           == WrittenRecord(r.prefix, if r.prefix in old(records) then Some(old(records)[r.prefix]) else None)
    {
      written := WrittenRecord(r.prefix, if r.prefix in records then Some(records[r.prefix]) else None);
      records := records[r.prefix := r];
    }

    /** Rolls back one written record; where its directory is gone the record cannot be written back. */
    method RestoreRecord(written: WrittenRecord)
      modifies this`records
      ensures records == if written.previous.None? then old(records) - {written.prefix}
                         else if written.prefix in dirs then old(records)[written.prefix := written.previous.value]
                         else old(records)
    {
      if written.previous.None? {
        records := records - {written.prefix};
      } else if written.prefix in dirs {
        records := records[written.prefix := written.previous.value];
      }
    }

    /** The end of a failed run: after the stage of event `e`, and perhaps a retention pass, its record is rolled
        back. */
    method FailRun(written: Option<WrittenRecord>, retention: Option<Retention>, ghost before: State, ghost e: Event)
        returns (ghost pass: Option<Pass>)
      requires WellFormed(before) && WellFormed(Now()) && HasGuard(e) && Now() == Step(before, e)
      requires if written.Some? then Undoes(written.value, records, before.records) else records == before.records
      modifies this`dirs, this`records
      ensures Now() == Step(before, Unwound(e, pass))
      ensures pass.Some? <==> retention.Some?
    {
      hide Step, WellFormed, Dropped, Kept;
      pass := None;
      ghost var done := Now();
      if retention.Some? {
        var _, removed := PruneDeploys(retention.value.booted, retention.value.depth, retention.value.limit);
        pass := Some(Pass(retention.value.booted, retention.value.depth, ToSet(removed)));
      }
      ghost var left := Now();
      if written.Some? {
        RestoreRecord(written.value);
      }
      RestoredAfter(before, e, done, left, records, written, pass);
    }

    method AllocateSeq() returns (current: nat)
      modifies this`nextSeq
      ensures current == old(nextSeq) && nextSeq == old(nextSeq) + 1
    {
      current := nextSeq;
      nextSeq := current + 1;
    }

    /** Points the record at a new configuration and adds it to the history, unless it is the one in use. */
    method SetWorkingConfig(r: Record, config: Digest, note: Note) returns (written: Option<WrittenRecord>)
      modifies this`records
      ensures if r.working == config then written.None? && records == old(records)
              else Now() == Put(old(Now()), UpdateWorkingConfig(r, config, note))
                   && written.Some? && Undoes(written.value, records, old(records))
    {
      if r.working == config {
        return None;
      }
      var entry := HistoryEntry(config, note.subject, note.message);
      var w := WriteRecord(r.(working := config, history := r.history + [entry]));
      written := Some(w);
      PutUndone(old(records), r.prefix, records[r.prefix]);
    }

    // ---- Stages --------------------------------------------------------------------------------------

    /** The record of a deploy, or a new one in a new directory. */
    method RecordOf(prefix: Digest, note: Note) returns (r: Record)
      modifies this`dirs, this`nextSeq
      ensures r == RecordFor(old(Now()), prefix, note)
      ensures Now() == Prepared(old(Now()), prefix)
    {
      if prefix in records {
        return records[prefix];
      }
      dirs := dirs + {prefix};
      var order := AllocateSeq();
      r := Record(prefix, note.subject, note.message, order, note.time, [], "", false);
    }

    /** The merge stage of install, update and uninstall; an earlier stage has stored the new system image. */
    method MergeStage(booted: Digest, prefix: Digest, config: Digest, note: Note)
        returns (ok: bool, written: Option<WrittenRecord>)
      requires WellFormed(Now())
      modifies this
      ensures Now() == Step(old(Now()), Merge(booted, prefix, config, note))
      ensures if written.Some? then Undoes(written.value, records, old(records)) else records == old(records)
      ensures ok <==> booted in old(records) && old(records)[booted].working in old(images) + {prefix}
    {
      images := images + {prefix};
      if booted !in records || records[booted].working !in images {
        return false, None;
      }
      images := images + {config};
      var r := RecordOf(prefix, note);
      written := SetWorkingConfig(r, config, note);
      ok := true;
      UnchangedPut(Prepared(old(Now()).(images := images), prefix), r);
    }

    method CommitFiles(booted: Digest, prefix: Digest, note: Note) returns (ok: bool, written: Option<WrittenRecord>)
      modifies this
      ensures Now() == Step(old(Now()), Event.CommitFiles(booted, prefix, note))
      ensures if written.Some? then Undoes(written.value, records, old(records)) else records == old(records)
      ensures ok <==> booted in old(records)
    {
      images := images + {prefix};
      if booted !in records {
        return false, None;
      }
      var current := records[booted];
      written := None;
      if prefix !in records {
        var r := RecordOf(prefix, note);
        var w := WriteRecord(r.(history := current.history, working := current.working));
        written := Some(w);
        PutUndone(old(records), prefix, records[prefix]);
      }
      ok := true;
    }

    method CommitConfig(booted: Digest, config: Digest, note: Note) returns (ok: bool, written: Option<WrittenRecord>)
      requires WellFormed(Now())
      modifies this
      ensures Now() == Step(old(Now()), Event.CommitConfig(booted, config, note))
      ensures if written.Some? then Undoes(written.value, records, old(records)) else records == old(records)
      ensures ok <==> booted in old(records) && old(records)[booted].working in old(images)
    {
      if booted !in records || records[booted].working !in images {
        return false, None;
      }
      images := images + {config};
      written := SetWorkingConfig(records[booted], config, note);
      ok := true;
      UnchangedPut(old(Now()).(images := images), old(records)[booted]);
    }

    /** The deploy that owns a configuration: the booted one's working configuration, or the first owner found. */
    method ResolveConfigDigest(requested: Option<string>, booted: Digest) returns (found: Option<(string, Digest)>)
      requires WellFormed(Now())
      ensures found.Some? ==> found.value.1 in records && Owns(records[found.value.1], found.value.0)
      ensures found.Some? && Stored(Now()) ==> found.value.0 in images
      ensures found.Some? && requested.Some? ==> found.value.0 == requested.value
      ensures found.Some? && requested.None? ==> booted in records && found.value == (records[booted].working, booted)
      ensures found.None? ==> if requested.None? then booted !in records
                              else forall p :: p in records ==> !Owns(records[p], requested.value)
    {
      if requested.None? {
        return if booted in records then Some((records[booted].working, booted)) else None;
      }
      var all := ReadAll();
      for i := 0 to |all|
        invariant forall j :: 0 <= j < i ==> !Owns(all[j], requested.value)
      {
        assert all[i] in all;
        if Owns(all[i], requested.value) {
          return Some((requested.value, all[i].prefix));
        }
      }
      forall p | p in records ensures !Owns(records[p], requested.value) {
        assert records[p] in all;
      }
      found := None;
    }

    method RollbackTo(requested: Digest, booted: Digest)
        returns (target: Option<Digest>, written: Option<WrittenRecord>)
      requires WellFormed(Now())
      modifies this`records
      ensures target.None? <==> forall p :: p in old(records) ==>
                old(records)[p].working != requested
                && forall i :: 0 <= i < |old(records)[p].history| ==> old(records)[p].history[i].digest != requested
      ensures target.None? ==> records == old(records)
      ensures target.Some? ==>
                target.value in old(records)
                && records == old(records)[target.value := old(records)[target.value].(working := requested)]
      ensures if target.None? then Now() == old(Now()) && forall p :: p in records ==> !Owns(records[p], requested)
              else target.value in old(records) && Owns(old(records)[target.value], requested)
                   && Now() == Step(old(Now()), Rollback(target.value, requested))
      ensures if written.Some? then Undoes(written.value, records, old(records)) else records == old(records)
    {
      var found := ResolveConfigDigest(Some(requested), booted);
      written := None;
      if found.None? {
        return None, None;
      }
      var r := records[found.value.1];
      target := Some(r.prefix);
      UnchangedPut(old(Now()), r);
      if r.working != requested {
        var w := WriteRecord(r.(working := requested));
        written := Some(w);
        PutUndone(old(records), r.prefix, records[r.prefix]);
      } else {
        assert r.(working := requested) == r;
      }
    }

    method SetPinned(prefix: Digest, pinned: bool) returns (ok: bool, written: Option<WrittenRecord>)
      requires WellFormed(Now())
      modifies this`records
      ensures Now() == Step(old(Now()), Pin(prefix, pinned))
      ensures if written.Some? then Undoes(written.value, records, old(records)) else records == old(records)
      ensures ok <==> prefix in old(records)
      ensures records == if ok then old(records)[prefix := old(records)[prefix].(pinned := pinned)] else old(records)
    {
      written := None;
      ok := prefix in records;
      if ok {
        var r := records[prefix];
        UnchangedPut(old(Now()), r);
        if r.pinned != pinned {
          var w := WriteRecord(r.(pinned := pinned));
          written := Some(w);
          PutUndone(old(records), prefix, records[prefix]);
        } else {
          assert r.(pinned := pinned) == r;
        }
      }
    }

    // ---- Retention and collection --------------------------------------------------------------------

    /** Removes the deploys that retention does not keep, newest first; the removal after `limit` others fails. */
    method PruneDeploys(booted: Option<Digest>, depth: nat, limit: Option<nat>) returns (ok: bool, removed: seq<Digest>)
      requires WellFormed(Now())
      modifies this`dirs, this`records
      ensures Now() == PartlyPruned(old(Now()), Pass(booted, depth, ToSet(removed)))
      ensures forall p :: p in removed ==> p in Dropped(old(records), booted, depth)
      ensures ok ==> Now() == Pruned(old(Now()), booted, depth)
                     && forall p :: p in Dropped(old(records), booted, depth) ==> p in removed
      ensures !ok ==> limit == Some(|removed|)
      ensures forall i, j :: 0 <= i < j < |removed| ==>
                removed[i] in old(records) && removed[j] in old(records)
                && old(records)[removed[i]].order > old(records)[removed[j]].order
    {
      hide Kept, KeptAt, Dropped;
      var all := ReadAll();
      var sorted := SortNewestFirst(all);
      assert Lists(sorted, records);
      var keep := KeepSet(sorted, booted, depth);
      RemovedAreDropped(sorted, records, booted, depth, keep);
      ok, removed := RemoveDeploys(sorted, keep, limit);
      assert Dropped(old(records), booted, depth) * ToSet(removed) == ToSet(removed);
    }

    method RemoveDeploys(sorted: seq<Record>, keep: set<Digest>, limit: Option<nat>)
        returns (ok: bool, removed: seq<Digest>)
      requires Lists(sorted, records)
      modifies this`dirs, this`records
      ensures forall p :: p in removed ==> p in old(records) && p !in keep
      ensures ok ==> ToSet(removed) == old(records).Keys - keep
      ensures !ok ==> limit == Some(|removed|)
      ensures forall i, j :: 0 <= i < j < |removed| ==> old(records)[removed[i]].order > old(records)[removed[j]].order
      ensures dirs == old(dirs) - ToSet(removed) && records == old(records) - ToSet(removed)
    {
      hide Lists, NewestFirst;
      ghost var before := records;
      removed := [];
      for i := 0 to |sorted|
        invariant removed == NotKept(sorted, keep, i)
        invariant dirs == old(dirs) - ToSet(removed) && records == before - ToSet(removed)
      {
        if sorted[i].prefix !in keep {
          if limit == Some(|removed|) {
            RemovedSoFar(sorted, before, keep, i);
            return false, removed;
          }
          AddToSet(removed, sorted[i].prefix);
          ghost var gone := ToSet(removed);
          dirs := dirs - {sorted[i].prefix};
          records := records - {sorted[i].prefix};
          removed := removed + [sorted[i].prefix];
          assert records == before - ToSet(removed);
        }
      }
      RemovedSoFar(sorted, before, keep, |sorted|);
      NotKeptMembers(sorted, keep, |sorted|);
      AllListed(sorted, before);
      assert ToSet(removed) == before.Keys - keep;
      ok := true;
    }

    /** Collects the roots of every deploy, one at a time in any order; a directory without a record is an error. */
    method CollectRoots() returns (ok: bool, roots: set<string>)
      requires WellFormed(Now())
      ensures ok <==> Collectable(Now())
      ensures ok ==> forall d :: d in roots <==> IsRoot(records, d)
    {
      hide RootOf, IsRoot;
      var pending := dirs;
      roots := {};
      if pending == {} {
        return false, roots;
      }
      ghost var seen: set<Digest> := {};
      while pending != {}
        invariant pending + seen == dirs && pending !! seen && seen <= records.Keys
        invariant forall d :: d in roots <==> exists p :: p in seen && RootOf(records[p], d)
      {
        var prefix :| prefix in pending;
        pending := pending - {prefix};
        if prefix !in records {
          return false, roots;
        }
        var r := records[prefix];
        roots := roots + RootsOf(r);
        RootsOfRecord(r);
        seen := seen + {prefix};
      }
      assert seen == dirs == records.Keys;
      RootsAreComplete(records, roots);
      ok := true;
    }

    /** Prunes, collects the roots of every remaining deploy, and sweeps the store. */
    method CollectGarbage(booted: Option<Digest>, depth: nat, others: set<string>) returns (ok: bool)
      requires WellFormed(Now())
      modifies this`dirs, this`records, this`images
      ensures Now() == Step(old(Now()), Gc(booted, depth, others))
      ensures ok <==> Collectable(Pruned(old(Now()), booted, depth))
    {
      hide Pruned, IsRoot, Collectable;
      PruneKeepsWellFormed(Now(), booted, depth);
      var _, _ := PruneDeploys(booted, depth, None);
      var roots;
      ok, roots := CollectRoots();
      if ok {
        images := set d | d in images && (d in roots || d in others);
      }
    }
  }

  /** What the collection stage takes from one record. */
  predicate RootOf(r: Record, digest: string) {
    digest == r.prefix || (r.working != "" && digest == r.working) || InHistory(r.history, digest)
  }

  function RootsOf(r: Record): set<string> {
    var config: set<string> := if r.working != "" then {r.working} else {};
    var history: set<string> := set i | 0 <= i < |r.history| :: r.history[i].digest;
    {r.prefix} + config + history
  }

  lemma RootsOfRecord(r: Record)
    ensures forall d :: d in RootsOf(r) <==> RootOf(r, d)
  {
  }

  lemma RootsAreComplete(records: map<Digest, Record>, roots: set<string>)
    requires forall p :: p in records ==> records[p].prefix == p
    requires forall d :: d in roots <==> exists p :: p in records && RootOf(records[p], d)
    ensures forall d :: d in roots <==> IsRoot(records, d)
  {
    forall d ensures d in roots <==> IsRoot(records, d) {
      if d in roots {
        var p :| p in records && RootOf(records[p], d);
        assert IsRoot(records, d);
      }
      if IsRoot(records, d) {
        var p :| p in records && (p == d || (records[p].working != "" && Owns(records[p], d))
                                  || InHistory(records[p].history, d));
        assert RootOf(records[p], d);
      }
    }
  }

  /** The booted deploy and the next older one. */
  method KeepBooted(sorted: seq<Record>, booted: Option<Digest>) returns (keep: set<Digest>, ghost places: set<nat>)
    ensures AtPlaces(sorted, keep, places)
    ensures forall i :: 0 <= i < |sorted| ==> (i in places <==> BootedAt(sorted, booted, i))
  {
    hide BootedAt;
    keep, places := {}, {};
    var index := |sorted|;
    if booted.Some? {
      index := 0;
      while index < |sorted| && sorted[index].prefix != booted.value
        invariant index <= |sorted|
        invariant forall j :: 0 <= j < index ==> sorted[j].prefix != booted.value
      {
        index := index + 1;
      }
      if index < |sorted| {
        keep, places := {sorted[index].prefix}, {index};
        if index + 1 < |sorted| {
          keep, places := keep + {sorted[index + 1].prefix}, {index, index + 1};
        }
      }
    }
    forall i | 0 <= i < |sorted| ensures i in places <==> BootedAt(sorted, booted, i) {
      BootedPlaces(sorted, booted, index, i);
    }
  }

  lemma BootedPlaces(sorted: seq<Record>, booted: Option<Digest>, index: nat, i: nat)
    requires index <= |sorted| && i < |sorted|
    requires booted.None? ==> index == |sorted|
    requires booted.Some? ==> forall j :: 0 <= j < index ==> sorted[j].prefix != booted.value
    requires booted.Some? && index < |sorted| ==> sorted[index].prefix == booted.value
    ensures BootedAt(sorted, booted, i) <==> i == index || i == index + 1
  {
    FirstPlace(sorted, booted, index, i);
    if i > 0 {
      FirstPlace(sorted, booted, index, i - 1);
    }
  }

  lemma FirstPlace(sorted: seq<Record>, booted: Option<Digest>, index: nat, i: nat)
    requires index <= |sorted| && i < |sorted|
    requires booted.None? ==> index == |sorted|
    requires booted.Some? ==> forall j :: 0 <= j < index ==> sorted[j].prefix != booted.value
    requires booted.Some? && index < |sorted| ==> sorted[index].prefix == booted.value
    ensures IsFirst(sorted, booted, i) <==> i == index
  {
  }

  /** The digests that retention keeps, from the records sorted newest first. */
  method KeepSet(sorted: seq<Record>, booted: Option<Digest>, depth: nat) returns (keep: set<Digest>)
    ensures forall p :: p in keep <==> StaysByPlace(sorted, booted, depth, p)
  {
    hide AtPlaces, StaysByPlace, BootedAt;
    ghost var places: set<nat>;
    keep, places := KeepBooted(sorted, booted);
    ghost var start := places;
    for i := 0 to |sorted|
      invariant AtPlaces(sorted, keep, places)
      invariant forall j :: 0 <= j < |sorted| ==> (j in places <==> j in start || (j < i && sorted[j].pinned))
    {
      if sorted[i].pinned {
        OneMorePlace(sorted, keep, places, i);
        keep, places := keep + {sorted[i].prefix}, places + {i};
      }
    }
    var newest := if depth < |sorted| then depth else |sorted|;
    ghost var middle := places;
    for i := 0 to newest
      invariant AtPlaces(sorted, keep, places)
      invariant forall j :: 0 <= j < |sorted| ==> (j in places <==> j in middle || j < i)
    {
      OneMorePlace(sorted, keep, places, i);
      keep, places := keep + {sorted[i].prefix}, places + {i};
    }
    forall i | 0 <= i < |sorted| ensures i in places <==> KeptAt(sorted, booted, depth, i) {
      assert i in middle <==> i in start || sorted[i].pinned;
    }
    KeptPlaces(sorted, booted, depth, keep, places);
  }

  lemma OneMorePlace(sorted: seq<Record>, keep: set<Digest>, places: set<nat>, i: nat)
    requires AtPlaces(sorted, keep, places) && i < |sorted|
    ensures AtPlaces(sorted, keep + {sorted[i].prefix}, places + {i})
  {
    forall p | p in keep + {sorted[i].prefix}
      ensures exists j :: j in places + {i} && j < |sorted| && sorted[j].prefix == p
    {
      if p == sorted[i].prefix {
        assert i in places + {i};
      } else {
        var j :| j in places && j < |sorted| && sorted[j].prefix == p;
        assert j in places + {i};
      }
    }
  }

  lemma KeptPlaces(sorted: seq<Record>, booted: Option<Digest>, depth: nat, keep: set<Digest>, places: set<nat>)
    requires AtPlaces(sorted, keep, places)
    requires forall i :: 0 <= i < |sorted| ==> (i in places <==> KeptAt(sorted, booted, depth, i))
    ensures forall p :: p in keep <==> StaysByPlace(sorted, booted, depth, p)
  {
    hide KeptAt;
    forall p ensures p in keep <==> StaysByPlace(sorted, booted, depth, p) {
    }
  }

  ghost predicate AtPlaces(sorted: seq<Record>, keep: set<Digest>, places: set<nat>) {
    && (forall i :: i in places ==> i < |sorted| && sorted[i].prefix in keep)
    && forall p :: p in keep ==> exists i :: i in places && i < |sorted| && sorted[i].prefix == p
  }

  predicate IsFirst(sorted: seq<Record>, booted: Option<Digest>, i: nat)
    requires i < |sorted|
  {
    booted == Some(sorted[i].prefix) && forall j :: 0 <= j < i ==> sorted[j].prefix != sorted[i].prefix
  }

  /** The place of the booted deploy, or the one after it. */
  predicate BootedAt(sorted: seq<Record>, booted: Option<Digest>, i: nat)
    requires i < |sorted|
  {
    IsFirst(sorted, booted, i) || (0 < i && IsFirst(sorted, booted, i - 1))
  }

  /** Kept by its place in the sorted list. */
  predicate KeptAt(sorted: seq<Record>, booted: Option<Digest>, depth: nat, i: nat)
    requires i < |sorted|
  {
    BootedAt(sorted, booted, i) || sorted[i].pinned || i < depth
  }

  ghost predicate StaysByPlace(sorted: seq<Record>, booted: Option<Digest>, depth: nat, p: Digest) {
    exists i :: 0 <= i < |sorted| && sorted[i].prefix == p && KeptAt(sorted, booted, depth, i)
  }

  /** Kept by place is kept by rule. */
  lemma PlaceIsRule(sorted: seq<Record>, records: map<Digest, Record>, booted: Option<Digest>, depth: nat, i: nat)
    requires Lists(sorted, records) && i < |sorted|
    ensures sorted[i].prefix in records
    ensures KeptAt(sorted, booted, depth, i) <==> Kept(records, booted, depth, sorted[i].prefix)
  {
    assert sorted[i] in sorted;
    PositionCountsNewer(sorted, records, i);
    forall k | 0 <= k < |sorted| ensures IsFirst(sorted, booted, k) <==> booted == Some(sorted[k].prefix) {
      PlacesDiffer(sorted, records, k);
    }
    if booted.Some? && booted.value in records {
      assert records[booted.value] in sorted;
      var k :| 0 <= k < |sorted| && sorted[k] == records[booted.value];
      NextInList(sorted, records, k, i);
      PlacesDiffer(sorted, records, k);
    } else {
      forall k | 0 <= k < |sorted| ensures booted != Some(sorted[k].prefix) {
        assert sorted[k] in sorted;
      }
    }
  }

  lemma PlacesDiffer(sorted: seq<Record>, records: map<Digest, Record>, k: nat)
    requires Lists(sorted, records) && k < |sorted|
    ensures forall j :: 0 <= j < |sorted| && sorted[j].prefix == sorted[k].prefix ==> j == k
  {
    forall j | 0 <= j < |sorted| && sorted[j].prefix == sorted[k].prefix ensures j == k {
      assert sorted[j] in sorted && sorted[k] in sorted;
    }
  }

  lemma RemovedAreDropped(sorted: seq<Record>, records: map<Digest, Record>, booted: Option<Digest>, depth: nat,
                          keep: set<Digest>)
    requires Lists(sorted, records)
    requires forall p :: p in keep <==> StaysByPlace(sorted, booted, depth, p)
    ensures records.Keys - keep == Dropped(records, booted, depth)
  {
    hide KeptAt, Kept;
    forall p | p in records ensures p in keep <==> Kept(records, booted, depth, p) {
      assert records[p] in sorted;
      var i :| 0 <= i < |sorted| && sorted[i] == records[p];
      PlaceIsRule(sorted, records, booted, depth, i);
      PlacesDiffer(sorted, records, i);
    }
  }

  lemma PruneKeepsWellFormed(s: State, booted: Option<Digest>, depth: nat)
    requires WellFormed(s)
    ensures WellFormed(Pruned(s, booted, depth))
  {
    hide Kept;
  }

  lemma UnchangedPut(s: State, r: Record)
    ensures r.prefix in s.records && s.records[r.prefix] == r ==> Put(s, r) == s
  {
    if r.prefix in s.records && s.records[r.prefix] == r {
      assert s.records[r.prefix := r] == s.records;
    }
  }

  /** Rolling back the written record turns `now` back into `before`. */
  ghost predicate Undoes(w: WrittenRecord, now: map<Digest, Record>, before: map<Digest, Record>) {
    before == if w.previous.Some? then now[w.prefix := w.previous.value] else now - {w.prefix}
  }

  /** Restoring the one record a stage wrote restores all of them, in the directories that are still there. */
  lemma RestoredAfter(before: State, e: Event, done: State, left: State, records: map<Digest, Record>,
                      written: Option<WrittenRecord>, pass: Option<Pass>)
    requires WellFormed(before) && WellFormed(done) && HasGuard(e) && done == Step(before, e)
    requires left == if pass.Some? then PartlyPruned(done, pass.value) else done
    requires if written.Some? then Undoes(written.value, done.records, before.records)
             else done.records == before.records
    requires records == if written.None? then left.records
                        else if written.value.previous.None? then left.records - {written.value.prefix}
                        else if written.value.prefix in left.dirs
                             then left.records[written.value.prefix := written.value.previous.value]
                        else left.records
    ensures left.(records := records) == Step(before, Unwound(e, pass))
  {
    hide Dropped, Step, Undoes, WellFormed;
    DirectoriesStay(before, e);
    var gone := if pass.Some? then Dropped(done.records, pass.value.booted, pass.value.depth) * pass.value.reached
                else {};
    DroppedAreRecords(done.records, pass);
    assert done.records - {} == done.records && done.dirs - {} == done.dirs;
    RestoredMaps(before.records, done.records, done.dirs, gone, written, records);
    UnwoundIsRestored(before, e, pass);
  }

  lemma UnwoundIsRestored(s: State, e: Event, pass: Option<Pass>)
    requires HasGuard(e)
    ensures Step(s, Unwound(e, pass))
         == Deploys.Restored(s.records, if pass.Some? then PartlyPruned(Step(s, e), pass.value) else Step(s, e))
  {
  }

  lemma DroppedAreRecords(records: map<Digest, Record>, pass: Option<Pass>)
    ensures pass.Some? ==> Dropped(records, pass.value.booted, pass.value.depth) <= records.Keys
  {
    hide Kept;
  }

  lemma RestoredMaps(before: map<Digest, Record>, done: map<Digest, Record>, dirs: set<Digest>, gone: set<Digest>,
                     written: Option<WrittenRecord>, records: map<Digest, Record>)
    requires before.Keys <= dirs && gone <= done.Keys
    requires if written.Some? then Undoes(written.value, done, before) else done == before
    requires records == if written.None? then done - gone
                        else if written.value.previous.None? then done - gone - {written.value.prefix}
                        else if written.value.prefix in dirs - gone
                             then (done - gone)[written.value.prefix := written.value.previous.value]
                        else done - gone
    ensures records == map p | p in before && p in dirs - gone :: before[p]
  {
    forall p ensures p in records <==> p in before && p in dirs - gone {
    }
  }

  lemma DirectoriesStay(s: State, e: Event)
    requires HasGuard(e) && WellFormed(s)
    ensures s.records.Keys <= Step(s, e).dirs
  {
  }

  lemma PutUndone(records: map<Digest, Record>, prefix: Digest, r: Record)
    ensures Undoes(WrittenRecord(prefix, if prefix in records then Some(records[prefix]) else None),
                   records[prefix := r], records)
  {
    if prefix in records {
      assert records[prefix := r][prefix := records[prefix]] == records;
    } else {
      assert records[prefix := r] - {prefix} == records;
    }
  }
}
