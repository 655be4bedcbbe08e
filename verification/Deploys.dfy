/** Deploy records, the image store, and the operations that change them.

    Each deploy has a directory named after the digest of its system image, holding its record.  The record lists the
    configuration images committed under the deploy and names the one in use.  This module says what each operation
    does to that state; which deploy is booted, and the digests of newly committed images, are inputs.
  */
module Deploys {
  import opened Basics

  /** Digests of committed images are never empty; a record under construction has no working configuration yet. */
  type Digest = d: string | d != "" witness "0"

  datatype HistoryEntry = HistoryEntry(digest: Digest, subject: string, message: Option<string>)

  datatype Record = Record(prefix: Digest, subject: string, message: Option<string>, order: nat, timestamp: nat,
                           history: seq<HistoryEntry>, working: string, pinned: bool)

  /** `dirs` are the deploy directories; `records` those that hold a record; `images` what the store can open. */
  datatype State = State(dirs: set<Digest>, records: map<Digest, Record>, images: set<string>, nextSeq: nat)

  datatype Note = Note(subject: string, message: Option<string>, time: nat)

  predicate InHistory(history: seq<HistoryEntry>, digest: string) {
    exists i :: 0 <= i < |history| && history[i].digest == digest
  }

  /** The configuration digests a record can be asked for. */
  predicate Owns(r: Record, digest: string) {
    r.working == digest || InHistory(r.history, digest)
  }

  /** The working configuration is one of the history. */
  predicate Grounded(r: Record) {
    InHistory(r.history, r.working)
  }

  // ---- Operations ----------------------------------------------------------------------------------

  function UpdateWorkingConfig(r: Record, config: Digest, note: Note): Record {
    if r.working == config then r
    else r.(working := config, history := r.history + [HistoryEntry(config, note.subject, note.message)])
  }

  /** The record of the deploy, or a new one with a fresh sequence number. */
  function RecordFor(s: State, prefix: Digest, note: Note): Record {
    if prefix in s.records then s.records[prefix]
    else Record(prefix, note.subject, note.message, s.nextSeq, note.time, [], "", false)
  }

  function Put(s: State, r: Record): State {
    s.(records := s.records[r.prefix := r])
  }

  /** Makes the directory of a deploy that has no record yet, and spends a sequence number on it. */
  function Prepared(s: State, prefix: Digest): State {
    if prefix in s.records then s else s.(dirs := s.dirs + {prefix}, nextSeq := s.nextSeq + 1)
  }

  /** The booted deploy has a record whose working configuration can be opened. */
  predicate CanStart(s: State, booted: Digest) {
    booted in s.records && s.records[booted].working in s.images
  }

  /** Install, update, uninstall: a merged configuration under a possibly new system image. */
  function Merged(s: State, booted: Digest, prefix: Digest, config: Digest, note: Note): State {
    var stored := s.(images := s.images + {prefix});
    if !CanStart(stored, booted) then stored
    else
      Put(Prepared(stored.(images := stored.images + {config}), prefix),
          UpdateWorkingConfig(RecordFor(s, prefix, note), config, note))
  }

  /** Adding or removing files of the user: a new system image under the booted deploy's configuration. */
  function FilesCommitted(s: State, booted: Digest, prefix: Digest, note: Note): State {
    var stored := s.(images := s.images + {prefix});
    if booted !in s.records || prefix in s.records then stored
    else
      var current := s.records[booted];
      Put(Prepared(stored, prefix),
          RecordFor(s, prefix, note).(history := current.history, working := current.working))
  }

  /** Committing the configuration of the booted deploy. */
  function ConfigCommitted(s: State, booted: Digest, config: Digest, note: Note): State {
    if !CanStart(s, booted) then s
    else Put(s.(images := s.images + {config}), UpdateWorkingConfig(s.records[booted], config, note))
  }

  /** Going back to a configuration that the deploy `prefix` owns. */
  function RolledBack(s: State, prefix: Digest, config: Digest): State {
    if prefix in s.records && Owns(s.records[prefix], config)
    then Put(s, s.records[prefix].(working := config)) else s
  }

  function Pinned(s: State, prefix: Digest, pinned: bool): State {
    if prefix in s.records then Put(s, s.records[prefix].(pinned := pinned)) else s
  }

  // ---- Retention -----------------------------------------------------------------------------------

  function NewerThan(records: map<Digest, Record>, p: Digest): set<Digest>
    requires p in records
  {
    set q | q in records && records[q].order > records[p].order
  }

  /** `p` is the next older deploy after `b`. */
  predicate NextOlder(records: map<Digest, Record>, b: Digest, p: Digest)
    requires b in records && p in records
  {
    && records[p].order < records[b].order
    && forall q :: q in records && records[q].order < records[b].order ==> records[q].order <= records[p].order
  }

  /** What retention never removes. */
  predicate Kept(records: map<Digest, Record>, booted: Option<Digest>, depth: nat, p: Digest)
    requires p in records
  {
    || booted == Some(p)
    || (booted.Some? && booted.value in records && NextOlder(records, booted.value, p))
    || records[p].pinned
    || |NewerThan(records, p)| < depth
  }

  function Dropped(records: map<Digest, Record>, booted: Option<Digest>, depth: nat): set<Digest> {
    set p | p in records && !Kept(records, booted, depth, p)
  }

  function Pruned(s: State, booted: Option<Digest>, depth: nat): State {
    var gone := Dropped(s.records, booted, depth);
    s.(dirs := s.dirs - gone, records := s.records - gone)
  }

  /** A retention pass that removed, of the deploys it drops, only those in `reached` before it failed. */
  datatype Pass = Pass(booted: Option<Digest>, depth: nat, reached: set<Digest>)

  function PartlyPruned(s: State, pass: Pass): State {
    var gone := Dropped(s.records, pass.booted, pass.depth) * pass.reached;
    s.(dirs := s.dirs - gone, records := s.records - gone)
  }

  // ---- Garbage collection --------------------------------------------------------------------------

  predicate IsRoot(records: map<Digest, Record>, digest: string) {
    exists p :: p in records && (p == digest || (records[p].working != "" && Owns(records[p], digest))
                                 || InHistory(records[p].history, digest))
  }

  /** Every deploy directory holds a record, and there is at least one. */
  predicate Collectable(s: State) {
    s.dirs == s.records.Keys && s.dirs != {}
  }

  /** Prunes, then sweeps the store; `others` are images the repository itself still refers to. */
  function Collected(s: State, booted: Option<Digest>, depth: nat, others: set<string>): State {
    var pruned := Pruned(s, booted, depth);
    if !Collectable(pruned) then pruned
    else pruned.(images := set d | d in pruned.images && (IsRoot(pruned.records, d) || d in others))
  }

  // ---- Runs ----------------------------------------------------------------------------------------

  /** The target system right after setup. */
  function Genesis(prefix: Digest, config: Digest, pinned: bool, time: nat): State {
    State({prefix}, map[prefix := Record(prefix, "genesis", None, 0, time, [], config, pinned)], {prefix, config}, 1)
  }

  datatype Event =
    | Merge(booted: Digest, prefix: Digest, config: Digest, note: Note)
    | CommitFiles(booted: Digest, prefix: Digest, note: Note)
    | CommitConfig(booted: Digest, config: Digest, note: Note)
    | Rollback(prefix: Digest, config: Digest)
    | Pin(prefix: Digest, pinned: bool)
    | Prune(current: Option<Digest>, depth: nat)
    | Gc(current: Option<Digest>, depth: nat, others: set<string>)
    | Interrupted(cut: Pass)
    | Aborted(images: set<string>)
    | Unwound(event: Event, pass: Option<Pass>)

  /** What an event does.

      An interrupted one is a retention pass that failed.  An aborted one failed before any record was written and left
      only new images.  An unwound one did its work, after which the run failed and the record was restored, before its
      retention pass, during it or after it; a record whose directory has been removed cannot be restored, and the
      directory, the images and the sequence number are not given back.
    */
  function Step(s: State, e: Event): State {
    match e
    case Merge(booted, prefix, config, note) => Merged(s, booted, prefix, config, note)
    case CommitFiles(booted, prefix, note) => FilesCommitted(s, booted, prefix, note)
    case CommitConfig(booted, config, note) => ConfigCommitted(s, booted, config, note)
    case Rollback(prefix, config) => RolledBack(s, prefix, config)
    case Pin(prefix, pinned) => Pinned(s, prefix, pinned)
    case Prune(current, depth) => Pruned(s, current, depth)
    case Gc(current, depth, others) => Collected(s, current, depth, others)
    case Interrupted(pass) => PartlyPruned(s, pass)
    case Aborted(images) => s.(images := s.images + images)
    case Unwound(event, pass) =>
      if !HasGuard(event) then s
      else
        var done := Step(s, event);
        Restored(s.records, if pass.Some? then PartlyPruned(done, pass.value) else done)
  }

  /** The events whose record is written under a guard. */
  predicate HasGuard(e: Event) {
    e.Merge? || e.CommitFiles? || e.CommitConfig? || e.Rollback? || e.Pin?
  }

  /** The earlier records in the directories that are still there. */
  function Restored(records: map<Digest, Record>, s: State): State {
    s.(records := map p | p in records && p in s.dirs :: records[p])
  }

  function Run(s: State, events: seq<Event>): State
    decreases |events|
  {
    if events == [] then s else Step(Run(s, events[..|events| - 1]), events[|events| - 1])
  }

  // ---- What each event leaves on the records ---------------------------------------------------------

  /** Only the record at `p` may differ. */
  ghost predicate OnlyAt(s: State, s': State, p: Digest) {
    s'.records - {p} == s.records - {p}
  }

  /** A merge gives the record of its system image the merged configuration, as its last history entry unless it was in
      use already; a new record has just that entry. */
  lemma MergeRecords(s: State, booted: Digest, prefix: Digest, config: Digest, note: Note)
    requires WellFormed(s) && booted in s.records && s.records[booted].working in s.images + {prefix}
    ensures var s' := Step(s, Merge(booted, prefix, config, note));
            var entry := HistoryEntry(config, note.subject, note.message);
            && OnlyAt(s, s', prefix) && s'.images == s.images + {prefix, config}
            && prefix in s'.records
            && (prefix !in s.records ==>
                  && s'.records[prefix]
                     == Record(prefix, note.subject, note.message, s.nextSeq, note.time, [entry], config, false)
                  && s'.nextSeq == s.nextSeq + 1 && s'.dirs == s.dirs + {prefix})
            && (prefix in s.records ==>
                  var r := s.records[prefix];
                  && s'.records[prefix]
                     == r.(working := config, history := if r.working == config then r.history else r.history + [entry])
                  && s'.nextSeq == s.nextSeq && s'.dirs == s.dirs)
  {
    hide Owns;
    assert s.images + {prefix} + {config} == s.images + {prefix, config};
    var entry := HistoryEntry(config, note.subject, note.message);
    assert [] + [entry] == [entry];
  }

  /** A merge that cannot open the configuration in use leaves only the new system image. */
  lemma RefusedMerge(s: State, booted: Digest, prefix: Digest, config: Digest, note: Note)
    requires booted !in s.records || s.records[booted].working !in s.images + {prefix}
    ensures Step(s, Merge(booted, prefix, config, note)) == s.(images := s.images + {prefix})
  {
  }

  /** Committing files makes a record with the booted deploy's history and working configuration, if there is none. */
  lemma FilesRecords(s: State, booted: Digest, prefix: Digest, note: Note)
    requires WellFormed(s) && booted in s.records
    ensures var s' := Step(s, CommitFiles(booted, prefix, note));
            && s'.images == s.images + {prefix}
            && (prefix in s.records ==> s'.records == s.records && s'.nextSeq == s.nextSeq)
            && (prefix !in s.records ==>
                  && OnlyAt(s, s', prefix) && prefix in s'.records && s'.nextSeq == s.nextSeq + 1
                  && s'.records[prefix]
                     == Record(prefix, note.subject, note.message, s.nextSeq, note.time, s.records[booted].history,
                               s.records[booted].working, false))
  {
  }

  /** Committing the configuration gives the booted record the new one, as its last history entry unless it was in
      use. */
  lemma ConfigRecords(s: State, booted: Digest, config: Digest, note: Note)
    requires WellFormed(s) && booted in s.records && s.records[booted].working in s.images
    ensures var s' := Step(s, CommitConfig(booted, config, note));
            var r := s.records[booted];
            && OnlyAt(s, s', booted) && s'.images == s.images + {config} && s'.nextSeq == s.nextSeq && s'.dirs == s.dirs
            && booted in s'.records
            && s'.records[booted]
               == r.(working := config,
                     history := if r.working == config then r.history
                                else r.history + [HistoryEntry(config, note.subject, note.message)])
  {
  }

  /** A rollback puts an owned configuration to work in its record, and changes nothing else. */
  lemma RollbackRecords(s: State, prefix: Digest, config: Digest)
    requires WellFormed(s) && prefix in s.records
    requires || s.records[prefix].working == config
             || exists entry :: entry in s.records[prefix].history && entry.digest == config
    ensures var s' := Step(s, Rollback(prefix, config));
            s'.records == s.records[prefix := s.records[prefix].(working := config)]
            && s'.dirs == s.dirs && s'.images == s.images && s'.nextSeq == s.nextSeq
  {
    if entry :| entry in s.records[prefix].history && entry.digest == config {
      var i :| 0 <= i < |s.records[prefix].history| && s.records[prefix].history[i] == entry;
      assert InHistory(s.records[prefix].history, config);
    }
  }

  /** Pinning sets the pin of its record, and changes nothing else. */
  lemma PinRecords(s: State, prefix: Digest, pinned: bool)
    requires WellFormed(s) && prefix in s.records
    ensures var s' := Step(s, Pin(prefix, pinned));
            s'.records == s.records[prefix := s.records[prefix].(pinned := pinned)]
            && s'.dirs == s.dirs && s'.images == s.images && s'.nextSeq == s.nextSeq
  {
  }

  /** A retention pass removes a deploy exactly if it is not booted, not pinned, not the next older than the booted one,
      and as many deploys as are kept are newer. */
  lemma PruneRecords(s: State, booted: Option<Digest>, depth: nat, p: Digest)
    requires p in s.records
    ensures var s' := Step(s, Prune(booted, depth));
            && (p !in s'.records
                <==> && booted != Some(p)
                     && !s.records[p].pinned
                     && (booted.Some? && booted.value in s.records ==>
                           var order, current := s.records[p].order, s.records[booted.value].order;
                           order < current ==> exists q :: q in s.records && order < s.records[q].order < current)
                     && |set q | q in s.records && s.records[q].order > s.records[p].order| >= depth)
            && (p in s'.records ==> s'.records[p] == s.records[p])
            && (p in s.dirs ==> (p in s'.dirs <==> p in s'.records))
            && s'.images == s.images && s'.nextSeq == s.nextSeq
  {
    assert NewerThan(s.records, p) == set q | q in s.records && s.records[q].order > s.records[p].order;
  }

  /** Without a booted record, or without the configuration in use, committing changes no record; pinning a deploy that
      is not there, or rolling it back, or back to a configuration its record does not mention, changes nothing. */
  lemma RefusedEvents(s: State, booted: Digest, prefix: Digest, config: Digest, pinned: bool, note: Note)
    ensures booted !in s.records ==>
              && Step(s, CommitFiles(booted, prefix, note)) == s.(images := s.images + {prefix})
              && Step(s, CommitConfig(booted, config, note)) == s
    ensures booted in s.records && s.records[booted].working !in s.images ==>
              Step(s, CommitConfig(booted, config, note)) == s
    ensures prefix !in s.records ==> Step(s, Rollback(prefix, config)) == s && Step(s, Pin(prefix, pinned)) == s
    ensures prefix in s.records && s.records[prefix].working != config
            && (forall entry :: entry in s.records[prefix].history ==> entry.digest != config) ==>
              Step(s, Rollback(prefix, config)) == s
  {
  }

  /** A retention pass that stopped part of the way has removed, of the deploys a whole one removes, those it
      reached. */
  lemma InterruptedRecords(s: State, pass: Pass, p: Digest)
    requires p in s.records
    ensures var s', whole := Step(s, Interrupted(pass)), Step(s, Prune(pass.booted, pass.depth));
            && (p !in s'.records <==> p !in whole.records && p in pass.reached)
            && (p in s'.records ==> s'.records[p] == s.records[p])
            && (p in s.dirs ==> (p in s'.dirs <==> p in s'.records))
            && s'.images == s.images && s'.nextSeq == s.nextSeq
  {
  }

  /** A collection keeps of the images exactly the system images, working configurations and histories of the deploys
      that are left, and what the repository itself refers to. */
  lemma CollectedImages(s: State, booted: Option<Digest>, depth: nat, others: set<string>, d: string)
    requires WellFormed(s)
    requires Collectable(Step(s, Prune(booted, depth)))
    ensures var s' := Step(s, Gc(booted, depth, others));
            && s'.records == Step(s, Prune(booted, depth)).records
            && (d in s'.images
                <==> d in s.images
                     && (d in others || exists p :: p in s'.records && (d == p || RefersTo(s'.records[p], d))))
  {
    hide Dropped, RefersTo, IsRoot;
    RootsSpelledOut(Step(s, Prune(booted, depth)).records, d);
  }

  /** The digest is the working configuration of the record or one of its history. */
  ghost predicate RefersTo(r: Record, d: string) {
    (d != "" && d == r.working) || exists i :: 0 <= i < |r.history| && r.history[i].digest == d
  }

  lemma RootsSpelledOut(records: map<Digest, Record>, d: string)
    ensures IsRoot(records, d) <==> exists p :: p in records && (d == p || RefersTo(records[p], d))
  {
    forall p | p in records
      ensures (p == d || (records[p].working != "" && Owns(records[p], d)) || InHistory(records[p].history, d))
         <==> d == p || RefersTo(records[p], d)
    {
    }
  }

  /** An event that is unwound leaves the earlier records in the directories that are still there; images, directories
      of new deploys and spent sequence numbers stay. */
  lemma UnwoundRecords(s: State, e: Event, pass: Option<Pass>)
    requires WellFormed(s) && (e.Merge? || e.CommitFiles? || e.CommitConfig? || e.Rollback? || e.Pin?)
    ensures var s' := Step(s, Unwound(e, pass));
            var later := if pass.Some? then Step(Step(s, e), Interrupted(pass.value)) else Step(s, e);
            && (forall p :: p in s'.records <==> p in s.records && p in later.dirs)
            && (forall p :: p in s'.records ==> s'.records[p] == s.records[p])
            && (pass == None ==> s'.records == s.records)
            && s'.images == later.images && s'.dirs == later.dirs && s'.nextSeq == later.nextSeq
  {
    var s' := Step(s, Unwound(e, pass));
    if pass == None {
      assert s.records.Keys <= Step(s, e).dirs;
      assert s'.records == s.records;
    }
  }

  // ---- What every run keeps ------------------------------------------------------------------------

  /** Records sit in their own directories and have sequence numbers of their own below the counter. */
  ghost predicate WellFormed(s: State) {
    && s.records.Keys <= s.dirs
    && (forall p :: p in s.records ==> s.records[p].prefix == p && s.records[p].order < s.nextSeq)
    && forall p, q :: p in s.records && q in s.records && s.records[p].order == s.records[q].order ==> p == q
  }

  /** Everything a record refers to is in the store. */
  ghost predicate Stored(s: State) {
    forall p :: p in s.records ==> p in s.images && forall d :: Owns(s.records[p], d) ==> d in s.images && d != ""
  }

  lemma PutKeepsInvariant(s: State, r: Record)
    requires WellFormed(s) && Stored(s)
    requires r.prefix in s.dirs && r.order < s.nextSeq
    requires forall p :: p in s.records && p != r.prefix ==> s.records[p].order != r.order
    requires r.prefix in s.images && forall d :: Owns(r, d) ==> d in s.images && d != ""
    ensures WellFormed(Put(s, r)) && Stored(Put(s, r))
  {
    hide Owns;
  }

  lemma PreparedKeepsInvariant(s: State, images: set<string>, prefix: Digest)
    requires WellFormed(s) && Stored(s)
    ensures var s' := Prepared(s.(images := s.images + images), prefix);
            WellFormed(s') && Stored(s') && prefix in s'.dirs
  {
    hide Owns;
  }

  lemma UpdateOwns(r: Record, config: Digest, note: Note, d: string)
    ensures var r' := UpdateWorkingConfig(r, config, note);
            (Owns(r', d) <==> d == config || (r.working == config && Owns(r, d)) || InHistory(r.history, d))
            && (InHistory(r.history, d) ==> Owns(r, d))
    ensures InHistory(UpdateWorkingConfig(r, config, note).history, config) || r.working == config
  {
    var r' := UpdateWorkingConfig(r, config, note);
    if r.working != config {
      assert r'.history[|r.history|].digest == config;
      assert forall i :: 0 <= i < |r.history| ==> r'.history[i] == r.history[i];
    }
  }

  lemma StepKeepsInvariant(s: State, e: Event)
    requires WellFormed(s) && Stored(s)
    ensures WellFormed(Step(s, e)) && Stored(Step(s, e))
  {
    hide WellFormed, Stored, Pruned, Collected, Merged, FilesCommitted, ConfigCommitted, RolledBack, Pinned;
    match e {
      case Merge(booted, prefix, config, note) =>
        MergeKeepsInvariant(s, booted, prefix, config, note);
      case CommitFiles(booted, prefix, note) =>
        FilesKeepInvariant(s, booted, prefix, note);
      case CommitConfig(booted, config, note) =>
        ConfigKeepsInvariant(s, booted, config, note);
      case Rollback(prefix, config) =>
        RollbackKeepsInvariant(s, prefix, config);
      case Pin(prefix, pinned) =>
        PinKeepsInvariant(s, prefix, pinned);
      case Prune(current, depth) =>
        PruneKeepsInvariant(s, current, depth);
      case Gc(current, depth, others) =>
        GcKeepsInvariant(s, current, depth, others);
      case Aborted(images) =>
        AbortedKeepsInvariant(s, images);
      case Interrupted(pass) =>
        InterruptedKeepsInvariant(s, pass);
      case Unwound(event, pass) =>
        UnwoundKeepsInvariant(s, event, pass);
    }
  }

  lemma FilesKeepInvariant(s: State, booted: Digest, prefix: Digest, note: Note)
    requires WellFormed(s) && Stored(s)
    ensures WellFormed(FilesCommitted(s, booted, prefix, note)) && Stored(FilesCommitted(s, booted, prefix, note))
  {
    hide WellFormed, Stored, Prepared, Put;
    AbortedKeepsInvariant(s, {prefix});
    if booted in s.records && prefix !in s.records {
      var current := s.records[booted];
      var r := RecordFor(s, prefix, note).(history := current.history, working := current.working);
      PreparedKeepsInvariant(s, {prefix}, prefix);
      FreshRecord(s, {prefix}, prefix);
      forall d | Owns(r, d) ensures d in s.images && d != "" {
        assert Owns(current, d);
        OwnedIsStored(s, booted, d);
      }
      PutKeepsInvariant(Prepared(s.(images := s.images + {prefix}), prefix), r);
    }
  }

  lemma OwnedIsStored(s: State, p: Digest, d: string)
    requires Stored(s) && p in s.records && Owns(s.records[p], d)
    ensures d in s.images && d != ""
  {
  }

  /** A deploy without a record is prepared with a sequence number nobody has. */
  lemma FreshRecord(s: State, images: set<string>, prefix: Digest)
    requires WellFormed(s)
    ensures var s' := Prepared(s.(images := s.images + images), prefix);
            && s'.images == s.images + images && s'.records == s.records
            && (prefix !in s.records ==> s.nextSeq < s'.nextSeq)
            && (prefix in s.records ==> s.records[prefix].order < s'.nextSeq && s.records[prefix].prefix == prefix)
            && forall p :: p in s.records && p != prefix ==>
                 s.records[p].order != if prefix in s.records then s.records[prefix].order else s.nextSeq
  {
  }

  lemma ConfigKeepsInvariant(s: State, booted: Digest, config: Digest, note: Note)
    requires WellFormed(s) && Stored(s)
    ensures WellFormed(ConfigCommitted(s, booted, config, note)) && Stored(ConfigCommitted(s, booted, config, note))
  {
    hide WellFormed, Stored, Put, UpdateWorkingConfig, Owns;
    if CanStart(s, booted) {
      var r := s.records[booted];
      UpdateContinues(r, config, note);
      PreparedKeepsInvariant(s, {config}, booted);
      FreshRecord(s, {config}, booted);
      forall d | Owns(UpdateWorkingConfig(r, config, note), d) ensures d in s.images + {config} && d != "" {
        UpdateOwns(r, config, note, d);
        if Owns(r, d) {
          OwnedIsStored(s, booted, d);
        }
      }
      PrefixIsStored(s, booted);
      PutKeepsInvariant(s.(images := s.images + {config}), UpdateWorkingConfig(r, config, note));
    }
  }

  lemma PrefixIsStored(s: State, p: Digest)
    requires WellFormed(s) && Stored(s) && p in s.records
    ensures p in s.images && p in s.dirs
  {
  }

  lemma RollbackKeepsInvariant(s: State, prefix: Digest, config: Digest)
    requires WellFormed(s) && Stored(s)
    ensures WellFormed(RolledBack(s, prefix, config)) && Stored(RolledBack(s, prefix, config))
  {
    hide WellFormed, Stored, Put;
    if prefix in s.records && Owns(s.records[prefix], config) {
      ReplacedRecordKeepsInvariant(s, prefix, s.records[prefix].(working := config));
    }
  }

  /** A record may be replaced by one that owns no more. */
  lemma ReplacedRecordKeepsInvariant(s: State, prefix: Digest, r: Record)
    requires WellFormed(s) && Stored(s) && prefix in s.records
    requires r.prefix == s.records[prefix].prefix && r.order == s.records[prefix].order
    requires forall d :: Owns(r, d) ==> Owns(s.records[prefix], d)
    ensures WellFormed(Put(s, r)) && Stored(Put(s, r))
  {
    hide WellFormed, Stored, Put, Owns;
    FreshRecord(s, {}, prefix);
    PrefixIsStored(s, prefix);
    forall d | Owns(r, d) ensures d in s.images && d != "" {
      OwnedIsStored(s, prefix, d);
    }
    PutKeepsInvariant(s, r);
  }

  lemma PinKeepsInvariant(s: State, prefix: Digest, pinned: bool)
    requires WellFormed(s) && Stored(s)
    ensures WellFormed(Pinned(s, prefix, pinned)) && Stored(Pinned(s, prefix, pinned))
  {
    hide WellFormed, Stored, Put;
    if prefix in s.records {
      ReplacedRecordKeepsInvariant(s, prefix, s.records[prefix].(pinned := pinned));
    }
  }

  lemma AbortedKeepsInvariant(s: State, images: set<string>)
    requires WellFormed(s) && Stored(s)
    ensures WellFormed(s.(images := s.images + images)) && Stored(s.(images := s.images + images))
  {
  }

  lemma PruneKeepsInvariant(s: State, current: Option<Digest>, depth: nat)
    requires WellFormed(s) && Stored(s)
    ensures WellFormed(Pruned(s, current, depth)) && Stored(Pruned(s, current, depth))
  {
    hide Kept;
  }

  lemma MergeKeepsInvariant(s: State, booted: Digest, prefix: Digest, config: Digest, note: Note)
    requires WellFormed(s) && Stored(s)
    ensures WellFormed(Merged(s, booted, prefix, config, note)) && Stored(Merged(s, booted, prefix, config, note))
  {
    hide WellFormed, Stored, Put, Prepared, UpdateWorkingConfig, Owns;
    AbortedKeepsInvariant(s, {prefix});
    var r := RecordFor(s, prefix, note);
    var r' := UpdateWorkingConfig(r, config, note);
    assert s.images + {prefix} + {config} == s.images + {prefix, config};
    PreparedKeepsInvariant(s, {prefix, config}, prefix);
    FreshRecord(s, {prefix, config}, prefix);
    UpdateContinues(r, config, note);
    forall d | Owns(r', d) ensures d in s.images + {prefix, config} && d != "" {
      UpdateOwns(r, config, note, d);
      if prefix in s.records && Owns(r, d) {
        OwnedIsStored(s, prefix, d);
      }
    }
    PutKeepsInvariant(Prepared(s.(images := s.images + {prefix, config}), prefix), r');
  }

  lemma GcKeepsInvariant(s: State, current: Option<Digest>, depth: nat, others: set<string>)
    requires WellFormed(s) && Stored(s)
    ensures WellFormed(Collected(s, current, depth, others)) && Stored(Collected(s, current, depth, others))
  {
    var pruned, s' := Pruned(s, current, depth), Collected(s, current, depth, others);
    PruneKeepsInvariant(s, current, depth);
    forall p | p in s'.records
      ensures p in s'.images && forall d :: Owns(s'.records[p], d) ==> d in s'.images && d != ""
    {
      assert IsRoot(pruned.records, p) || !Collectable(pruned);
      assert Owns(pruned.records[p], pruned.records[p].working);
      forall d | Owns(pruned.records[p], d) ensures IsRoot(pruned.records, d) {
      }
    }
  }

  lemma InterruptedKeepsInvariant(s: State, pass: Pass)
    requires WellFormed(s) && Stored(s)
    ensures WellFormed(PartlyPruned(s, pass)) && Stored(PartlyPruned(s, pass))
  {
    hide Dropped, Owns;
  }

  /** Records that are well formed and stored may be put back later, in the directories that are still there. */
  lemma RestoredKeepsInvariant(s: State, later: State)
    requires WellFormed(s) && Stored(s) && s.images <= later.images && s.nextSeq <= later.nextSeq
    ensures WellFormed(Restored(s.records, later)) && Stored(Restored(s.records, later))
  {
    hide Owns;
  }

  lemma UnwoundKeepsInvariant(s: State, e: Event, pass: Option<Pass>)
    requires WellFormed(s) && Stored(s)
    ensures WellFormed(Step(s, Unwound(e, pass))) && Stored(Step(s, Unwound(e, pass)))
  {
    hide WellFormed, Stored, Restored, Dropped;
    if HasGuard(e) {
      var done := Step(s, e);
      ImagesStay(s, e);
      RestoredKeepsInvariant(s, if pass.Some? then PartlyPruned(done, pass.value) else done);
    }
  }

  lemma ImagesStay(s: State, e: Event)
    requires HasGuard(e)
    ensures s.images <= Step(s, e).images && s.nextSeq <= Step(s, e).nextSeq
  {
  }

  /** Through every interleaving of operations, whatever a surviving record refers to stays in the store. */
  lemma {:induction false} EveryRunKeepsImages(prefix: Digest, config: Digest, pinned: bool, time: nat,
                                               events: seq<Event>)
    ensures var s := Run(Genesis(prefix, config, pinned, time), events);
            WellFormed(s) && Stored(s)
    decreases |events|
  {
    if events != [] {
      EveryRunKeepsImages(prefix, config, pinned, time, events[..|events| - 1]);
      StepKeepsInvariant(Run(Genesis(prefix, config, pinned, time), events[..|events| - 1]), events[|events| - 1]);
    } else {
      var s := Genesis(prefix, config, pinned, time);
      forall d | Owns(s.records[prefix], d) ensures d in s.images && d != "" {
      }
    }
  }

  // ---- Histories -----------------------------------------------------------------------------------

  /** What one event may do to a record that survives it. */
  ghost predicate Continues(r: Record, r': Record) {
    && r.prefix == r'.prefix && r.order == r'.order && r.timestamp == r'.timestamp && r.subject == r'.subject
    && r.history <= r'.history
    && (Grounded(r) ==> Grounded(r'))
    && forall d :: Owns(r, d) && !Owns(r', d) <==> d == r.working && !Grounded(r) && r'.working != d
  }

  lemma UpdateContinues(r: Record, config: Digest, note: Note)
    ensures Continues(r, UpdateWorkingConfig(r, config, note))
  {
    var r' := UpdateWorkingConfig(r, config, note);
    forall d ensures Owns(r, d) && !Owns(r', d) <==> d == r.working && !Grounded(r) && r'.working != d {
      UpdateOwns(r, config, note, d);
    }
    UpdateOwns(r, config, note, config);
  }

  /** A record whose history stays, and whose new working configuration it already owned, continues. */
  lemma SameHistoryContinues(r: Record, r': Record)
    requires r' == r.(working := r'.working, pinned := r'.pinned) && Owns(r, r'.working)
    ensures Continues(r, r')
  {
    hide InHistory;
  }

  /** While a record lives its history only grows at the end, a grounded record stays grounded, and the only
      configuration it can stop owning is a working one that its history lacks. */
  lemma RecordsContinue(s: State, e: Event, p: Digest)
    requires WellFormed(s) && p in s.records && p in Step(s, e).records
    ensures Continues(s.records[p], Step(s, e).records[p])
  {
    hide Continues, UpdateWorkingConfig, Dropped, IsRoot, InHistory;
    var r := s.records[p];
    SameHistoryContinues(r, r);
    match e {
      case Merge(_, prefix, config, note) =>
        UpdateContinues(r, config, note);
        UpdateKeepsPrefix(RecordFor(s, prefix, note), config, note);
      case CommitConfig(booted, config, note) =>
        UpdateContinues(r, config, note);
        if booted in s.records {
          UpdateKeepsPrefix(s.records[booted], config, note);
        }
      case Rollback(_, config) =>
        if Owns(r, config) {
          SameHistoryContinues(r, r.(working := config));
        }
      case Pin(_, pinned) =>
        SameHistoryContinues(r, r.(pinned := pinned));
      case _ =>
    }
  }

  lemma UpdateKeepsPrefix(r: Record, config: Digest, note: Note)
    ensures var r' := UpdateWorkingConfig(r, config, note);
            r'.prefix == r.prefix && r'.order == r.order && r'.pinned == r.pinned
  {
  }

  /** Install, update and uninstall create grounded records; committing files copies the booted deploy's. */
  lemma CreatedRecords(s: State, e: Event, p: Digest)
    requires WellFormed(s) && p !in s.records && p in Step(s, e).records
    ensures e.Merge? || e.CommitFiles?
    ensures e.Merge? ==> Grounded(Step(s, e).records[p])
    ensures e.CommitFiles? ==> Grounded(Step(s, e).records[p]) == Grounded(s.records[e.booted])
    ensures Step(s, e).records[p].order == s.nextSeq && Step(s, e).nextSeq == s.nextSeq + 1
  {
    if e.Merge? {
      UpdateOwns(RecordFor(s, p, e.note), e.config, e.note, e.config);
    }
  }

  lemma {:induction false} HistoriesGrow(s: State, events: seq<Event>, p: Digest)
    requires WellFormed(s) && Stored(s) && p in s.records
    requires p in Run(s, events).records && forall i :: 0 <= i < |events| ==> p in Run(s, events[..i]).records
    ensures var r, r' := s.records[p], Run(s, events).records[p];
            r.history <= r'.history && r.order == r'.order && (Grounded(r) ==> Grounded(r'))
    decreases |events|
  {
    if events != [] {
      var before := events[..|events| - 1];
      forall i | 0 <= i < |before| ensures p in Run(s, before[..i]).records {
        assert before[..i] == events[..i];
      }
      HistoriesGrow(s, before, p);
      RunKeepsInvariant(s, before);
      RecordsContinue(Run(s, before), events[|events| - 1], p);
    }
  }

  lemma {:induction false} RunKeepsInvariant(s: State, events: seq<Event>)
    requires WellFormed(s) && Stored(s)
    ensures WellFormed(Run(s, events)) && Stored(Run(s, events))
    decreases |events|
  {
    if events != [] {
      RunKeepsInvariant(s, events[..|events| - 1]);
      StepKeepsInvariant(Run(s, events[..|events| - 1]), events[|events| - 1]);
    }
  }

  /** The configuration of the genesis record is not in its history: once another is committed, nothing refers to the
      first one any more, and the next collection takes it out of the store. */
  lemma GenesisConfigIsLost(prefix: Digest, config: Digest, other: Digest, note: Note)
    requires config != other && config != prefix
    ensures var s := Run(Genesis(prefix, config, false, 0),
                         [CommitConfig(prefix, other, note), Gc(Some(prefix), 1, {})]);
            prefix in s.records && config !in s.images
  {
    hide Collected, Step;
    var s0 := Genesis(prefix, config, false, 0);
    var commit, gc := CommitConfig(prefix, other, note), Gc(Some(prefix), 1, {});
    assert [commit, gc][..1] == [commit] && [commit][..0] == [];
    assert Run(s0, [commit, gc]) == Step(Step(s0, commit), gc) by {
      assert Run(s0, [commit]) == Step(s0, commit);
    }
    AfterFirstCommit(prefix, config, other, note);
    AloneItStays(Step(s0, commit), prefix, config);
  }

  lemma AfterFirstCommit(prefix: Digest, config: Digest, other: Digest, note: Note)
    requires config != other
    ensures var s := Step(Genesis(prefix, config, false, 0), CommitConfig(prefix, other, note));
            s.dirs == {prefix} && s.records.Keys == {prefix} && !Owns(s.records[prefix], config)
  {
    var r := Genesis(prefix, config, false, 0).records[prefix];
    UpdateOwns(r, other, note, config);
  }

  /** A collection keeps the only deploy, being booted, and drops every image it does not refer to. */
  lemma AloneItStays(s: State, prefix: Digest, image: string)
    requires s.dirs == {prefix} && s.records.Keys == {prefix} && image != prefix && !Owns(s.records[prefix], image)
    ensures var s' := Step(s, Gc(Some(prefix), 1, {}));
            prefix in s'.records && image !in s'.images
  {
    hide InHistory, NewerThan, NextOlder;
    assert Kept(s.records, Some(prefix), 1, prefix);
    assert Dropped(s.records, Some(prefix), 1) == {};
    var pruned := Pruned(s, Some(prefix), 1);
    assert pruned.records == s.records && pruned.dirs == {prefix};
  }

  // ---- Sequence numbers ----------------------------------------------------------------------------

  /** The sequence numbers spent by a run, in order. */
  function Spent(s: State, events: seq<Event>): seq<nat>
    decreases |events|
  {
    if events == [] then []
    else
      var before := events[..|events| - 1];
      Spent(s, before) + if Run(s, events).nextSeq > Run(s, before).nextSeq then [Run(s, before).nextSeq] else []
  }

  /** They strictly increase over all runs, failed ones included, and are never handed out twice. */
  lemma {:induction false} SequenceNumbersIncrease(s: State, events: seq<Event>)
    ensures s.nextSeq <= Run(s, events).nextSeq
    ensures forall i :: 0 <= i < |Spent(s, events)| ==> s.nextSeq <= Spent(s, events)[i] < Run(s, events).nextSeq
    ensures forall i, j :: 0 <= i < j < |Spent(s, events)| ==> Spent(s, events)[i] < Spent(s, events)[j]
    decreases |events|
  {
    if events != [] {
      var before, e := events[..|events| - 1], events[|events| - 1];
      SequenceNumbersIncrease(s, before);
      CounterNeverFalls(Run(s, before), e);
    }
  }

  lemma CounterNeverFalls(s: State, e: Event)
    ensures s.nextSeq <= Step(s, e).nextSeq <= s.nextSeq + 1
  {
  }

  // ---- Retention facts -----------------------------------------------------------------------------

  /** A second retention pass with the same booted deploy and depth removes nothing. */
  lemma PruneIsIdempotent(s: State, booted: Option<Digest>, depth: nat)
    ensures Pruned(Pruned(s, booted, depth), booted, depth) == Pruned(s, booted, depth)
  {
    var s' := Pruned(s, booted, depth);
    forall p | p in s'.records ensures Kept(s'.records, booted, depth, p) {
      assert Kept(s.records, booted, depth, p);
      assert NewerThan(s'.records, p) <= NewerThan(s.records, p);
      Cardinality(NewerThan(s'.records, p), NewerThan(s.records, p));
    }
    assert Dropped(s'.records, booted, depth) == {};
  }

  lemma Cardinality(a: set<Digest>, b: set<Digest>)
    requires a <= b
    ensures |a| <= |b|
  {
    assert b == a + (b - a);
  }

  /** The deploy an event puts in place for the next boot. */
  function Target(e: Event): Option<Digest> {
    match e
    case Merge(_, prefix, _, _) => Some(prefix)
    case CommitFiles(_, prefix, _) => Some(prefix)
    case Rollback(prefix, _) => Some(prefix)
    case _ => None
  }

  /** The deploy a run puts in place survives the retention pass that ends the run exactly if it was kept already, or is
      new and retention keeps at least one deploy or it is booted.  A record that was there keeps its old sequence
      number. */
  lemma TargetSurvives(s: State, e: Event, p: Digest, booted: Option<Digest>, depth: nat)
    requires WellFormed(s) && Target(e) == Some(p) && p in Step(s, e).records
    ensures p in Pruned(Step(s, e), booted, depth).records
       <==> if p in s.records then Kept(s.records, booted, depth, p) else depth >= 1 || booted == Some(p)
  {
    hide UpdateWorkingConfig;
    if p in s.records {
      SameOrders(s, e);
      KeptAlike(s.records, Step(s, e).records, booted, depth, p);
    } else {
      NewestIsKept(s, e, p, booted, depth);
    }
  }

  lemma NewestIsKept(s: State, e: Event, p: Digest, booted: Option<Digest>, depth: nat)
    requires WellFormed(s) && p !in s.records && p in Step(s, e).records
    ensures p in Pruned(Step(s, e), booted, depth).records <==> depth >= 1 || booted == Some(p)
  {
    hide UpdateWorkingConfig;
    CreatedRecords(s, e, p);
    var s' := Step(s, e);
    NewestRecord(s, e, p);
    assert NewerThan(s'.records, p) == {};
  }

  lemma NewestRecord(s: State, e: Event, p: Digest)
    requires WellFormed(s) && p !in s.records && p in Step(s, e).records
    ensures !Step(s, e).records[p].pinned
    ensures forall q :: q in Step(s, e).records ==> Step(s, e).records[q].order <= Step(s, e).records[p].order
  {
    CreatedRecords(s, e, p);
    forall q | q in Step(s, e).records ensures Step(s, e).records[q].order <= Step(s, e).records[p].order {
      if q != p {
        assert q in s.records;
      }
    }
  }

  ghost predicate OrderedAlike(records: map<Digest, Record>, records': map<Digest, Record>) {
    && records.Keys == records'.Keys
    && forall q :: q in records ==> records[q].order == records'[q].order && records[q].pinned == records'[q].pinned
  }

  lemma SameOrders(s: State, e: Event)
    requires WellFormed(s) && Target(e).Some? && Target(e).value in s.records
    ensures OrderedAlike(s.records, Step(s, e).records)
  {
    hide UpdateWorkingConfig, Owns;
    if e.Merge? {
      UpdateKeepsPrefix(s.records[e.prefix], e.config, e.note);
    }
  }

  lemma KeptAlike(records: map<Digest, Record>, records': map<Digest, Record>, booted: Option<Digest>, depth: nat,
                  p: Digest)
    requires OrderedAlike(records, records') && p in records
    ensures Kept(records, booted, depth, p) <==> Kept(records', booted, depth, p)
  {
    assert NewerThan(records, p) == NewerThan(records', p);
  }

  /** So a run can lose the deploy it has just put in place: by merging into an old deploy, or by going back to one. */
  lemma StagedDeployCanBeRemoved(s: State, e: Event)
    requires WellFormed(s) && s.records.Keys == {"1", "2", "3"} && Target(e) == Some("1")
    requires s.records["1"].order < s.records["2"].order < s.records["3"].order && !s.records["1"].pinned
    ensures "1" in Step(s, e).records && "1" !in Pruned(Step(s, e), Some("3"), 1).records
  {
    hide UpdateWorkingConfig;
    assert "1" in s.records && "2" in s.records && "3" in s.records;
    SameOrders(s, e);
    TargetSurvives(s, e, "1", Some("3"), 1);
    assert !NextOlder(s.records, "3", "1");
    assert "2" in NewerThan(s.records, "1");
  }

  /** Where retention keeps no newest deploys, every new deploy that is not booted yet is lost by its own run. */
  lemma NothingNewSurvivesDepthZero(s: State, e: Event, p: Digest, booted: Option<Digest>)
    requires WellFormed(s) && Target(e) == Some(p) && p !in s.records && p in Step(s, e).records && booted != Some(p)
    ensures p !in Pruned(Step(s, e), booted, 0).records
  {
    hide Step, Pruned;
    TargetSurvives(s, e, p, booted, 0);
  }
}
