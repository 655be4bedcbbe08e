/** Deploy records as files on the disk.

    Each record is one file in the directory of its deploy, written under a guard.  So what a failed run does to the
    records follows from what the orchestrator does to the disk.  Where the file of a deploy is, and how a record is
    encoded, are parameters.
  */
module RecordFiles {
  import opened Basics
  import opened Disk
  import O = Orchestrator
  import D = Deploys
  import S = Sysroot

  type Locator = D.Digest -> FilePath

  type Encoder = D.Record -> Bytes

  ghost predicate Apart(at: Locator) {
    forall p, q :: at(p) == at(q) ==> p == q
  }

  /** The disk holds exactly these records. */
  ghost predicate Holds(files: Files, records: map<D.Digest, D.Record>, at: Locator, encode: Encoder) {
    forall p: D.Digest :: HoldsAt(files, records, at, encode, p)
  }

  predicate HoldsAt(files: Files, records: map<D.Digest, D.Record>, at: Locator, encode: Encoder, p: D.Digest) {
    if p in records then at(p) in files && files[at(p)] == File(encode(records[p])) else at(p) !in files
  }

  /** The write of one record. */
  function RecordWrite(r: D.Record, at: Locator, encode: Encoder): Write {
    Write(at(r.prefix), encode(r))
  }

  /** What the guard of such a write remembers, from what the stage remembers. */
  function Remembering(w: S.WrittenRecord, at: Locator, encode: Encoder): WrittenFile {
    WrittenFile(at(w.prefix), if w.previous.Some? then Some(encode(w.previous.value)) else None)
  }

  /** Writing a record is writing its file: the disk holds the new records, the guard remembers the previous record, and
      restoring the file restores the records. */
  lemma RecordIsWritten(files: Files, records: map<D.Digest, D.Record>, r: D.Record, at: Locator, encode: Encoder)
    requires Apart(at) && Holds(files, records, at, encode)
    ensures var ops := [RecordWrite(r, at, encode)];
            var previous := if r.prefix in records then Some(records[r.prefix]) else None;
            && Holds(Written(files, ops), records[r.prefix := r], at, encode)
            && Remembered(files, ops) == [Remembering(S.WrittenRecord(r.prefix, previous), at, encode)]
            && RestoredAll(Written(files, ops), Remembered(files, ops)) == files
  {
    var op := RecordWrite(r, at, encode);
    var after := files[op.path := File(op.content)];
    assert [op][1..] == [];
    assert Written(after, [op][1..]) == after && Remembered(after, [op][1..]) == [];
    assert Remembered(files, [op]) == [WrittenFile(op.path, Read(files, op.path))];
    var records' := records[r.prefix := r];
    assert HoldsAt(files, records, at, encode, r.prefix);
    forall p: D.Digest ensures HoldsAt(after, records', at, encode, p) {
      assert HoldsAt(files, records, at, encode, p);
      assert at(p) == at(r.prefix) ==> p == r.prefix;
    }
    forall p | p in PathsOf([op]) ensures !IsLink(files, p) {
    }
    WritesUndoExactly(files, [op]);
  }

  /** The record an event writes, if it writes one. */
  function RecordOf(s: D.State, e: D.Event): Option<D.Record> {
    var done := D.Step(s, e).records;
    var prefix :=
      match e
      case Merge(_, prefix, _, _) => Some(prefix)
      case CommitFiles(_, prefix, _) => Some(prefix)
      case CommitConfig(booted, _, _) => Some(booted)
      case Rollback(prefix, _) => Some(prefix)
      case Pin(prefix, _) => Some(prefix)
      case _ => None;
    if prefix.Some? && prefix.value in done
       && (prefix.value in s.records ==> s.records[prefix.value] != done[prefix.value])
    then Some(done[prefix.value]) else None
  }

  lemma EventWritesOneRecord(s: D.State, e: D.Event)
    requires D.WellFormed(s) && D.HasGuard(e)
    ensures var r := RecordOf(s, e);
            D.Step(s, e).records == if r.Some? then s.records[r.value.prefix := r.value] else s.records
  {
    hide D.Owns, D.InHistory;
    var done := D.Step(s, e).records;
    if RecordOf(s, e) == None {
      assert done == s.records;
    }
  }

  /** The turn that a stage performing the event gives the orchestrator, after the counter it may have spent. */
  function EventTurn(s: D.State, e: D.Event, loose: seq<Write>, at: Locator, encode: Encoder): O.Turn {
    var r := RecordOf(s, e);
    O.Turn(false, false, loose, O.Writes(if r.Some? then [RecordWrite(r.value, at, encode)] else []), O.Advance)
  }

  ghost predicate AwayFromRecords(ops: seq<Write>, at: Locator) {
    forall i, p: D.Digest :: 0 <= i < |ops| ==> ops[i].path != at(p)
  }

  lemma {:induction false} OtherWritesKeepRecords(files: Files, ops: seq<Write>, records: map<D.Digest, D.Record>,
                                                  at: Locator, encode: Encoder)
    requires Holds(files, records, at, encode) && AwayFromRecords(ops, at)
    ensures Holds(Written(files, ops), records, at, encode)
    decreases |ops|
  {
    if ops != [] {
      var after := files[ops[0].path := File(ops[0].content)];
      forall p: D.Digest ensures HoldsAt(after, records, at, encode, p) {
        assert HoldsAt(files, records, at, encode, p);
      }
      assert forall i :: 0 <= i < |ops| - 1 ==> ops[1..][i] == ops[i + 1];
      OtherWritesKeepRecords(after, ops[1..], records, at, encode);
    }
  }

  /** The turn of an event does to the record files what the event does to the records, and is reversible. */
  lemma TurnPerformsEvent(files: Files, s: D.State, e: D.Event, loose: seq<Write>, at: Locator, encode: Encoder)
    requires Apart(at) && Holds(files, s.records, at, encode) && D.WellFormed(s) && D.HasGuard(e)
    requires AwayFromRecords(loose, at)
    ensures var turn := EventTurn(s, e, loose, at, encode);
            && Holds(O.TurnEffect(files, turn).files, D.Step(s, e).records, at, encode)
            && O.Reversible(files, turn)
  {
    hide D.Step, D.WellFormed, Holds, Remembered, RestoredAll;
    var r := RecordOf(s, e);
    var written := Written(files, loose);
    OtherWritesKeepRecords(files, loose, s.records, at, encode);
    EventWritesOneRecord(s, e);
    if r.Some? {
      RecordIsWritten(written, s.records, r.value, at, encode);
      WritesUndoExactly(written, [RecordWrite(r.value, at, encode)]);
    }
  }

  /** A failed run, whatever its stages were, leaves the records of the state before it: what the state machine says of
      an event that is unwound before any retention pass. */
  lemma FailedRunRestoresRecords(files: Files, s: D.State, e: D.Event, script: seq<O.Turn>, n: nat, at: Locator,
                                 encode: Encoder)
    requires Holds(files, s.records, at, encode) && D.WellFormed(s) && D.HasGuard(e)
    requires n <= |script| && O.AllReversible(files, script, n) && O.LooseApart(files, script, n)
    requires AwayFromRecords(O.Residue(script, n), at)
    ensures var effect := O.RunEffect(files, script, n);
            Holds(O.Unwound(effect.files, effect.guards), D.Step(s, D.Unwound(e, None)).records, at, encode)
  {
    hide D.WellFormed, Holds, O.RunEffect, O.Unwound, O.Residue, O.AllReversible, O.LooseApart;
    O.RunUndone(files, script, n);
    OtherWritesKeepRecords(files, O.Residue(script, n), s.records, at, encode);
    UnwoundRecords(s, e);
  }

  lemma UnwoundRecords(s: D.State, e: D.Event)
    requires D.WellFormed(s) && D.HasGuard(e)
    ensures D.Step(s, D.Unwound(e, None)).records == s.records
  {
    S.DirectoriesStay(s, e);
    S.UnwoundIsRestored(s, e, None);
  }
}
