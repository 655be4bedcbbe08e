/** The steps that install, replace and remove one package in the database, the system tree and the configuration
    defaults.

    A stored path is text; how it splits into components, and how components join into text, are parameters.
  */
module Packages {
  import opened Basics
  import P = Paths
  import T = Trees
  import opened Removals
  import I = Import
  import opened Types
  import opened Codec
  import opened Database
  import V = Versions

  type Splitter = Text -> P.Path

  type Joiner = P.Path -> Text

  // ---- What leaves with a package --------------------------------------------------------------------

  predicate Goes(row: FileEntry, purge: bool) {
    purge || !row.isUser
  }

  /** The tree paths of the rows that go. */
  function TreePaths(rows: seq<FileEntry>, purge: bool, split: Splitter): seq<P.Path> {
    if rows == [] then []
    else
      var last := rows[|rows| - 1];
      TreePaths(rows[..|rows| - 1], purge, split)
      + if Goes(last, purge) && last.scope == Prefix then [split(last.path)] else []
  }

  /** The paths of the configuration files that go. */
  function ConfigPaths(rows: seq<FileEntry>, purge: bool): seq<Text> {
    if rows == [] then []
    else
      var last := rows[|rows| - 1];
      ConfigPaths(rows[..|rows| - 1], purge) + if Goes(last, purge) && last.scope == Config then [last.path] else []
  }

  lemma {:induction false} TreePathsAre(rows: seq<FileEntry>, purge: bool, split: Splitter, p: P.Path)
    ensures p in TreePaths(rows, purge, split)
       <==> exists i :: 0 <= i < |rows| && split(rows[i].path) == p
                        && (purge || !rows[i].isUser) && rows[i].scope == Prefix
  {
    if rows != [] {
      var shorter := rows[..|rows| - 1];
      TreePathsAre(shorter, purge, split, p);
      if i :| 0 <= i < |shorter| && split(shorter[i].path) == p && (purge || !shorter[i].isUser)
              && shorter[i].scope == Prefix
      {
        assert rows[i] == shorter[i];
      }
    }
  }

  lemma {:induction false} TreePathsGrow(rows: seq<FileEntry>, n: nat, purge: bool, split: Splitter)
    requires n <= |rows|
    ensures TreePaths(rows[..n], purge, split) <= TreePaths(rows, purge, split)
    decreases |rows|
  {
    if n == |rows| {
      assert rows[..n] == rows;
    } else {
      TreePathsGrow(rows[..|rows| - 1], n, purge, split);
      assert rows[..|rows| - 1][..n] == rows[..n];
    }
  }

  lemma OneMoreRow(rows: seq<FileEntry>, n: nat, purge: bool, split: Splitter)
    requires n < |rows|
    ensures TreePaths(rows[..n + 1], purge, split)
         == TreePaths(rows[..n], purge, split)
            + if Goes(rows[n], purge) && rows[n].scope == Prefix then [split(rows[n].path)] else []
    ensures ConfigPaths(rows[..n + 1], purge)
         == ConfigPaths(rows[..n], purge)
            + if Goes(rows[n], purge) && rows[n].scope == Config then [rows[n].path] else []
    ensures TreePaths(rows[..n], purge, split) + [] == TreePaths(rows[..n], purge, split)
    ensures ConfigPaths(rows[..n], purge) + [] == ConfigPaths(rows[..n], purge)
  {
    assert rows[..n + 1][..n] == rows[..n];
  }

  lemma {:induction false} ConfigPathsAre(rows: seq<FileEntry>, purge: bool, path: Text)
    ensures path in ConfigPaths(rows, purge)
       <==> exists i :: 0 <= i < |rows| && rows[i].path == path && (purge || !rows[i].isUser) && rows[i].scope == Config
  {
    if rows != [] {
      var shorter := rows[..|rows| - 1];
      ConfigPathsAre(shorter, purge, path);
      if i :| 0 <= i < |shorter| && shorter[i].path == path && Goes(shorter[i], purge) && shorter[i].scope == Config {
        assert rows[i] == shorter[i];
      }
    }
  }

  predicate RowGoes(t: Tables, uuid: Uuid, purge: bool, k: RowKey) {
    k in t.files && k.0 == uuid && Goes(t.files[k], purge)
  }

  /** The tables after the rows of a package that go have gone. */
  function WithoutRows(t: Tables, uuid: Uuid, purge: bool): Tables {
    t.(files := map k | k in t.files && !RowGoes(t, uuid, purge, k) :: t.files[k],
       byPath := map h | h in t.byPath && !RowGoes(t, uuid, purge, (uuid, h)) :: t.byPath[h])
  }

  /** The package that the identity of `uuid` leads to: `uuid` itself, unless its identity was installed again. */
  function Named(hash: Bytes -> Hash, t: Tables, uuid: Uuid): Option<Uuid>
    requires uuid in t.packages
  {
    FindPackage(t, hash(IdentityOf(t.packages[uuid])))
  }

  /** The tables after a package has gone: its rows, the row its identity leads to, and its triggers. */
  function WithoutPackage(hash: Bytes -> Hash, t: Tables, uuid: Uuid, purge: bool): Tables
    requires uuid in t.packages
  {
    MetaRemoved(WithoutRows(t, uuid, purge), hash(IdentityOf(t.packages[uuid]))).(triggers := t.triggers - {uuid})
  }

  /** What is left of a removed package is its user rows, or nothing; other packages are untouched, also where they
      share a path with it. */
  lemma WhatRemovalLeaves(hash: Bytes -> Hash, t: Tables, uuid: Uuid, purge: bool, k: RowKey)
    requires uuid in t.packages && Named(hash, t, uuid) == Some(uuid)
    ensures var t' := WithoutPackage(hash, t, uuid, purge);
            && (k in t'.files <==> k in t.files && (k.0 != uuid || (t.files[k].isUser && !purge)))
            && (k in t'.files ==> t'.files[k] == t.files[k])
            && t'.packages == t.packages - {uuid} && t'.triggers == t.triggers - {uuid}
            && FindPackage(t', hash(IdentityOf(t.packages[uuid]))) == None
  {
    hide IdentityOf;
  }

  /** After a removal no index entry dangles and none leads to the package; agreement is kept where there was any. */
  lemma RemovalKeepsAgreement(hash: Bytes -> Hash, t: Tables, uuid: Uuid, purge: bool)
    requires Sound(hash, t) && uuid in t.packages && Named(hash, t, uuid) == Some(uuid)
    ensures var t' := WithoutPackage(hash, t, uuid, purge);
            && Sound(hash, t') && uuid !in t'.byName.Values
            && (PathsAgree(t) ==> PathsAgree(t')) && (NamesAgree(hash, t) ==> NamesAgree(hash, t'))
  {
    hide IdentityOf, RowsKeyed, PathsLead, PathsAgree, NamesLead, NamesAgree;
    RemovalKeepsPaths(hash, t, uuid, purge);
    RemovalKeepsNames(hash, t, uuid, purge);
  }

  lemma RemovalKeepsPaths(hash: Bytes -> Hash, t: Tables, uuid: Uuid, purge: bool)
    requires RowsKeyed(hash, t) && PathsLead(t) && uuid in t.packages
    ensures var t' := WithoutPackage(hash, t, uuid, purge);
            RowsKeyed(hash, t') && PathsLead(t') && (PathsAgree(t) ==> PathsAgree(t'))
  {
    hide IdentityOf;
  }

  lemma RemovalKeepsNames(hash: Bytes -> Hash, t: Tables, uuid: Uuid, purge: bool)
    requires NamesLead(hash, t) && uuid in t.packages && Named(hash, t, uuid) == Some(uuid)
    ensures var t' := WithoutPackage(hash, t, uuid, purge);
            NamesLead(hash, t') && uuid !in t'.byName.Values && (NamesAgree(hash, t) ==> NamesAgree(hash, t'))
  {
    hide IdentityOf, WithoutRows;
    UntouchedByWithoutRows(t, uuid, purge);
    assert forall h :: h in t.byName && t.byName[h] == uuid ==> h == hash(IdentityOf(t.packages[uuid]));
  }

  lemma UntouchedByWithoutRows(t: Tables, uuid: Uuid, purge: bool)
    ensures var t' := WithoutRows(t, uuid, purge);
            t'.byName == t.byName && t'.packages == t.packages && t'.triggers == t.triggers
  {
  }

  /** The hashes of those of the first `n` rows that go. */
  ghost function GoneHashes(t: Tables, uuid: Uuid, hashes: seq<Hash>, purge: bool, n: nat): set<Hash>
    requires n <= |hashes| && forall i :: 0 <= i < |hashes| ==> (uuid, hashes[i]) in t.files
  {
    set j | 0 <= j < n && Goes(t.files[(uuid, hashes[j])], purge) :: hashes[j]
  }

  ghost function Without(t: Tables, uuid: Uuid, gone: set<Hash>): Tables {
    t.(files := t.files - (set h | h in gone :: (uuid, h)), byPath := t.byPath - gone)
  }

  lemma WithoutOneMore(t: Tables, uuid: Uuid, gone: set<Hash>, h: Hash)
    ensures RowRemoved(Without(t, uuid, gone), uuid, h) == Without(t, uuid, gone + {h})
  {
    assert (set g | g in gone + {h} :: (uuid, g)) == (set g | g in gone :: (uuid, g)) + {(uuid, h)};
    var keys := set g | g in gone :: (uuid, g);
    assert t.files - keys - {(uuid, h)} == t.files - (keys + {(uuid, h)});
    assert t.byPath - gone - {h} == t.byPath - (gone + {h});
  }

  lemma WithoutAll(t: Tables, uuid: Uuid, hashes: seq<Hash>, purge: bool)
    requires IsListing(t, uuid, hashes)
    requires forall i :: 0 <= i < |hashes| ==> hashes[i] in hashes && (uuid, hashes[i]) in t.files
    ensures Without(t, uuid, GoneHashes(t, uuid, hashes, purge, |hashes|)) == WithoutRows(t, uuid, purge)
  {
    var gone := GoneHashes(t, uuid, hashes, purge, |hashes|);
    forall h ensures h in gone <==> RowGoes(t, uuid, purge, (uuid, h)) {
      if RowGoes(t, uuid, purge, (uuid, h)) {
        assert h in hashes;
      }
    }
    assert Without(t, uuid, gone).files == WithoutRows(t, uuid, purge).files;
    assert Without(t, uuid, gone).byPath == WithoutRows(t, uuid, purge).byPath;
  }

  // ---- The removal step ------------------------------------------------------------------------------

  datatype UninstallError = TreeError(tree: T.RepoError) | RowError(row: DatabaseError) | PackageGone

  datatype UninstallOutcome = Removed(config: seq<Text>) | NotRemoved(error: UninstallError)

  function RowErrorOf<A>(r: Result<A>): Option<UninstallError> {
    match r
    case Ok(_) => None
    case Err(error) => Some(RowError(error))
  }

  /** Removing one row that goes from the database never fails. */
  method RemoveRowOf(database: MemoryDatabase, row: FileEntry, ghost t: Tables, uuid: Uuid, ghost gone: set<Hash>)
    returns (r: Result<FileEntry>)
    requires database.Value() == Without(t, uuid, gone)
    requires RowsKeyed(database.hash, t)
    requires (uuid, database.hash(row.path)) in t.files && t.files[(uuid, database.hash(row.path))] == row
    requires database.hash(row.path) !in gone
    modifies database`files, database`byPath
    ensures r.Ok?
    ensures database.Value() == Without(t, uuid, gone + {database.hash(row.path)})
  {
    hide RowsKeyed;
    WithoutOneMore(t, uuid, gone, database.hash(row.path));
    if row.isUser {
      r := database.RemoveUserFile(uuid, row.path);
    } else {
      r := database.RemovePackageFile(uuid, row.path);
    }
  }

  ghost predicate AreRows(t: Tables, uuid: Uuid, hashes: seq<Hash>, rows: seq<FileEntry>) {
    && IsListing(t, uuid, hashes)
    && (forall i :: 0 <= i < |hashes| ==> (uuid, hashes[i]) in t.files)
    && rows == RowsAt(t, uuid, hashes)
  }

  lemma ListedRows(t: Tables, uuid: Uuid, hashes: seq<Hash>, rows: seq<FileEntry>)
    requires IsListing(t, uuid, hashes)
    requires |rows| == |hashes|
    requires forall i :: 0 <= i < |hashes| ==> (uuid, hashes[i]) in t.files && rows[i] == t.files[(uuid, hashes[i])]
    ensures AreRows(t, uuid, hashes, rows)
  {
  }

  lemma RowOfListing(hash: Bytes -> Hash, t: Tables, uuid: Uuid, hashes: seq<Hash>, rows: seq<FileEntry>, purge: bool,
                     i: nat)
    requires RowsKeyed(hash, t) && AreRows(t, uuid, hashes, rows) && i < |hashes|
    ensures hash(rows[i].path) == hashes[i] && (uuid, hashes[i]) in t.files && t.files[(uuid, hashes[i])] == rows[i]
    ensures hashes[i] !in GoneHashes(t, uuid, hashes, purge, i)
    ensures GoneHashes(t, uuid, hashes, purge, i + 1)
         == if Goes(rows[i], purge) then GoneHashes(t, uuid, hashes, purge, i) + {hashes[i]}
            else GoneHashes(t, uuid, hashes, purge, i)
  {
  }

  /** The first rows of a listing have been dealt with: those that go have left the tree and the database. */
  ghost predicate RemovedSoFar(t: Tables, t': Tables, tree: T.Tree, tree': T.Tree, uuid: Uuid, hashes: seq<Hash>,
                               rows: seq<FileEntry>, purge: bool, split: Splitter, n: nat, config: seq<Text>)
    requires AreRows(t, uuid, hashes, rows) && n <= |rows|
  {
    && t' == Without(t, uuid, GoneHashes(t, uuid, hashes, purge, n))
    && Removable(tree, TreePaths(rows[..n], purge, split))
    && IsCut(tree', tree, TreePaths(rows[..n], purge, split))
    && config == ConfigPaths(rows[..n], purge)
  }

  /** Deals with one row of a package being removed. */
  method RemoveNextRow(database: MemoryDatabase, tree: T.FileSystem, split: Splitter, uuid: Uuid, purge: bool,
                       row: FileEntry, removed: seq<Text>, ghost t: Tables, ghost tree0: T.Tree,
                       ghost hashes: seq<Hash>, ghost rows: seq<FileEntry>, ghost n: nat)
    returns (error: Option<UninstallError>, config: seq<Text>)
    requires AreRows(t, uuid, hashes, rows) && n < |rows| && row == rows[n]
    requires RowsKeyed(database.hash, t) && T.Valid(tree.Value())
    requires RemovedSoFar(t, database.Value(), tree0, tree.Value(), uuid, hashes, rows, purge, split, n, removed)
    modifies database`files, database`byPath, tree`root
    ensures T.Valid(tree.Value())
    ensures error == None ==>
      RemovedSoFar(t, database.Value(), tree0, tree.Value(), uuid, hashes, rows, purge, split, n + 1, config)
    ensures error.Some? ==> error.value.TreeError? && !Removable(tree0, TreePaths(rows, purge, split))
  {
    hide T.Valid, RowsKeyed, IsCut, Removable, GoneHashes, Without, IsListing, RowsAt;
    RowOfListing(database.hash, t, uuid, hashes, rows, purge, n);
    OneMoreRow(rows, n, purge, split);
    config := removed;
    if row.isUser && !purge {
      return None, config;
    }
    ghost var paths := TreePaths(rows[..n], purge, split);
    match row.scope {
      case Prefix =>
        RemovableNext(tree0, paths, split(row.path));
        var r := RemoveNext(tree, split(row.path), tree0, paths);
        if r.Err? {
          TreePathsGrow(rows, n + 1, purge, split);
          NotRemovableLater(tree0, paths + [split(row.path)], TreePaths(rows, purge, split));
          return Some(TreeError(r.error)), config;
        }
      case Config =>
        config := config + [row.path];
    }
    var gone := RemoveRowOf(database, row, t, uuid, GoneHashes(t, uuid, hashes, purge, n));
    error := RowErrorOf(gone);
  }

  /** How a removal ends: no row is ever missing or refused. */
  predicate RemovalEnds(r: UninstallOutcome, hash: Bytes -> Hash, t: Tables, tree: T.Tree, uuid: Uuid,
                        paths: seq<P.Path>) {
    if !Removable(tree, paths) then r.NotRemoved? && r.error.TreeError?
    else if uuid !in t.packages then r == NotRemoved(PackageGone)
    else if Named(hash, t, uuid) == None || Named(hash, t, uuid).value !in t.packages then
      r == NotRemoved(RowError(PackageNotFound))
    else r.Removed?
  }

  /** Removes a package: its files, all of them or all but the user's, then its row, its identity and its triggers. */
  method RemovePackage(database: MemoryDatabase, tree: T.FileSystem, split: Splitter, uuid: Uuid, purge: bool)
    returns (r: UninstallOutcome, ghost rows: seq<FileEntry>, ghost hashes: seq<Hash>)
    requires RowsKeyed(database.hash, database.Value()) && T.Valid(tree.Value())
    modifies database, tree
    ensures AreRows(old(database.Value()), uuid, hashes, rows)
    ensures RemovalEnds(r, database.hash, old(database.Value()), old(tree.Value()), uuid, TreePaths(rows, purge, split))
    ensures r.Removed? ==>
      && database.Value() == WithoutPackage(database.hash, old(database.Value()), uuid, purge)
      && IsCut(tree.Value(), old(tree.Value()), TreePaths(rows, purge, split))
      && r.config == ConfigPaths(rows, purge)
  {
    hide T.Valid, IsCut, Removable, GoneHashes, Without, IsListing, IdentityBuffer;
    ghost var t, tree0 := database.Value(), tree.Value();
    var files: seq<FileEntry>;
    files, hashes := database.ListPackageFiles(uuid);
    rows := files;
    ListedRows(t, uuid, hashes, rows);
    var config: seq<Text> := [];
    NothingRemoved(t, tree0, uuid, hashes, rows, purge, split);
    for i := 0 to |files|
      invariant T.Valid(tree.Value())
      invariant RemovedSoFar(t, database.Value(), tree0, tree.Value(), uuid, hashes, rows, purge, split, i, config)
      invariant database.packages == t.packages && database.byName == t.byName && database.triggers == t.triggers
    {
      var error: Option<UninstallError>;
      error, config := RemoveNextRow(database, tree, split, uuid, purge, files[i], config, t, tree0, hashes, rows, i);
      if error.Some? {
        return NotRemoved(error.value), rows, hashes;
      }
    }
    assert files[..|files|] == files;
    WithoutAll(t, uuid, hashes, purge);
    var meta := database.GetPackageMeta(uuid);
    if meta.None? {
      return NotRemoved(PackageGone), rows, hashes;
    }
    var gone := database.RemovePackageMeta(meta.value.name, meta.value.arch, meta.value.archSub);
    match gone {
      case Err(error) =>
        return NotRemoved(RowError(error)), rows, hashes;
      case Ok(_) =>
    }
    database.RemoveDeclarativeTriggers(uuid);
    r := Removed(config);
  }

  lemma NothingRemoved(t: Tables, tree: T.Tree, uuid: Uuid, hashes: seq<Hash>, rows: seq<FileEntry>, purge: bool,
                       split: Splitter)
    requires AreRows(t, uuid, hashes, rows)
    ensures RemovedSoFar(t, t, tree, tree, uuid, hashes, rows, purge, split, 0, [])
  {
    assert rows[..0] == [];
    assert t.files - {} == t.files;
  }

  // ---- What arrives with a package -------------------------------------------------------------------

  datatype Package = Package(meta: PackageMeta, trigger: DeclarativeTrigger)

  /** The paths an import copied, relative to the package's system tree and to its configuration tree. */
  datatype Imported = Imported(system: seq<Text>, config: seq<Text>)

  /** The tables after rows for the paths have been inserted, in order. */
  function Filled(hash: Bytes -> Hash, t: Tables, uuid: Uuid, paths: seq<Text>, scope: FileEntryScope): Tables
    decreases paths
  {
    if paths == [] then t
    else Filled(hash, Inserted(t, uuid, hash(paths[0]), FileEntry(paths[0], false, scope)), uuid, paths[1..], scope)
  }

  function FilledWith(hash: Bytes -> Hash, t: Tables, uuid: Uuid, imported: Imported): Tables {
    Filled(hash, Filled(hash, t, uuid, imported.system, Prefix), uuid, imported.config, Config)
  }

  /** The tables after a package has replaced the one with its identity. */
  function Replaced(hash: Bytes -> Hash, t: Tables, uuid: Uuid, package: Package, imported: Imported): Tables {
    var emptied := WithoutRows(t, uuid, true).(
      packages := t.packages[uuid := package.meta],
      triggers := t.triggers[uuid := package.trigger]);
    FilledWith(hash, emptied, uuid, imported)
  }

  function Installed(hash: Bytes -> Hash, t: Tables, uuid: Uuid, package: Package, imported: Imported): Tables {
    var added := MetaInserted(t, uuid, hash(IdentityOf(package.meta)), package.meta);
    FilledWith(hash, added.(triggers := t.triggers[uuid := package.trigger]), uuid, imported)
  }

  function Row(t: Tables, uuid: Uuid, h: Hash): Option<FileEntry> {
    if (uuid, h) in t.files then Some(t.files[(uuid, h)]) else None
  }

  predicate NoUserRows(t: Tables, uuid: Uuid) {
    forall k :: k in t.files && k.0 == uuid ==> !t.files[k].isUser
  }

  lemma {:induction false} FilledRows(hash: Bytes -> Hash, t: Tables, uuid: Uuid, paths: seq<Text>,
                                      scope: FileEntryScope,
                                      path: Text)
    requires Injective(hash) && NoUserRows(t, uuid)
    ensures var t' := Filled(hash, t, uuid, paths, scope);
            && NoUserRows(t', uuid)
            && Row(t', uuid, hash(path))
               == if path in paths then Some(FileEntry(path, false, scope)) else Row(t, uuid, hash(path))
    decreases paths
  {
    if paths != [] {
      var entry := FileEntry(paths[0], false, scope);
      FilledRows(hash, Inserted(t, uuid, hash(paths[0]), entry), uuid, paths[1..], scope, path);
    }
  }

  lemma RowsOfFilled(hash: Bytes -> Hash, t: Tables, uuid: Uuid, imported: Imported, path: Text)
    requires Injective(hash) && NoUserRows(t, uuid)
    ensures Row(FilledWith(hash, t, uuid, imported), uuid, hash(path))
         == if path in imported.config then Some(FileEntry(path, false, Config))
            else if path in imported.system then Some(FileEntry(path, false, Prefix))
            else Row(t, uuid, hash(path))
  {
    FilledRows(hash, t, uuid, imported.system, Prefix, path);
    FilledRows(hash, Filled(hash, t, uuid, imported.system, Prefix), uuid, imported.config, Config, path);
  }

  /** A package installed under an unused uuid has one row for each imported path, and nothing else is touched. */
  lemma RowsOfInstalled(hash: Bytes -> Hash, t: Tables, uuid: Uuid, package: Package, imported: Imported, path: Text)
    requires Injective(hash) && forall k :: k in t.files ==> k.0 != uuid
    ensures var t' := Installed(hash, t, uuid, package, imported);
            && Row(t', uuid, hash(path))
               == (if path in imported.config then Some(FileEntry(path, false, Config))
                   else if path in imported.system then Some(FileEntry(path, false, Prefix))
                   else None)
            && OtherRowsKept(t', t, uuid)
            && t'.packages == t.packages[uuid := package.meta] && t'.triggers == t.triggers[uuid := package.trigger]
  {
    hide IdentityOf, FilledWith;
    var added := MetaInserted(t, uuid, hash(IdentityOf(package.meta)), package.meta);
    var ready := added.(triggers := t.triggers[uuid := package.trigger]);
    RowsOfFilled(hash, ready, uuid, imported, path);
    FilledWithKeeps(hash, ready, uuid, imported);
  }

  /** A replaced package has its new meta and triggers under its old uuid and identity, and one row for each imported
      path; a path in both trees is recorded as configuration.  Nothing else is touched. */
  lemma RowsOfReplaced(hash: Bytes -> Hash, t: Tables, uuid: Uuid, package: Package, imported: Imported, path: Text)
    requires Injective(hash)
    ensures var t' := Replaced(hash, t, uuid, package, imported);
            && Row(t', uuid, hash(path))
               == (if path in imported.config then Some(FileEntry(path, false, Config))
                   else if path in imported.system then Some(FileEntry(path, false, Prefix))
                   else None)
            && OtherRowsKept(t', t, uuid)
            && t'.packages == t.packages[uuid := package.meta] && t'.triggers == t.triggers[uuid := package.trigger]
            && t'.byName == t.byName
  {
    hide FilledWith;
    var emptied := WithoutRows(t, uuid, true).(
      packages := t.packages[uuid := package.meta],
      triggers := t.triggers[uuid := package.trigger]);
    RowsOfFilled(hash, emptied, uuid, imported, path);
    FilledWithKeeps(hash, emptied, uuid, imported);
  }

  /** Every system file of a replaced package is recorded as one if and only if no configuration file has its path. */
  lemma SystemRowsAreKept(hash: Bytes -> Hash, t: Tables, uuid: Uuid, package: Package, imported: Imported)
    requires Injective(hash)
    ensures (forall path :: path in imported.system ==>
              Row(Replaced(hash, t, uuid, package, imported), uuid, hash(path)) == Some(FileEntry(path, false, Prefix)))
       <==> forall path :: path in imported.system ==> path !in imported.config
  {
    forall path ensures path in imported.system ==>
      (Row(Replaced(hash, t, uuid, package, imported), uuid, hash(path)) == Some(FileEntry(path, false, Prefix))
       <==> path !in imported.config)
    {
      RowsOfReplaced(hash, t, uuid, package, imported, path);
    }
  }

  ghost predicate OtherRowsKept(t': Tables, t: Tables, uuid: Uuid) {
    forall u, h :: u != uuid ==> Row(t', u, h) == Row(t, u, h)
  }

  lemma {:induction false} FilledKeeps(hash: Bytes -> Hash, t: Tables, uuid: Uuid, paths: seq<Text>,
                                       scope: FileEntryScope)
    ensures var t' := Filled(hash, t, uuid, paths, scope);
            && t'.packages == t.packages && t'.byName == t.byName && t'.triggers == t.triggers
            && OtherRowsKept(t', t, uuid)
            && (Sound(hash, t) ==> Sound(hash, t'))
    decreases paths
  {
    hide Sound;
    if paths != [] {
      var entry := FileEntry(paths[0], false, scope);
      if Sound(hash, t) {
        StepStaysSound(hash, t, InsertFile(uuid, entry));
      }
      FilledKeeps(hash, Inserted(t, uuid, hash(paths[0]), entry), uuid, paths[1..], scope);
    }
  }

  lemma FilledWithKeeps(hash: Bytes -> Hash, t: Tables, uuid: Uuid, imported: Imported)
    ensures var t' := FilledWith(hash, t, uuid, imported);
            && t'.packages == t.packages && t'.byName == t.byName && t'.triggers == t.triggers
            && OtherRowsKept(t', t, uuid)
            && (Sound(hash, t) ==> Sound(hash, t'))
  {
    hide Sound;
    FilledKeeps(hash, t, uuid, imported.system, Prefix);
    FilledKeeps(hash, Filled(hash, t, uuid, imported.system, Prefix), uuid, imported.config, Config);
  }

  // ---- Operations on the database --------------------------------------------------------------------

  datatype Operation =
    | Install(uuid: Uuid, package: Package, imported: Imported)
    | Upgrade(package: Package, imported: Imported)
    | Uninstall(name: Text, arch: Text, archSub: Option<Text>, purge: bool)

  /** Why a package is not upgraded: it is not installed, it would be a downgrade, or the user has files in it. */
  ghost predicate Refuses(hash: Bytes -> Hash, t: Tables, package: Package) {
    var found := FindPackage(t, hash(IdentityOf(package.meta)));
    || found == None || found.value !in t.packages
    || V.Compare(package.meta.version, t.packages[found.value].version) == V.Less
    || !NoUserRows(t, found.value)
  }

  /** The tables after one operation, downgrades not being allowed; an operation that is refused leaves them alone. */
  ghost function Apply(hash: Bytes -> Hash, t: Tables, op: Operation): Tables {
    match op
    case Install(uuid, package, imported) => Installed(hash, t, uuid, package, imported)
    case Upgrade(package, imported) =>
      if Refuses(hash, t, package) then t
      else Replaced(hash, t, FindPackage(t, hash(IdentityOf(package.meta))).value, package, imported)
    case Uninstall(name, arch, archSub, purge) =>
      var found := FindPackage(t, hash(IdentityBuffer(name, arch, archSub)));
      if found == None || found.value !in t.packages then t
      else WithoutPackage(hash, t, found.value, purge)
  }

  method InsertFiles(database: MemoryDatabase, uuid: Uuid, paths: seq<Text>, scope: FileEntryScope)
    modifies database`files, database`byPath
    ensures database.Value() == Filled(database.hash, old(database.Value()), uuid, paths, scope)
  {
    for i := 0 to |paths|
      invariant Filled(database.hash, database.Value(), uuid, paths[i..], scope)
             == Filled(database.hash, old(database.Value()), uuid, paths, scope)
      invariant unchanged(database`packages, database`byName, database`triggers)
    {
      assert paths[i..][1..] == paths[i + 1..];
      database.InsertPackageFile(uuid, FileEntry(paths[i], false, scope));
    }
  }

  // ---- The import steps ------------------------------------------------------------------------------

  datatype UpdateError = NotInstalled | DowngradeNotAllowed | NotRemovable(why: UninstallError) | ImportFailed

  datatype UpdateOutcome = Updated(config: seq<Text>) | NotUpdated(error: UpdateError)

  predicate HasUserRow(rows: seq<FileEntry>) {
    exists i :: 0 <= i < |rows| && rows[i].isUser
  }

  lemma UserRowsAreListed(t: Tables, uuid: Uuid, hashes: seq<Hash>, rows: seq<FileEntry>)
    requires AreRows(t, uuid, hashes, rows)
    ensures HasUserRow(rows) <==> !NoUserRows(t, uuid)
  {
    if k :| k in t.files && k.0 == uuid && t.files[k].isUser {
      assert k.1 in hashes;
      var i :| 0 <= i < |hashes| && hashes[i] == k.1;
      assert rows[i].isUser;
    }
  }

  /** Deals with one row of a package being replaced: a user row is refused, after its file has left the tree. */
  method RemoveOldRow(database: MemoryDatabase, tree: T.FileSystem, split: Splitter, uuid: Uuid,
                      row: FileEntry, removed: seq<Text>, ghost t: Tables, ghost tree0: T.Tree,
                      ghost hashes: seq<Hash>, ghost rows: seq<FileEntry>, ghost n: nat)
    returns (error: Option<UninstallError>, config: seq<Text>)
    requires AreRows(t, uuid, hashes, rows) && n < |rows| && row == rows[n]
    requires RowsKeyed(database.hash, t) && T.Valid(tree.Value())
    requires RemovedSoFar(t, database.Value(), tree0, tree.Value(), uuid, hashes, rows, true, split, n, removed)
    modifies database`files, database`byPath, tree`root
    ensures T.Valid(tree.Value())
    ensures error == None ==>
      && !row.isUser
      && RemovedSoFar(t, database.Value(), tree0, tree.Value(), uuid, hashes, rows, true, split, n + 1, config)
    ensures error.Some? ==>
      || (error.value.TreeError? && !Removable(tree0, TreePaths(rows, true, split)))
      || (error.value == RowError(AccessDenied) && row.isUser)
  {
    hide T.Valid, RowsKeyed, IsCut, Removable, GoneHashes, IsListing, RowsAt;
    RowOfListing(database.hash, t, uuid, hashes, rows, true, n);
    OneMoreRow(rows, n, true, split);
    config := removed;
    ghost var paths := TreePaths(rows[..n], true, split);
    match row.scope {
      case Prefix =>
        RemovableNext(tree0, paths, split(row.path));
        var r := RemoveNext(tree, split(row.path), tree0, paths);
        if r.Err? {
          TreePathsGrow(rows, n + 1, true, split);
          NotRemovableLater(tree0, paths + [split(row.path)], TreePaths(rows, true, split));
          return Some(TreeError(r.error)), config;
        }
      case Config =>
        config := config + [row.path];
    }
    ghost var gone := GoneHashes(t, uuid, hashes, true, n);
    WithoutOneMore(t, uuid, gone, hashes[n]);
    var r := database.RemovePackageFile(uuid, row.path);
    error := RowErrorOf(r);
  }

  /** Removes all files of a package being replaced. */
  method RemoveOldFiles(database: MemoryDatabase, tree: T.FileSystem, split: Splitter, uuid: Uuid)
    returns (error: Option<UninstallError>, config: seq<Text>, ghost rows: seq<FileEntry>, ghost hashes: seq<Hash>)
    requires RowsKeyed(database.hash, database.Value()) && T.Valid(tree.Value())
    modifies database`files, database`byPath, tree`root
    ensures T.Valid(tree.Value())
    ensures AreRows(old(database.Value()), uuid, hashes, rows)
    ensures error == None <==> !HasUserRow(rows) && Removable(old(tree.Value()), TreePaths(rows, true, split))
    ensures error.Some? ==>
      || (error.value.TreeError? && !Removable(old(tree.Value()), TreePaths(rows, true, split)))
      || (error.value == RowError(AccessDenied) && HasUserRow(rows))
    ensures error == None ==>
      && database.Value() == WithoutRows(old(database.Value()), uuid, true)
      && IsCut(tree.Value(), old(tree.Value()), TreePaths(rows, true, split))
      && config == ConfigPaths(rows, true)
  {
    hide T.Valid, IsCut, Removable, GoneHashes, Without, IsListing, RowsKeyed, RowsAt, WithoutRows;
    ghost var t, tree0 := database.Value(), tree.Value();
    var files: seq<FileEntry>;
    files, hashes := database.ListPackageFiles(uuid);
    rows := files;
    ListedRows(t, uuid, hashes, rows);
    config := [];
    NothingRemoved(t, tree0, uuid, hashes, rows, true, split);
    for i := 0 to |files|
      invariant T.Valid(tree.Value())
      invariant RemovedSoFar(t, database.Value(), tree0, tree.Value(), uuid, hashes, rows, true, split, i, config)
      invariant forall j :: 0 <= j < i ==> !rows[j].isUser
    {
      error, config := RemoveOldRow(database, tree, split, uuid, files[i], config, t, tree0, hashes, rows, i);
      if error.Some? {
        return;
      }
    }
    assert files[..|files|] == files;
    WithoutAll(t, uuid, hashes, true);
    error := None;
  }

  /** How a replacement that was not refused outright ends. */
  predicate ReplaceEnds(r: UpdateOutcome, tree: T.Tree, paths: seq<P.Path>, rows: seq<FileEntry>, mayCancel: bool) {
    if HasUserRow(rows) then
      && r.NotUpdated?
      && (Removable(tree, paths) ==> r.error == NotRemovable(RowError(AccessDenied)))
    else if !Removable(tree, paths) then r.NotUpdated? && r.error.NotRemovable? && r.error.why.TreeError?
    else r.Updated? || (mayCancel && r == NotUpdated(ImportFailed))
  }

  // ---- Taking in the files of a package --------------------------------------------------------------

  /** The system and configuration files of an unpacked package. */
  datatype Contents = Contents(system: Option<I.Source>, config: Option<I.Source>)

  predicate HasFile(source: Option<I.Source>, p: P.Path) {
    source.Some? && source.value.SourceDir? && I.IsFile(source.value, p)
  }

  /** The texts are those of the files of the source. */
  ghost predicate NameFiles(texts: seq<Text>, source: Option<I.Source>, join: Joiner) {
    forall text :: text in texts <==> exists p :: HasFile(source, p) && join(p) == text
  }

  /** The import of a package copied its files into both trees, replacing what it met, and listed them. */
  ghost predicate TakenIn(imported: Imported, contents: Contents, join: Joiner, tree: T.Tree, before: P.Path -> T.Node,
                          defaults: T.Tree, oldDefaults: T.Tree) {
    && NameFiles(imported.system, contents.system, join)
    && NameFiles(imported.config, contents.config, join)
    && (forall q :: T.View(tree, q) == I.ImportedView(contents.system, before(q), q))
    && forall q :: T.View(defaults, q) == I.ImportedView(contents.config, T.View(oldDefaults, q), q)
  }

  function Joined(paths: seq<P.Path>, join: Joiner): (texts: seq<Text>)
    ensures |texts| == |paths| && forall i :: 0 <= i < |paths| ==> texts[i] == join(paths[i])
  {
    seq(|paths|, i requires 0 <= i < |paths| => join(paths[i]))
  }

  lemma JoinedNames(paths: seq<P.Path>, source: Option<I.Source>, join: Joiner)
    requires forall p :: p in paths <==> HasFile(source, p)
    ensures NameFiles(Joined(paths, join), source, join)
  {
    hide HasFile;
    var texts := Joined(paths, join);
    forall text ensures text in texts <==> exists p :: HasFile(source, p) && join(p) == text {
      if text in texts {
        var i :| 0 <= i < |texts| && texts[i] == text;
        assert paths[i] in paths;
      }
      if p :| HasFile(source, p) && join(p) == text {
        assert p in paths;
        var i :| 0 <= i < |paths| && paths[i] == p;
        assert texts[i] == text;
      }
    }
  }

  /** Imports the two directories of a package; only a cancellation stops it. */
  method TakeIn(tree: T.FileSystem, defaults: T.FileSystem, join: Joiner, contents: Contents, mayCancel: bool)
    returns (imported: Option<Imported>)
    requires tree != defaults && T.Valid(tree.Value()) && T.Valid(defaults.Value())
    modifies tree, defaults
    ensures T.Valid(tree.Value()) && T.Valid(defaults.Value())
    ensures imported.Some? || mayCancel
    ensures imported.Some? ==>
      TakenIn(imported.value, contents, join, tree.Value(), q => T.View(old(tree.Value()), q),
              defaults.Value(), old(defaults.Value()))
  {
    hide T.Valid, T.View, I.ImportedView, I.IsFile;
    var system := I.ImportIfDir(tree, contents.system, mayCancel);
    if !system.Imported? {
      return None;
    }
    var config := I.ImportIfDir(defaults, contents.config, mayCancel);
    if !config.Imported? {
      return None;
    }
    JoinedNames(system.paths, contents.system, join);
    JoinedNames(config.paths, contents.config, join);
    imported := Some(Imported(Joined(system.paths, join), Joined(config.paths, join)));
  }

  /** Replaces an installed package: refuses a downgrade, removes its files, and takes in the new ones. */
  method ReplacePackage(database: MemoryDatabase, tree: T.FileSystem, defaults: T.FileSystem, split: Splitter,
                        join: Joiner, package: Package, contents: Contents, mayCancel: bool, allowDowngrade: bool)
    returns (r: UpdateOutcome, ghost uuid: Uuid, ghost rows: seq<FileEntry>, ghost hashes: seq<Hash>,
             ghost imported: Imported)
    requires Sound(database.hash, database.Value())
    requires tree != defaults && T.Valid(tree.Value()) && T.Valid(defaults.Value())
    modifies database, tree, defaults
    ensures var found := FindPackage(old(database.Value()), database.hash(IdentityOf(package.meta)));
            if found == None then r == NotUpdated(NotInstalled)
            else
              && uuid == found.value && uuid in old(database.packages)
              && if !allowDowngrade && V.Compare(package.meta.version, old(database.packages)[uuid].version) == V.Less
                 then r == NotUpdated(DowngradeNotAllowed)
                 else
                   && AreRows(old(database.Value()), uuid, hashes, rows)
                   && ReplaceEnds(r, old(tree.Value()), TreePaths(rows, true, split), rows, mayCancel)
    ensures r.Updated? ==>
      && database.Value() == Replaced(database.hash, old(database.Value()), uuid, package, imported)
      && r.config == ConfigPaths(rows, true)
      && TakenIn(imported, contents, join,
                 tree.Value(), q => CutView(old(tree.Value()), TreePaths(rows, true, split), q),
                 defaults.Value(), old(defaults.Value()))
    ensures r.Updated? ==>
      && database.packages == old(database.packages)[uuid := package.meta]
      && database.triggers == old(database.triggers)[uuid := package.trigger]
      && database.byName == old(database.byName)
      && forall k :: k in old(database.files) && k.0 == uuid ==> !old(database.files)[k].isUser
    ensures !allowDowngrade && Refuses(database.hash, old(database.Value()), package) ==> r.NotUpdated?
    ensures !allowDowngrade && r.Updated? ==>
      database.Value() == Apply(database.hash, old(database.Value()), Upgrade(package, imported))
  {
    hide T.Valid, Removable, IdentityBuffer, V.Compare, Filled, TreePaths, ConfigPaths, AreRows, WithoutRows,
         HasUserRow, NoUserRows, Replaced, TakenIn, IsCut;
    uuid, rows, hashes, imported := 0, [], [], Imported([], []);
    ghost var t, tree0 := database.Value(), tree.Value();
    var found := database.FindPackageUuid(package.meta.name, package.meta.arch, package.meta.archSub);
    if found.None? {
      r := NotUpdated(NotInstalled);
      return;
    }
    uuid := found.value;
    if !allowDowngrade {
      var current := database.GetPackageMeta(found.value);
      var order := V.Cmp(package.meta.version, current.value.version);
      if order == V.Less {
        r := NotUpdated(DowngradeNotAllowed);
        return;
      }
    }
    var error, config;
    error, config, rows, hashes := RemoveOldFiles(database, tree, split, found.value);
    UserRowsAreListed(t, uuid, hashes, rows);
    if error.Some? {
      r := NotUpdated(NotRemovable(error.value));
      return;
    }
    ghost var cut := tree.Value();
    var taken := TakeIn(tree, defaults, join, contents, mayCancel);
    if taken.None? {
      r := NotUpdated(ImportFailed);
      return;
    }
    imported := taken.value;
    TakenOverCut(imported, contents, join, tree.Value(), cut, tree0, TreePaths(rows, true, split), defaults.Value(),
                 old(defaults.Value()));
    RecordUpgrade(database, found.value, package, taken.value, t);
    NoRowIsTheUsers(t, uuid);
    r := Updated(config);
  }

  lemma NoRowIsTheUsers(t: Tables, uuid: Uuid)
    requires NoUserRows(t, uuid)
    ensures forall k :: k in t.files && k.0 == uuid ==> !t.files[k].isUser
  {
  }

  lemma TakenOverCut(imported: Imported, contents: Contents, join: Joiner, tree: T.Tree, cut: T.Tree, before: T.Tree,
                     paths: seq<P.Path>, defaults: T.Tree, oldDefaults: T.Tree)
    requires TakenIn(imported, contents, join, tree, q => T.View(cut, q), defaults, oldDefaults)
    requires IsCut(cut, before, paths)
    ensures TakenIn(imported, contents, join, tree, q => CutView(before, paths, q), defaults, oldDefaults)
  {
    hide T.View, CutView, I.ImportedView;
  }

  /** Records the package and its files in a database that has lost the old files. */
  method RecordUpgrade(database: MemoryDatabase, uuid: Uuid, package: Package, imported: Imported, ghost t: Tables)
    requires database.Value() == WithoutRows(t, uuid, true)
    requires FindPackage(t, database.hash(IdentityOf(package.meta))) == Some(uuid)
    modifies database
    ensures database.Value() == Replaced(database.hash, t, uuid, package, imported)
    ensures database.packages == t.packages[uuid := package.meta] && database.byName == t.byName
    ensures database.triggers == t.triggers[uuid := package.trigger]
  {
    hide IdentityOf, Filled;
    UntouchedByWithoutRows(t, uuid, true);
    var _ := database.UpdatePackageMeta(package.meta);
    database.SetDeclarativeTriggers(uuid, package.trigger);
    InsertFiles(database, uuid, imported.system, Prefix);
    InsertFiles(database, uuid, imported.config, Config);
  }

  /** Installs a package under a new uuid. */
  method InstallPackage(database: MemoryDatabase, tree: T.FileSystem, defaults: T.FileSystem, join: Joiner, uuid: Uuid,
                        package: Package, contents: Contents, mayCancel: bool)
    returns (ok: bool, ghost imported: Imported)
    requires tree != defaults && T.Valid(tree.Value()) && T.Valid(defaults.Value())
    modifies database, tree, defaults
    ensures ok || mayCancel
    ensures !ok ==> database.Value() == old(database.Value())
    ensures ok ==>
      && TakenIn(imported, contents, join, tree.Value(), q => T.View(old(tree.Value()), q),
                 defaults.Value(), old(defaults.Value()))
      && database.Value() == Installed(database.hash, old(database.Value()), uuid, package, imported)
      && database.Value() == Apply(database.hash, old(database.Value()), Install(uuid, package, imported))
    ensures ok ==>
      && database.packages == old(database.packages)[uuid := package.meta]
      && database.triggers == old(database.triggers)[uuid := package.trigger]
      && database.byName == old(database.byName)[database.hash(IdentityOf(package.meta)) := uuid]
  {
    hide IdentityOf, TakenIn, Filled, T.Valid;
    imported := Imported([], []);
    var taken := TakeIn(tree, defaults, join, contents, mayCancel);
    if taken.None? {
      ok := false;
      return;
    }
    imported := taken.value;
    database.InsertPackageMeta(uuid, package.meta);
    database.SetDeclarativeTriggers(uuid, package.trigger);
    InsertFiles(database, uuid, taken.value.system, Prefix);
    InsertFiles(database, uuid, taken.value.config, Config);
    ok := true;
  }

  /** A file of the tree that the package does not bring is gone after its import exactly if its topmost directory is
      one of the package's. */
  lemma ImportKeepsOthers(imported: Imported, contents: Contents, join: Joiner, tree: T.Tree, before: P.Path -> T.Node,
                          defaults: T.Tree, oldDefaults: T.Tree, q: P.Path)
    requires TakenIn(imported, contents, join, tree, before, defaults, oldDefaults)
    requires q != [] && before(q) != T.Absent
    requires contents.system.Some? && contents.system.value.SourceDir? && I.Find(contents.system.value, q) == None
    ensures T.View(tree, q) == if q[0] in contents.system.value.entries then T.Absent else before(q)
  {
    hide T.View;
    assert T.View(tree, q) == I.ImportedView(contents.system, before(q), q);
  }

  /** The files of the package's two directories are in the two trees with their content, and are listed. */
  lemma ImportBringsFiles(imported: Imported, contents: Contents, join: Joiner, tree: T.Tree, before: P.Path -> T.Node,
                          defaults: T.Tree, oldDefaults: T.Tree, q: P.Path, leaf: T.Leaf)
    requires TakenIn(imported, contents, join, tree, before, defaults, oldDefaults) && q != []
    ensures contents.system.Some? && I.Find(contents.system.value, q) == Some(I.SourceLeaf(leaf)) ==>
              T.View(tree, q) == T.LeafNode(leaf) && join(q) in imported.system
    ensures contents.config.Some? && I.Find(contents.config.value, q) == Some(I.SourceLeaf(leaf)) ==>
              T.View(defaults, q) == T.LeafNode(leaf) && join(q) in imported.config
  {
    hide T.View;
    assert T.View(tree, q) == I.ImportedView(contents.system, before(q), q);
    assert T.View(defaults, q) == I.ImportedView(contents.config, T.View(oldDefaults, q), q);
    if contents.system.Some? && I.Find(contents.system.value, q) == Some(I.SourceLeaf(leaf)) {
      assert HasFile(contents.system, q);
    }
    if contents.config.Some? && I.Find(contents.config.value, q) == Some(I.SourceLeaf(leaf)) {
      assert HasFile(contents.config, q);
    }
  }

  /** Uninstalls by identity: looks the package up, then removes it. */
  method UninstallPackage(database: MemoryDatabase, tree: T.FileSystem, split: Splitter, name: Text, arch: Text,
                          archSub: Option<Text>, purge: bool)
    returns (r: UninstallOutcome, ghost rows: seq<FileEntry>, ghost hashes: seq<Hash>)
    requires Sound(database.hash, database.Value()) && T.Valid(tree.Value())
    modifies database, tree
    ensures var found := FindPackage(old(database.Value()), database.hash(IdentityBuffer(name, arch, archSub)));
            if found == None then r == NotRemoved(PackageGone) && database.Value() == old(database.Value())
            else
              && AreRows(old(database.Value()), found.value, hashes, rows)
              && (r.Removed? <==> Removable(old(tree.Value()), TreePaths(rows, purge, split)))
              && (r.NotRemoved? ==> r.error.TreeError?)
    ensures r.Removed? ==>
              && database.Value() == Apply(database.hash, old(database.Value()), Uninstall(name, arch, archSub, purge))
              && IsCut(tree.Value(), old(tree.Value()), TreePaths(rows, purge, split))
              && r.config == ConfigPaths(rows, purge)
    ensures r.Removed? ==>
      var uuid := FindPackage(old(database.Value()), database.hash(IdentityBuffer(name, arch, archSub))).value;
      && database.packages == old(database.packages) - {uuid} && database.triggers == old(database.triggers) - {uuid}
      && forall k :: k in database.files <==>
           k in old(database.files) && (k.0 != uuid || (old(database.files)[k].isUser && !purge))
  {
    hide T.Valid, IsCut, Removable, IdentityBuffer, AreRows, TreePaths, ConfigPaths, WithoutPackage, RowsKeyed;
    rows, hashes := [], [];
    ghost var t := database.Value();
    var found := database.FindPackageUuid(name, arch, archSub);
    if found.None? {
      r := NotRemoved(PackageGone);
      return;
    }
    r, rows, hashes := RemovePackage(database, tree, split, found.value, purge);
    forall k {
      WhatRemovalLeaves(database.hash, t, found.value, purge, k);
    }
  }
}
