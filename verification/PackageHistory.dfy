/** What any history of installing, upgrading and removing packages keeps. */
module PackageHistory {
  import opened Basics
  import opened Types
  import opened Codec
  import opened Database
  import opened Packages
  import V = Versions

  ghost function After(hash: Bytes -> Hash, t: Tables, ops: seq<Operation>): Tables
    decreases ops
  {
    if ops == [] then t else After(hash, Apply(hash, t, ops[0]), ops[1..])
  }

  ghost predicate FreshUuids(hash: Bytes -> Hash, t: Tables, ops: seq<Operation>)
    decreases ops
  {
    ops != [] ==>
      && (ops[0].Install? ==> ops[0].uuid !in t.packages)
      && FreshUuids(hash, Apply(hash, t, ops[0]), ops[1..])
  }

  lemma WithoutRowsIsSound(hash: Bytes -> Hash, t: Tables, uuid: Uuid)
    requires Sound(hash, t)
    ensures Sound(hash, WithoutRows(t, uuid, true))
  {
    hide IdentityOf, IdentityBuffer;
  }

  lemma ReplacedIsSound(hash: Bytes -> Hash, t: Tables, uuid: Uuid, package: Package, imported: Imported)
    requires Sound(hash, t) && FindPackage(t, hash(IdentityOf(package.meta))) == Some(uuid)
    ensures Sound(hash, Replaced(hash, t, uuid, package, imported))
  {
    hide IdentityOf, Sound, WithoutRows;
    WithoutRowsIsSound(hash, t, uuid);
    var emptied := WithoutRows(t, uuid, true);
    assert emptied.byName == t.byName && emptied.packages == t.packages && emptied.triggers == t.triggers by {
      UntouchedByWithoutRows(t, uuid, true);
    }
    StepStaysSound(hash, emptied, UpdateMeta(package.meta));
    var updated := Step(hash, emptied, UpdateMeta(package.meta));
    StepStaysSound(hash, updated, SetTriggers(uuid, package.trigger));
    FilledWithKeeps(hash, Step(hash, updated, SetTriggers(uuid, package.trigger)), uuid, imported);
  }

  lemma InstalledIsSound(hash: Bytes -> Hash, t: Tables, uuid: Uuid, package: Package, imported: Imported)
    requires Sound(hash, t) && uuid !in t.packages
    ensures Sound(hash, Installed(hash, t, uuid, package, imported))
  {
    hide IdentityOf, Sound;
    StepStaysSound(hash, t, InsertMeta(uuid, package.meta));
    var added := Step(hash, t, InsertMeta(uuid, package.meta));
    StepStaysSound(hash, added, SetTriggers(uuid, package.trigger));
    FilledWithKeeps(hash, Step(hash, added, SetTriggers(uuid, package.trigger)), uuid, imported);
  }

  /** The package found for an identity is the one its own identity leads to. */
  lemma FoundIsNamed(hash: Bytes -> Hash, t: Tables, uuid: Uuid, h: Hash)
    requires Sound(hash, t) && FindPackage(t, h) == Some(uuid)
    ensures uuid in t.packages && Named(hash, t, uuid) == Some(uuid)
  {
    hide IdentityOf;
  }

  lemma ApplyIsSound(hash: Bytes -> Hash, t: Tables, op: Operation)
    requires Sound(hash, t)
    requires op.Install? ==> op.uuid !in t.packages
    ensures Sound(hash, Apply(hash, t, op))
  {
    hide Replaced, Installed, WithoutPackage, IdentityBuffer;
    match op
    case Install(uuid, package, imported) =>
      InstalledIsSound(hash, t, uuid, package, imported);
    case Upgrade(package, imported) =>
      var found := FindPackage(t, hash(IdentityOf(package.meta)));
      if found != None {
        ReplacedIsSound(hash, t, found.value, package, imported);
      }
    case Uninstall(name, arch, archSub, purge) =>
      var found := FindPackage(t, hash(IdentityBuffer(name, arch, archSub)));
      if found != None && found.value in t.packages {
        FoundIsNamed(hash, t, found.value, hash(IdentityBuffer(name, arch, archSub)));
        RemovalKeepsAgreement(hash, t, found.value, purge);
      }
  }

  /** Whatever is installed, upgraded and removed, no index entry ever dangles. */
  lemma {:induction false} EveryHistoryIsSound(hash: Bytes -> Hash, t: Tables, ops: seq<Operation>)
    requires Sound(hash, t) && FreshUuids(hash, t, ops)
    ensures Sound(hash, After(hash, t, ops))
    decreases ops
  {
    hide Sound, Apply;
    if ops != [] {
      ApplyIsSound(hash, t, ops[0]);
      EveryHistoryIsSound(hash, Apply(hash, t, ops[0]), ops[1..]);
    }
  }

  // ---- Versions --------------------------------------------------------------------------------------

  /** The package is installed all along. */
  ghost predicate StaysInstalled(hash: Bytes -> Hash, t: Tables, ops: seq<Operation>, uuid: Uuid)
    decreases ops
  {
    && uuid in t.packages
    && (ops != [] ==> StaysInstalled(hash, Apply(hash, t, ops[0]), ops[1..], uuid))
  }

  lemma VersionAfterOne(hash: Bytes -> Hash, t: Tables, op: Operation, uuid: Uuid)
    requires uuid in t.packages && uuid in Apply(hash, t, op).packages
    requires op.Install? ==> op.uuid !in t.packages
    ensures V.Compare(t.packages[uuid].version, Apply(hash, t, op).packages[uuid].version) != V.Greater
  {
    hide V.Compare, Filled, FilledWith, IdentityOf, IdentityBuffer, WithoutRows, NoUserRows;
    V.CompareIsAntisymmetric(t.packages[uuid].version, t.packages[uuid].version);
    match op
    case Install(u, package, imported) =>
      var added := MetaInserted(t, u, hash(IdentityOf(package.meta)), package.meta);
      FilledWithKeeps(hash, added.(triggers := t.triggers[u := package.trigger]), u, imported);
    case Upgrade(package, imported) =>
      var found := FindPackage(t, hash(IdentityOf(package.meta)));
      if found != None {
        var emptied := WithoutRows(t, found.value, true).(
          packages := t.packages[found.value := package.meta],
          triggers := t.triggers[found.value := package.trigger]);
        FilledWithKeeps(hash, emptied, found.value, imported);
        V.CompareIsAntisymmetric(t.packages[uuid].version, package.meta.version);
      }
    case Uninstall(name, arch, archSub, purge) =>
      var found := FindPackage(t, hash(IdentityBuffer(name, arch, archSub)));
      if found != None {
        UntouchedByWithoutRows(t, found.value, purge);
      }
  }

  /** While a package stays installed, its version never goes back. */
  lemma {:induction false} VersionsNeverGoBack(hash: Bytes -> Hash, t: Tables, ops: seq<Operation>, uuid: Uuid)
    requires StaysInstalled(hash, t, ops, uuid) && FreshUuids(hash, t, ops)
    ensures uuid in After(hash, t, ops).packages
    ensures V.Compare(t.packages[uuid].version, After(hash, t, ops).packages[uuid].version) != V.Greater
    decreases ops
  {
    hide Apply, V.Compare;
    if ops == [] {
      V.CompareIsAntisymmetric(t.packages[uuid].version, t.packages[uuid].version);
    } else {
      var t' := Apply(hash, t, ops[0]);
      VersionAfterOne(hash, t, ops[0], uuid);
      VersionsNeverGoBack(hash, t', ops[1..], uuid);
      V.CompareIsTransitive(t.packages[uuid].version, t'.packages[uuid].version,
                            After(hash, t, ops).packages[uuid].version);
    }
  }

  // ---- Agreement -------------------------------------------------------------------------------------

  /** None of the paths leads to another package. */
  predicate FreePaths(hash: Bytes -> Hash, t: Tables, uuid: Uuid, paths: seq<Text>) {
    forall i :: 0 <= i < |paths| ==> hash(paths[i]) in t.byPath ==> t.byPath[hash(paths[i])] == uuid
  }

  /** Some row is hidden behind an index entry that leads to `uuid` instead. */
  ghost predicate HidesSome(t: Tables, uuid: Uuid) {
    exists k :: k in t.files && k.0 != uuid && k.1 in t.byPath && t.byPath[k.1] == uuid
  }

  lemma {:induction false} HiddenStaysHidden(hash: Bytes -> Hash, t: Tables, uuid: Uuid, paths: seq<Text>,
                                             scope: FileEntryScope)
    requires HidesSome(t, uuid)
    ensures HidesSome(Filled(hash, t, uuid, paths, scope), uuid)
    decreases paths
  {
    if paths != [] {
      var t' := Inserted(t, uuid, hash(paths[0]), FileEntry(paths[0], false, scope));
      var k :| k in t.files && k.0 != uuid && k.1 in t.byPath && t.byPath[k.1] == uuid;
      assert k in t'.files && k.1 in t'.byPath && t'.byPath[k.1] == uuid;
      HiddenStaysHidden(hash, t', uuid, paths[1..], scope);
    }
  }

  /** Filling in a package's rows keeps rows and paths in agreement exactly when no path leads to another package. */
  lemma {:induction false} FilledAgrees(hash: Bytes -> Hash, t: Tables, uuid: Uuid, paths: seq<Text>,
                                        scope: FileEntryScope)
    requires Sound(hash, t) && PathsAgree(t)
    ensures PathsAgree(Filled(hash, t, uuid, paths, scope)) <==> FreePaths(hash, t, uuid, paths)
    ensures !FreePaths(hash, t, uuid, paths) ==> HidesSome(Filled(hash, t, uuid, paths, scope), uuid)
    decreases paths
  {
    hide Sound;
    if paths != [] {
      var entry := FileEntry(paths[0], false, scope);
      var t' := Inserted(t, uuid, hash(paths[0]), entry);
      StepStaysSound(hash, t, InsertFile(uuid, entry));
      PathsStayAgreed(hash, t, InsertFile(uuid, entry));
      FreePathsStep(hash, t, uuid, paths, entry);
      if TakesPath(hash, t, InsertFile(uuid, entry)) {
        OwnerIsHidden(hash, t, uuid, entry);
        HiddenStaysHidden(hash, t', uuid, paths[1..], scope);
      } else {
        FilledAgrees(hash, t', uuid, paths[1..], scope);
      }
    }
  }

  lemma FreePathsStep(hash: Bytes -> Hash, t: Tables, uuid: Uuid, paths: seq<Text>, entry: FileEntry)
    requires paths != [] && entry.path == paths[0]
    ensures FreePaths(hash, t, uuid, paths)
       <==> !TakesPath(hash, t, InsertFile(uuid, entry))
            && FreePaths(hash, Inserted(t, uuid, hash(paths[0]), entry), uuid, paths[1..])
  {
    assert forall i :: 0 <= i < |paths| - 1 ==> paths[1..][i] == paths[i + 1];
    if FreePaths(hash, t, uuid, paths) {
      forall i | 0 <= i < |paths| - 1
        ensures hash(paths[1..][i]) in t.byPath ==> t.byPath[hash(paths[1..][i])] == uuid
      {
        assert paths[1..][i] == paths[i + 1];
      }
    }
  }

  lemma OwnerIsHidden(hash: Bytes -> Hash, t: Tables, uuid: Uuid, entry: FileEntry)
    requires Sound(hash, t) && PathsAgree(t) && TakesPath(hash, t, InsertFile(uuid, entry))
    ensures HidesSome(Inserted(t, uuid, hash(entry.path), entry), uuid)
  {
    hide NamesLead;
    var h := hash(entry.path);
    var t' := Inserted(t, uuid, h, entry);
    assert (t.byPath[h], h) in t'.files;
  }

  /** The path hash leads to a package other than `uuid`. */
  predicate LeadsElsewhere(t: Tables, uuid: Uuid, h: Hash) {
    h in t.byPath && t.byPath[h] != uuid
  }

  /** Filling in free paths takes nothing from any other package. */
  lemma {:induction false} FilledLeads(hash: Bytes -> Hash, t: Tables, uuid: Uuid, paths: seq<Text>,
                                       scope: FileEntryScope,
                                       h: Hash)
    requires FreePaths(hash, t, uuid, paths)
    ensures LeadsElsewhere(Filled(hash, t, uuid, paths, scope), uuid, h) == LeadsElsewhere(t, uuid, h)
    decreases paths
  {
    if paths != [] {
      var entry := FileEntry(paths[0], false, scope);
      FreePathsStep(hash, t, uuid, paths, entry);
      FilledLeads(hash, Inserted(t, uuid, hash(paths[0]), entry), uuid, paths[1..], scope, h);
    }
  }

  lemma FreePathsElsewhere(hash: Bytes -> Hash, t: Tables, t': Tables, uuid: Uuid, paths: seq<Text>)
    requires forall h :: LeadsElsewhere(t', uuid, h) == LeadsElsewhere(t, uuid, h)
    ensures FreePaths(hash, t', uuid, paths) == FreePaths(hash, t, uuid, paths)
  {
    forall i | 0 <= i < |paths|
      ensures LeadsElsewhere(t', uuid, hash(paths[i])) == LeadsElsewhere(t, uuid, hash(paths[i]))
    {
    }
  }

  predicate FreeImport(hash: Bytes -> Hash, t: Tables, uuid: Uuid, imported: Imported) {
    FreePaths(hash, t, uuid, imported.system) && FreePaths(hash, t, uuid, imported.config)
  }

  lemma FilledWithAgrees(hash: Bytes -> Hash, t: Tables, uuid: Uuid, imported: Imported)
    requires Sound(hash, t) && PathsAgree(t)
    ensures PathsAgree(FilledWith(hash, t, uuid, imported)) <==> FreeImport(hash, t, uuid, imported)
  {
    hide Sound, PathsAgree, FreePaths, HidesSome, LeadsElsewhere;
    var half := Filled(hash, t, uuid, imported.system, Prefix);
    FilledAgrees(hash, t, uuid, imported.system, Prefix);
    FilledKeeps(hash, t, uuid, imported.system, Prefix);
    if FreePaths(hash, t, uuid, imported.system) {
      forall h {
        FilledLeads(hash, t, uuid, imported.system, Prefix, h);
      }
      FreePathsElsewhere(hash, t, half, uuid, imported.config);
      FilledAgrees(hash, half, uuid, imported.config, Config);
    } else {
      HiddenStaysHidden(hash, half, uuid, imported.config, Config);
      HiddenDisagrees(FilledWith(hash, t, uuid, imported), uuid);
    }
  }

  lemma HiddenDisagrees(t: Tables, uuid: Uuid)
    requires HidesSome(t, uuid)
    ensures !PathsAgree(t)
  {
  }

  /** Installing keeps rows and paths in agreement exactly if no imported path is another package's, and packages and
      identities exactly if the identity is not installed. */
  lemma InstallAgrees(hash: Bytes -> Hash, t: Tables, uuid: Uuid, package: Package, imported: Imported)
    requires Sound(hash, t) && PathsAgree(t) && NamesAgree(hash, t) && uuid !in t.packages
    ensures var t' := Installed(hash, t, uuid, package, imported);
            && (PathsAgree(t') <==> FreeImport(hash, t, uuid, imported))
            && (NamesAgree(hash, t') <==> hash(IdentityOf(package.meta)) !in t.byName)
  {
    hide Sound, IdentityOf, FilledWith;
    var e := InsertMeta(uuid, package.meta);
    StepStaysSound(hash, t, e);
    NamesStayAgreed(hash, t, e);
    var added := Step(hash, t, e).(triggers := t.triggers[uuid := package.trigger]);
    StepStaysSound(hash, Step(hash, t, e), SetTriggers(uuid, package.trigger));
    FilledWithAgrees(hash, added, uuid, imported);
    FilledWithKeeps(hash, added, uuid, imported);
    FreePathsElsewhere(hash, t, added, uuid, imported.system);
    FreePathsElsewhere(hash, t, added, uuid, imported.config);
  }

  lemma WithoutRowsAgrees(hash: Bytes -> Hash, t: Tables, uuid: Uuid)
    requires Sound(hash, t) && PathsAgree(t)
    ensures var t' := WithoutRows(t, uuid, true);
            Sound(hash, t') && PathsAgree(t') && forall h :: LeadsElsewhere(t', uuid, h) == LeadsElsewhere(t, uuid, h)
  {
    hide IdentityOf, NamesLead;
    UntouchedByWithoutRows(t, uuid, true);
    WithoutRowsIsSound(hash, t, uuid);
  }

  /** Replacing a package keeps rows and paths in agreement exactly if no imported path is another package's. */
  lemma ReplaceAgrees(hash: Bytes -> Hash, t: Tables, uuid: Uuid, package: Package, imported: Imported)
    requires Sound(hash, t) && PathsAgree(t) && NamesAgree(hash, t)
    requires FindPackage(t, hash(IdentityOf(package.meta))) == Some(uuid)
    ensures var t' := Replaced(hash, t, uuid, package, imported);
            && (PathsAgree(t') <==> FreeImport(hash, t, uuid, imported))
            && NamesAgree(hash, t')
  {
    hide Sound, IdentityOf, FilledWith, WithoutRows, PathsAgree, LeadsElsewhere, NamesAgree;
    var emptied := WithoutRows(t, uuid, true);
    WithoutRowsAgrees(hash, t, uuid);
    UntouchedByWithoutRows(t, uuid, true);
    SameNames(hash, t, emptied);
    var e, f := UpdateMeta(package.meta), SetTriggers(uuid, package.trigger);
    var updated := Step(hash, emptied, e);
    StepStaysSound(hash, emptied, e);
    NamesStayAgreed(hash, emptied, e);
    StepStaysSound(hash, updated, f);
    NamesStayAgreed(hash, updated, f);
    var ready := Step(hash, updated, f);
    SamePaths(emptied, ready, uuid);
    FreePathsElsewhere(hash, t, ready, uuid, imported.system);
    FreePathsElsewhere(hash, t, ready, uuid, imported.config);
    FilledWithAgrees(hash, ready, uuid, imported);
    FilledWithKeeps(hash, ready, uuid, imported);
    SameNames(hash, ready, FilledWith(hash, ready, uuid, imported));
  }

  lemma SameNames(hash: Bytes -> Hash, t: Tables, t': Tables)
    requires t'.packages == t.packages && t'.byName == t.byName
    ensures NamesAgree(hash, t') == NamesAgree(hash, t)
  {
  }

  lemma SamePaths(t: Tables, t': Tables, uuid: Uuid)
    requires t'.files == t.files && t'.byPath == t.byPath
    ensures PathsAgree(t') == PathsAgree(t)
    ensures forall h :: LeadsElsewhere(t', uuid, h) == LeadsElsewhere(t, uuid, h)
  {
  }

  /** The operation takes a path of another package, or an identity that is already installed. */
  predicate Clashes(hash: Bytes -> Hash, t: Tables, op: Operation) {
    match op
    case Install(uuid, package, imported) =>
      hash(IdentityOf(package.meta)) in t.byName || !FreeImport(hash, t, uuid, imported)
    case Upgrade(package, imported) =>
      var found := FindPackage(t, hash(IdentityOf(package.meta)));
      found != None && !FreeImport(hash, t, found.value, imported)
    case Uninstall(_, _, _, _) => false
  }

  ghost predicate NoneClashes(hash: Bytes -> Hash, t: Tables, ops: seq<Operation>)
    decreases ops
  {
    ops != [] ==> !Clashes(hash, t, ops[0]) && NoneClashes(hash, Apply(hash, t, ops[0]), ops[1..])
  }

  lemma ApplyAgrees(hash: Bytes -> Hash, t: Tables, op: Operation)
    requires Sound(hash, t) && PathsAgree(t) && NamesAgree(hash, t)
    requires op.Install? ==> op.uuid !in t.packages
    requires !Clashes(hash, t, op)
    ensures PathsAgree(Apply(hash, t, op)) && NamesAgree(hash, Apply(hash, t, op))
  {
    hide Sound, PathsAgree, NamesAgree, IdentityBuffer, Replaced, Installed, WithoutPackage, FreeImport;
    match op
    case Install(uuid, package, imported) =>
      InstallAgrees(hash, t, uuid, package, imported);
    case Upgrade(package, imported) =>
      var found := FindPackage(t, hash(IdentityOf(package.meta)));
      if found != None {
        ReplaceAgrees(hash, t, found.value, package, imported);
      }
    case Uninstall(name, arch, archSub, purge) =>
      var found := FindPackage(t, hash(IdentityBuffer(name, arch, archSub)));
      if found != None && found.value in t.packages {
        FoundIsNamed(hash, t, found.value, hash(IdentityBuffer(name, arch, archSub)));
        RemovalKeepsAgreement(hash, t, found.value, purge);
      }
  }

  /** In a history without clashes, rows and packages are always the ones their indexes lead to. */
  lemma {:induction false} EveryHistoryAgrees(hash: Bytes -> Hash, t: Tables, ops: seq<Operation>)
    requires Sound(hash, t) && PathsAgree(t) && NamesAgree(hash, t)
    requires FreshUuids(hash, t, ops) && NoneClashes(hash, t, ops)
    ensures PathsAgree(After(hash, t, ops)) && NamesAgree(hash, After(hash, t, ops))
    decreases ops
  {
    hide Sound, Apply, PathsAgree, NamesAgree, Clashes;
    if ops != [] {
      ApplyIsSound(hash, t, ops[0]);
      ApplyAgrees(hash, t, ops[0]);
      EveryHistoryAgrees(hash, Apply(hash, t, ops[0]), ops[1..]);
    }
  }
}
