/** The package database: file rows with a path index, package rows with an identity index, and triggers.

    Rows are keyed by package and path hash; the path index leads from a path hash to one owner, the identity index
    from the hash of an identity to a package.  Tables says what the five tables hold and what each operation makes of
    them; MemoryDatabase is the database the pipelines work on.
  */
module Database {
  import opened Basics
  import opened Types
  import opened Codec

  type Uuid = nat

  type Hash = nat

  type RowKey = (Uuid, Hash)

  datatype DatabaseError = FileNotFound | AccessDenied | PackageNotFound

  datatype Result<+T> = Ok(value: T) | Err(error: DatabaseError)

  datatype Tables = Tables(files: map<RowKey, FileEntry>, byPath: map<Hash, Uuid>, packages: map<Uuid, PackageMeta>,
                           byName: map<Hash, Uuid>, triggers: map<Uuid, DeclarativeTrigger>)

  const EMPTY := Tables(map[], map[], map[], map[], map[])

  function IdentityOf(meta: PackageMeta): Bytes {
    IdentityBuffer(meta.name, meta.arch, meta.archSub)
  }

  // ---- What the operations do ------------------------------------------------------------------------

  function Inserted(t: Tables, uuid: Uuid, h: Hash, entry: FileEntry): Tables {
    if (uuid, h) in t.files && t.files[(uuid, h)].isUser then t
    else t.(files := t.files[(uuid, h) := entry], byPath := t.byPath[h := uuid])
  }

  function RowRemoved(t: Tables, uuid: Uuid, h: Hash): Tables {
    t.(files := t.files - {(uuid, h)}, byPath := t.byPath - {h})
  }

  /** Why a row of the wanted kind cannot be removed, if it cannot. */
  function RemovalError(t: Tables, uuid: Uuid, h: Hash, user: bool): Option<DatabaseError> {
    if (uuid, h) !in t.files then Some(FileNotFound)
    else if t.files[(uuid, h)].isUser != user then Some(AccessDenied)
    else None
  }

  function MetaInserted(t: Tables, uuid: Uuid, h: Hash, meta: PackageMeta): Tables {
    t.(packages := t.packages[uuid := meta], byName := t.byName[h := uuid])
  }

  function MetaUpdated(t: Tables, h: Hash, meta: PackageMeta): Tables {
    if h in t.byName then t.(packages := t.packages[t.byName[h] := meta]) else t
  }

  function MetaRemoved(t: Tables, h: Hash): Tables {
    if h in t.byName && t.byName[h] in t.packages then
      t.(packages := t.packages - {t.byName[h]}, byName := t.byName - {h})
    else t
  }

  datatype Event =
    | InsertFile(uuid: Uuid, entry: FileEntry)
    | RemovePackageFile(uuid: Uuid, path: Text)
    | RemoveUserFile(uuid: Uuid, path: Text)
    | InsertMeta(uuid: Uuid, meta: PackageMeta)
    | UpdateMeta(meta: PackageMeta)
    | RemoveMeta(name: Text, arch: Text, archSub: Option<Text>)
    | SetTriggers(uuid: Uuid, trigger: DeclarativeTrigger)
    | RemoveTriggers(uuid: Uuid)

  /** The tables after one operation; one that fails leaves them alone. */
  function Step(hash: Bytes -> Hash, t: Tables, e: Event): Tables {
    match e
    case InsertFile(uuid, entry) => Inserted(t, uuid, hash(entry.path), entry)
    case RemovePackageFile(uuid, path) =>
      if RemovalError(t, uuid, hash(path), false).Some? then t else RowRemoved(t, uuid, hash(path))
    case RemoveUserFile(uuid, path) =>
      if RemovalError(t, uuid, hash(path), true).Some? then t else RowRemoved(t, uuid, hash(path))
    case InsertMeta(uuid, meta) => MetaInserted(t, uuid, hash(IdentityOf(meta)), meta)
    case UpdateMeta(meta) => MetaUpdated(t, hash(IdentityOf(meta)), meta)
    case RemoveMeta(name, arch, archSub) => MetaRemoved(t, hash(IdentityBuffer(name, arch, archSub)))
    case SetTriggers(uuid, trigger) => t.(triggers := t.triggers[uuid := trigger])
    case RemoveTriggers(uuid) => t.(triggers := t.triggers - {uuid})
  }

  function Run(hash: Bytes -> Hash, t: Tables, events: seq<Event>): Tables
    decreases events
  {
    if events == [] then t else Run(hash, Step(hash, t, events[0]), events[1..])
  }

  /** New packages get a new uuid. */
  predicate IsPossible(hash: Bytes -> Hash, t: Tables, events: seq<Event>)
    decreases events
  {
    events != [] ==>
      && (events[0].InsertMeta? ==> events[0].uuid !in t.packages)
      && IsPossible(hash, Step(hash, t, events[0]), events[1..])
  }

  ghost predicate Injective(hash: Bytes -> Hash) {
    forall a, b :: hash(a) == hash(b) ==> a == b
  }

  // ---- Indexes never dangle --------------------------------------------------------------------------

  ghost predicate RowsKeyed(hash: Bytes -> Hash, t: Tables) {
    forall k :: k in t.files ==> hash(t.files[k].path) == k.1
  }

  ghost predicate PathsLead(t: Tables) {
    forall h :: h in t.byPath ==> (t.byPath[h], h) in t.files
  }

  ghost predicate NamesLead(hash: Bytes -> Hash, t: Tables) {
    forall h :: h in t.byName ==> t.byName[h] in t.packages && hash(IdentityOf(t.packages[t.byName[h]])) == h
  }

  ghost predicate Sound(hash: Bytes -> Hash, t: Tables) {
    RowsKeyed(hash, t) && PathsLead(t) && NamesLead(hash, t)
  }

  lemma StepStaysSound(hash: Bytes -> Hash, t: Tables, e: Event)
    requires Sound(hash, t)
    requires e.InsertMeta? ==> e.uuid !in t.packages
    ensures Sound(hash, Step(hash, t, e))
  {
    hide IdentityOf, IdentityBuffer;
  }

  /** In every reachable state each index entry leads to a row, of that path or of that identity. */
  lemma {:induction false} EveryRunIsSound(hash: Bytes -> Hash, t: Tables, events: seq<Event>)
    requires Sound(hash, t) && IsPossible(hash, t, events)
    ensures Sound(hash, Run(hash, t, events))
    decreases events
  {
    hide Sound, Step;
    if events != [] {
      StepStaysSound(hash, t, events[0]);
      EveryRunIsSound(hash, Step(hash, t, events[0]), events[1..]);
    }
  }

  lemma StartsSound(hash: Bytes -> Hash)
    ensures Sound(hash, EMPTY) && PathsAgree(EMPTY) && NamesAgree(hash, EMPTY)
  {
  }

  /** Every reachable state is sound. */
  lemma ReachableIsSound(hash: Bytes -> Hash, events: seq<Event>)
    requires IsPossible(hash, EMPTY, events)
    ensures Sound(hash, Run(hash, EMPTY, events))
  {
    hide Step, Sound;
    StartsSound(hash);
    EveryRunIsSound(hash, EMPTY, events);
  }

  // ---- When rows and indexes agree both ways ---------------------------------------------------------

  /** Every row is the one its path leads to. */
  ghost predicate PathsAgree(t: Tables) {
    forall k :: k in t.files ==> k.1 in t.byPath && t.byPath[k.1] == k.0
  }

  /** Every package is the one its identity leads to. */
  ghost predicate NamesAgree(hash: Bytes -> Hash, t: Tables) {
    forall u :: u in t.packages ==> FindPackage(t, hash(IdentityOf(t.packages[u]))) == Some(u)
  }

  /** The insertion takes a path that leads to another package. */
  predicate TakesPath(hash: Bytes -> Hash, t: Tables, e: Event) {
    e.InsertFile? && hash(e.entry.path) in t.byPath && t.byPath[hash(e.entry.path)] != e.uuid
  }

  /** The insertion takes an identity that is already there. */
  predicate TakesName(hash: Bytes -> Hash, t: Tables, e: Event) {
    e.InsertMeta? && hash(IdentityOf(e.meta)) in t.byName
  }

  /** Agreement of rows and paths is lost exactly by inserting a path another package owns. */
  lemma PathsStayAgreed(hash: Bytes -> Hash, t: Tables, e: Event)
    requires Sound(hash, t) && PathsAgree(t)
    ensures PathsAgree(Step(hash, t, e)) <==> !TakesPath(hash, t, e)
  {
    hide IdentityOf, IdentityBuffer;
    if TakesPath(hash, t, e) {
      var h := hash(e.entry.path);
      assert (t.byPath[h], h) in Step(hash, t, e).files;
    }
  }

  /** Agreement of packages and identities is lost exactly by inserting an identity that is already there. */
  lemma NamesStayAgreed(hash: Bytes -> Hash, t: Tables, e: Event)
    requires Sound(hash, t) && NamesAgree(hash, t)
    requires e.InsertMeta? ==> e.uuid !in t.packages
    ensures NamesAgree(hash, Step(hash, t, e)) <==> !TakesName(hash, t, e)
  {
    hide IdentityOf, IdentityBuffer;
    if TakesName(hash, t, e) {
      var u := t.byName[hash(IdentityOf(e.meta))];
      assert u in Step(hash, t, e).packages;
    }
  }

  predicate NoneTakes(hash: Bytes -> Hash, t: Tables, events: seq<Event>)
    decreases events
  {
    events != [] ==>
      && !TakesPath(hash, t, events[0]) && !TakesName(hash, t, events[0])
      && NoneTakes(hash, Step(hash, t, events[0]), events[1..])
  }

  /** If no insertion in a run takes a path or an identity, the tables agree both ways throughout. */
  lemma {:induction false} EveryRunAgrees(hash: Bytes -> Hash, t: Tables, events: seq<Event>)
    requires Sound(hash, t) && PathsAgree(t) && NamesAgree(hash, t)
    requires IsPossible(hash, t, events) && NoneTakes(hash, t, events)
    ensures PathsAgree(Run(hash, t, events)) && NamesAgree(hash, Run(hash, t, events))
    decreases events
  {
    hide Sound, Step, PathsAgree, NamesAgree, TakesPath, TakesName;
    if events != [] {
      StepStaysSound(hash, t, events[0]);
      PathsStayAgreed(hash, t, events[0]);
      NamesStayAgreed(hash, t, events[0]);
      EveryRunAgrees(hash, Step(hash, t, events[0]), events[1..]);
    }
  }

  /** In every state reachable without such insertions, rows and packages are the ones their indexes lead to. */
  lemma ReachableAgrees(hash: Bytes -> Hash, events: seq<Event>)
    requires IsPossible(hash, EMPTY, events) && NoneTakes(hash, EMPTY, events)
    ensures PathsAgree(Run(hash, EMPTY, events)) && NamesAgree(hash, Run(hash, EMPTY, events))
  {
    hide Step, Sound, PathsAgree, NamesAgree;
    StartsSound(hash);
    EveryRunAgrees(hash, EMPTY, events);
  }

  /** What agreement is for: the owner found for a path is the package that has it. */
  lemma OwnerIsTheOne(hash: Bytes -> Hash, t: Tables, path: Text, uuid: Uuid)
    requires Sound(hash, t) && PathsAgree(t)
    ensures FindOwner(t, hash(path)) == Some(uuid) <==> (uuid, hash(path)) in t.files
  {
  }

  /** The package found for an identity is the one stored under it. */
  lemma PackageIsTheOne(hash: Bytes -> Hash, t: Tables, name: Text, arch: Text, archSub: Option<Text>, uuid: Uuid)
    requires Sound(hash, t) && NamesAgree(hash, t) && Injective(hash)
    requires IsShort(|name|) && IsShort(|arch|) && ShortOption(archSub)
    requires forall u :: u in t.packages ==> IsShortMeta(t.packages[u])
    ensures FindPackage(t, hash(IdentityBuffer(name, arch, archSub))) == Some(uuid)
       <==> uuid in t.packages && t.packages[uuid].name == name && t.packages[uuid].arch == arch
            && t.packages[uuid].archSub == archSub
  {
    hide IdentityBuffer;
    if FindPackage(t, hash(IdentityBuffer(name, arch, archSub))) == Some(uuid) {
      var m := t.packages[uuid];
      assert hash(IdentityOf(m)) == hash(IdentityBuffer(name, arch, archSub));
      IdentityIsInjective(m.name, m.arch, m.archSub, name, arch, archSub);
    }
  }

  /** When two packages have a row for one path, removing either row leaves the other without an owner entry. */
  lemma SharedPathIsForgotten(hash: Bytes -> Hash, t: Tables, path: Text, one: Uuid, other: Uuid)
    requires one != other && (one, hash(path)) in t.files && (other, hash(path)) in t.files
    requires !t.files[(one, hash(path))].isUser
    ensures var t' := Step(hash, t, RemovePackageFile(one, path));
            (other, hash(path)) in t'.files && FindOwner(t', hash(path)) == None
  {
  }

  // ---- User rows -------------------------------------------------------------------------------------

  predicate RemovesUserRow(hash: Bytes -> Hash, e: Event, uuid: Uuid, h: Hash) {
    e.RemoveUserFile? && e.uuid == uuid && hash(e.path) == h
  }

  lemma UserRowSurvivesStep(hash: Bytes -> Hash, t: Tables, e: Event, uuid: Uuid, h: Hash)
    requires (uuid, h) in t.files && t.files[(uuid, h)].isUser
    ensures var t' := Step(hash, t, e);
            if RemovesUserRow(hash, e, uuid, h) then (uuid, h) !in t'.files
            else (uuid, h) in t'.files && t'.files[(uuid, h)] == t.files[(uuid, h)]
  {
    hide IdentityOf, IdentityBuffer;
  }

  /** Over any run a user's row stays as it is unless the run removes it as a user row. */
  lemma {:induction false} UserRowSurvives(hash: Bytes -> Hash, t: Tables, events: seq<Event>, uuid: Uuid, h: Hash)
    requires (uuid, h) in t.files && t.files[(uuid, h)].isUser
    requires forall i :: 0 <= i < |events| ==> !RemovesUserRow(hash, events[i], uuid, h)
    ensures var t' := Run(hash, t, events);
            (uuid, h) in t'.files && t'.files[(uuid, h)] == t.files[(uuid, h)]
    decreases events
  {
    hide Step, RemovesUserRow;
    if events != [] {
      UserRowSurvivesStep(hash, t, events[0], uuid, h);
      UserRowSurvives(hash, Step(hash, t, events[0]), events[1..], uuid, h);
    }
  }

  // ---- Looking things up -----------------------------------------------------------------------------

  function FindOwner(t: Tables, h: Hash): Option<Uuid> {
    if h in t.byPath then Some(t.byPath[h]) else None
  }

  function FindPackage(t: Tables, h: Hash): Option<Uuid> {
    if h in t.byName then Some(t.byName[h]) else None
  }

  datatype FileAttribution = FileAttribution(packageMeta: PackageMeta, fileEntry: FileEntry)

  /** The package and row a path belongs to. */
  function Attribution(t: Tables, h: Hash): Option<FileAttribution>
    requires PathsLead(t)
  {
    if h in t.byPath && t.byPath[h] in t.packages then
      Some(FileAttribution(t.packages[t.byPath[h]], t.files[(t.byPath[h], h)]))
    else None
  }

  /** A file is attributed to the installed package that has it. */
  lemma AttributionIsTheOne(hash: Bytes -> Hash, t: Tables, path: Text, a: FileAttribution)
    requires Sound(hash, t) && PathsAgree(t) && Injective(hash)
    ensures Attribution(t, hash(path)) == Some(a)
       <==> exists u :: u in t.packages && t.packages[u] == a.packageMeta
                        && (u, hash(path)) in t.files && t.files[(u, hash(path))] == a.fileEntry
    ensures Attribution(t, hash(path)) == Some(a) ==> a.fileEntry.path == path
  {
  }

  predicate Before(a: RowKey, b: RowKey) {
    a.0 < b.0 || (a.0 == b.0 && a.1 < b.1)
  }

  predicate Ascending(keys: seq<RowKey>) {
    forall i, j :: 0 <= i < j < |keys| ==> Before(keys[i], keys[j])
  }

  lemma LeastKey(keys: set<RowKey>) returns (least: RowKey)
    requires keys != {}
    ensures least in keys && forall k :: k in keys ==> k == least || Before(least, k)
  {
    var any :| any in keys;
    var others := keys - {any};
    assert keys == others + {any};
    if others == {} {
      least := any;
    } else {
      var rest := LeastKey(others);
      least := if Before(any, rest) then any else rest;
    }
  }

  /** The hashes of a package's rows, in order. */
  ghost predicate IsListing(t: Tables, uuid: Uuid, hashes: seq<Hash>) {
    && (forall i, j :: 0 <= i < j < |hashes| ==> hashes[i] < hashes[j])
    && (forall h :: h in hashes <==> (uuid, h) in t.files)
  }

  function RowsAt(t: Tables, uuid: Uuid, hashes: seq<Hash>): (rows: seq<FileEntry>)
    requires forall i :: 0 <= i < |hashes| ==> (uuid, hashes[i]) in t.files
    ensures |rows| == |hashes|
    ensures forall i :: 0 <= i < |hashes| ==> rows[i] == t.files[(uuid, hashes[i])]
  {
    seq(|hashes|, i requires 0 <= i < |hashes| => t.files[(uuid, hashes[i])])
  }

  // ---- The database ----------------------------------------------------------------------------------

  class MemoryDatabase {
    const hash: Bytes -> Hash
    var files: map<RowKey, FileEntry>
    var byPath: map<Hash, Uuid>
    var packages: map<Uuid, PackageMeta>
    var byName: map<Hash, Uuid>
    var triggers: map<Uuid, DeclarativeTrigger>

    function Value(): Tables
      reads this
    {
      Tables(files, byPath, packages, byName, triggers)
    }

    constructor NewInMemory(hash: Bytes -> Hash)
      ensures this.hash == hash && Value() == EMPTY
    {
      this.hash := hash;
      files, byPath, packages, byName, triggers := map[], map[], map[], map[], map[];
    }

    method FindFileOwner(path: Text) returns (owner: Option<Uuid>)
      ensures owner == FindOwner(Value(), hash(path))
    {
      var h := hash(path);
      owner := if h in byPath then Some(byPath[h]) else None;
    }

    /** The keys from a package's first possible row on, in key order. */
    method RowsFrom(uuid: Uuid) returns (keys: seq<RowKey>)
      ensures Ascending(keys)
      ensures forall k: RowKey :: k in keys <==> k in files && k.0 >= uuid
    {
      var left := set k | k in files && k.0 >= uuid;
      keys := [];
      while left != {}
        invariant Ascending(keys)
        invariant forall k: RowKey :: k in left || k in keys <==> k in files && k.0 >= uuid
        invariant forall i, k: RowKey :: 0 <= i < |keys| && k in left ==> Before(keys[i], k)
        decreases |left|
      {
        ghost var witness_ := LeastKey(left);
        var least :| least in left && forall k :: k in left ==> k == least || Before(least, k);
        keys := keys + [least];
        left := left - {least};
      }
    }

    /** Scans from the package's first possible row and stops at the first row of another package. */
    method ListPackageFiles(uuid: Uuid) returns (rows: seq<FileEntry>, ghost hashes: seq<Hash>)
      ensures IsListing(Value(), uuid, hashes)
      ensures rows == RowsAt(Value(), uuid, hashes)
    {
      var keys := RowsFrom(uuid);
      rows, hashes := [], [];
      var i := 0;
      while i < |keys|
        invariant i <= |keys| && |rows| == |hashes| == i
        invariant forall j :: 0 <= j < i ==> keys[j] == (uuid, hashes[j]) && rows[j] == files[keys[j]]
      {
        if keys[i].0 != uuid {
          break;
        }
        rows, hashes := rows + [files[keys[i]]], hashes + [keys[i].1];
        i := i + 1;
      }
      ListingOfPrefix(Value(), uuid, keys, hashes);
    }

    method InsertPackageFile(uuid: Uuid, entry: FileEntry)
      modifies this`files, this`byPath
      ensures var kept := (uuid, hash(entry.path)) in old(files) && old(files)[(uuid, hash(entry.path))].isUser;
              && files == (if kept then old(files) else old(files)[(uuid, hash(entry.path)) := entry])
              && byPath == if kept then old(byPath) else old(byPath)[hash(entry.path) := uuid]
      ensures Value() == Inserted(old(Value()), uuid, hash(entry.path), entry)
    {
      var h := hash(entry.path);
      var alreadyUserOwned := (uuid, h) in files && files[(uuid, h)].isUser;
      if alreadyUserOwned {
        return;
      }
      files := files[(uuid, h) := entry];
      byPath := byPath[h := uuid];
    }

    method RemovePackageFile(uuid: Uuid, path: Text) returns (r: Result<FileEntry>)
      modifies this`files, this`byPath
      ensures r == Err(FileNotFound) <==> (uuid, hash(path)) !in old(files)
      ensures r == Err(AccessDenied) <==> (uuid, hash(path)) in old(files) && old(files)[(uuid, hash(path))].isUser
      ensures r.Err? ==> files == old(files) && byPath == old(byPath)
      ensures r.Ok? ==> r == Ok(old(files)[(uuid, hash(path))])
                        && files == old(files) - {(uuid, hash(path))} && byPath == old(byPath) - {hash(path)}
      ensures var error := RemovalError(old(Value()), uuid, hash(path), false);
              if error.Some? then r == Err(error.value) && Value() == old(Value())
              else r == Ok(old(files)[(uuid, hash(path))]) && Value() == RowRemoved(old(Value()), uuid, hash(path))
    {
      r := RemoveRow(uuid, path, false);
    }

    method RemoveUserFile(uuid: Uuid, path: Text) returns (r: Result<FileEntry>)
      modifies this`files, this`byPath
      ensures r == Err(FileNotFound) <==> (uuid, hash(path)) !in old(files)
      ensures r == Err(AccessDenied) <==> (uuid, hash(path)) in old(files) && !old(files)[(uuid, hash(path))].isUser
      ensures r.Err? ==> files == old(files) && byPath == old(byPath)
      ensures r.Ok? ==> r == Ok(old(files)[(uuid, hash(path))])
                        && files == old(files) - {(uuid, hash(path))} && byPath == old(byPath) - {hash(path)}
      ensures var error := RemovalError(old(Value()), uuid, hash(path), true);
              if error.Some? then r == Err(error.value) && Value() == old(Value())
              else r == Ok(old(files)[(uuid, hash(path))]) && Value() == RowRemoved(old(Value()), uuid, hash(path))
    {
      r := RemoveRow(uuid, path, true);
    }

    method RemoveRow(uuid: Uuid, path: Text, user: bool) returns (r: Result<FileEntry>)
      modifies this`files, this`byPath
      ensures var error := RemovalError(old(Value()), uuid, hash(path), user);
              if error.Some? then r == Err(error.value) && Value() == old(Value())
              else r == Ok(old(files)[(uuid, hash(path))]) && Value() == RowRemoved(old(Value()), uuid, hash(path))
    {
      var h := hash(path);
      if (uuid, h) !in files {
        return Err(FileNotFound);
      }
      var entry := files[(uuid, h)];
      if entry.isUser != user {
        return Err(AccessDenied);
      }
      files := files - {(uuid, h)};
      byPath := byPath - {h};
      r := Ok(entry);
    }

    method FindPackageUuid(name: Text, arch: Text, archSub: Option<Text>) returns (uuid: Option<Uuid>)
      ensures uuid == FindPackage(Value(), hash(IdentityBuffer(name, arch, archSub)))
    {
      var h := hash(IdentityBuffer(name, arch, archSub));
      uuid := if h in byName then Some(byName[h]) else None;
    }

    method GetPackageMeta(uuid: Uuid) returns (meta: Option<PackageMeta>)
      ensures meta == if uuid in packages then Some(packages[uuid]) else None
    {
      meta := if uuid in packages then Some(packages[uuid]) else None;
    }

    method InsertPackageMeta(uuid: Uuid, meta: PackageMeta)
      modifies this`packages, this`byName
      ensures packages == old(packages)[uuid := meta] && byName == old(byName)[hash(IdentityOf(meta)) := uuid]
      ensures Value() == MetaInserted(old(Value()), uuid, hash(IdentityOf(meta)), meta)
    {
      packages := packages[uuid := meta];
      byName := byName[hash(IdentityOf(meta)) := uuid];
    }

    method UpdatePackageMeta(meta: PackageMeta) returns (r: Result<()>)
      modifies this`packages
      ensures r == if hash(IdentityOf(meta)) in old(byName) then Ok(()) else Err(PackageNotFound)
      ensures packages == if r.Ok? then old(packages)[old(byName)[hash(IdentityOf(meta))] := meta] else old(packages)
      ensures Value() == MetaUpdated(old(Value()), hash(IdentityOf(meta)), meta)
    {
      var uuid := FindPackageUuid(meta.name, meta.arch, meta.archSub);
      if uuid.None? {
        return Err(PackageNotFound);
      }
      packages := packages[uuid.value := meta];
      r := Ok(());
    }

    method RemovePackageMeta(name: Text, arch: Text, archSub: Option<Text>) returns (r: Result<PackageMeta>)
      modifies this`packages, this`byName
      ensures var h := hash(IdentityBuffer(name, arch, archSub));
              && r == (if h in old(byName) && old(byName)[h] in old(packages) then Ok(old(packages)[old(byName)[h]])
                       else Err(PackageNotFound))
              && packages == (if r.Ok? then old(packages) - {old(byName)[h]} else old(packages))
              && byName == (if r.Ok? then old(byName) - {h} else old(byName))
              && Value() == MetaRemoved(old(Value()), h)
    {
      var uuid := FindPackageUuid(name, arch, archSub);
      if uuid.None? {
        return Err(PackageNotFound);
      }
      var left := byName - {hash(IdentityBuffer(name, arch, archSub))};
      if uuid.value !in packages {
        return Err(PackageNotFound);
      }
      r := Ok(packages[uuid.value]);
      packages, byName := packages - {uuid.value}, left;
    }

    method SetDeclarativeTriggers(uuid: Uuid, trigger: DeclarativeTrigger)
      modifies this`triggers
      ensures triggers == old(triggers)[uuid := trigger]
    {
      triggers := triggers[uuid := trigger];
    }

    method RemoveDeclarativeTriggers(uuid: Uuid)
      modifies this`triggers
      ensures triggers == old(triggers) - {uuid}
    {
      triggers := triggers - {uuid};
    }

    /** Finds the owner, its package, and then the row by looking through the package's files. */
    method AttributeFile(path: Text) returns (r: Option<FileAttribution>)
      requires Sound(hash, Value()) && Injective(hash)
      ensures r == Attribution(Value(), hash(path))
    {
      var owner := FindFileOwner(path);
      if owner.None? {
        return None;
      }
      var meta := GetPackageMeta(owner.value);
      if meta.None? {
        return None;
      }
      var rows, hashes := ListPackageFiles(owner.value);
      ghost var k := PositionInListing(hash, Value(), owner.value, hashes, path);
      for i := 0 to |rows|
        invariant forall j :: 0 <= j < i ==> rows[j].path != path
      {
        if rows[i].path == path {
          return Some(FileAttribution(meta.value, rows[i]));
        }
      }
    }
  }

  /** The rows of one package before the first row of another, in an ascending scan from its first, are all its rows. */
  lemma ListingOfPrefix(t: Tables, uuid: Uuid, keys: seq<RowKey>, hashes: seq<Hash>)
    requires Ascending(keys) && forall k: RowKey :: k in keys <==> k in t.files && k.0 >= uuid
    requires |hashes| <= |keys| && forall j :: 0 <= j < |hashes| ==> keys[j] == (uuid, hashes[j])
    requires |hashes| < |keys| ==> keys[|hashes|].0 != uuid
    ensures IsListing(t, uuid, hashes)
  {
    forall j | |hashes| <= j < |keys| ensures keys[j].0 > uuid {
      assert keys[j] in keys && keys[|hashes|] in keys;
      assert j == |hashes| || Before(keys[|hashes|], keys[j]);
    }
    forall h ensures h in hashes <==> (uuid, h) in t.files {
      if h in hashes {
        var j :| 0 <= j < |hashes| && hashes[j] == h;
        assert keys[j] in keys;
      }
      if (uuid, h) in t.files {
        assert (uuid, h) in keys;
        var j :| 0 <= j < |keys| && keys[j] == (uuid, h);
        assert hashes[j] == h;
      }
    }
    forall i, j | 0 <= i < j < |hashes| ensures hashes[i] < hashes[j] {
      assert Before(keys[i], keys[j]);
    }
  }

  /** Where a path's row stands in the listing of its package; no other row there has the path. */
  lemma PositionInListing(hash: Bytes -> Hash, t: Tables, uuid: Uuid, hashes: seq<Hash>, path: Text) returns (k: nat)
    requires RowsKeyed(hash, t) && Injective(hash) && (uuid, hash(path)) in t.files && IsListing(t, uuid, hashes)
    ensures k < |hashes| && hashes[k] == hash(path)
    ensures forall j :: 0 <= j < |hashes| ==> (t.files[(uuid, hashes[j])].path == path <==> j == k)
  {
    assert hash(path) in hashes;
    k :| 0 <= k < |hashes| && hashes[k] == hash(path);
    forall j | 0 <= j < |hashes| ensures t.files[(uuid, hashes[j])].path == path <==> j == k {
      assert hashes[j] in hashes;
      assert hash(t.files[(uuid, hashes[j])].path) == hashes[j];
    }
  }
}
