/** The binary encoding of database values.

    A codec is what one implementation of the encoding trait says: how a value is appended to a buffer, and how it is
    read back from the bytes at an offset.  Reading out of bounds panics.  Lengths are written as 32 bits, so a codec
    also says which values are short enough; a codec is lawful when exactly those come back.
  */
module Codec {
  import opened Basics
  import opened Types

  /** What reading gives: a value and the bytes after it, or a panic. */
  datatype Decoded<+T> = Done(value: T, rest: Bytes) | Panic

  datatype Codec<!T> = Codec(fits: T -> bool, encode: T -> Bytes, decode: Bytes -> Decoded<T>)

  // ---- What is asked of a codec ----------------------------------------------------------------------

  predicate IsSuffix(rest: Bytes, data: Bytes) {
    |rest| <= |data| && data[|data| - |rest|..] == rest
  }

  /** The value comes back, and nothing beyond its own bytes is consumed. */
  ghost predicate ComesBack<T>(c: Codec<T>, value: T, after: Bytes) {
    c.decode(c.encode(value) + after) == Done(value, after)
  }

  ghost predicate IsLost<T>(c: Codec<T>, value: T, after: Bytes) {
    var r := c.decode(c.encode(value) + after);
    r.Panic? || r.value != value
  }

  ghost predicate Consumes<T>(c: Codec<T>, data: Bytes) {
    c.decode(data).Done? ==> IsSuffix(c.decode(data).rest, data)
  }

  ghost predicate Lawful<T(!new)>(c: Codec<T>) {
    && (forall data :: Consumes(c, data))
    && (forall value, after :: c.fits(value) ==> ComesBack(c, value, after))
    && (forall value, after :: !c.fits(value) ==> IsLost(c, value, after))
  }

  lemma Regrouped(a: Bytes, b: Bytes, c: Bytes)
    ensures (a + b) + c == a + (b + c)
  {
  }

  // ---- Numbers ---------------------------------------------------------------------------------------

  function Power256(width: nat): nat {
    if width == 0 then 1 else 0x100 * Power256(width - 1)
  }

  function LittleEndian(value: nat, width: nat): (bytes: Bytes)
    ensures |bytes| == width
  {
    if width == 0 then [] else [value % 0x100] + LittleEndian(value / 0x100, width - 1)
  }

  function FromLittleEndian(bytes: Bytes): nat {
    if bytes == [] then 0 else bytes[0] + 0x100 * FromLittleEndian(bytes[1..])
  }

  lemma {:induction false} NumberComesBack(value: nat, width: nat)
    requires value < Power256(width)
    ensures FromLittleEndian(LittleEndian(value, width)) == value
  {
    if width > 0 {
      NumberComesBack(value / 0x100, width - 1);
    }
  }

  lemma {:induction false} NumberIsBounded(bytes: Bytes)
    ensures FromLittleEndian(bytes) < Power256(|bytes|)
  {
    if bytes != [] {
      NumberIsBounded(bytes[1..]);
    }
  }

  lemma WidthsOfNumbers()
    ensures Power256(4) == 0x1_0000_0000 && Power256(8) == 0x1_0000_0000_0000_0000
  {
    assert Power256(2) == 0x1_0000;
    assert Power256(4) == 0x1_0000_0000;
    assert Power256(6) == 0x1_0000_0000_0000;
  }

  function DecodeU32(data: Bytes): Decoded<U32> {
    if |data| < 4 then Panic
    else
      WidthsOfNumbers();
      NumberIsBounded(data[..4]);
      Done(FromLittleEndian(data[..4]), data[4..])
  }

  function DecodeU64(data: Bytes): Decoded<U64> {
    if |data| < 8 then Panic
    else
      WidthsOfNumbers();
      NumberIsBounded(data[..8]);
      Done(FromLittleEndian(data[..8]), data[8..])
  }

  function U32Codec(): Codec<U32> {
    Codec(_ => true, value => LittleEndian(value, 4), DecodeU32)
  }

  function U64Codec(): Codec<U64> {
    Codec(_ => true, value => LittleEndian(value, 8), DecodeU64)
  }

  lemma U32ComesBack(value: U32, after: Bytes)
    ensures DecodeU32(LittleEndian(value, 4) + after) == Done(value, after)
  {
    var data := LittleEndian(value, 4) + after;
    assert data[..4] == LittleEndian(value, 4) && data[4..] == after;
    WidthsOfNumbers();
    NumberComesBack(value, 4);
  }

  lemma U32IsLawful()
    ensures Lawful(U32Codec())
  {
    forall value, after ensures ComesBack(U32Codec(), value, after) {
      U32ComesBack(value, after);
    }
  }

  lemma U64IsLawful()
    ensures Lawful(U64Codec())
  {
    forall value: U64, after: Bytes ensures ComesBack(U64Codec(), value, after) {
      var data := LittleEndian(value, 8) + after;
      assert data[..8] == LittleEndian(value, 8) && data[8..] == after;
      WidthsOfNumbers();
      NumberComesBack(value, 8);
    }
  }

  // ---- Flags, texts, scopes, digests -----------------------------------------------------------------

  function DecodeBool(data: Bytes): Decoded<bool> {
    if data == [] then Panic else Done(data[0] != 0, data[1..])
  }

  function BoolCodec(): Codec<bool> {
    Codec(_ => true, value => if value then [1] else [0], DecodeBool)
  }

  function DecodeScope(data: Bytes): Decoded<FileEntryScope> {
    if data == [] then Panic else Done(if data[0] == 1 then Config else Prefix, data[1..])
  }

  function ScopeCodec(): Codec<FileEntryScope> {
    Codec(_ => true, (scope: FileEntryScope) => if scope.Prefix? then [0] else [1], DecodeScope)
  }

  /** A length keeps its low 32 bits. */
  function WrittenLength(length: nat): U32 {
    length % 0x1_0000_0000
  }

  predicate IsShort(length: nat) {
    length < 0x1_0000_0000
  }

  function LenPrefixed(bytes: Bytes): Bytes {
    LittleEndian(WrittenLength(|bytes|), 4) + bytes
  }

  function DecodeText(data: Bytes): Decoded<Text> {
    var length := DecodeU32(data);
    if length.Panic? || |length.rest| < length.value then Panic
    else Done(length.rest[..length.value], length.rest[length.value..])
  }

  function TextCodec(): Codec<Text> {
    Codec((text: Text) => IsShort(|text|), LenPrefixed, DecodeText)
  }

  function DecodeSha256(data: Bytes): Decoded<Sha256> {
    if |data| < 32 then Panic else Done(data[..32], data[32..])
  }

  function Sha256Codec(): Codec<Sha256> {
    Codec<Sha256>.Codec((_: Sha256) => true, (digest: Sha256) => digest, DecodeSha256)
  }

  lemma FlagsAreLawful()
    ensures Lawful(BoolCodec()) && Lawful(ScopeCodec())
  {
  }

  lemma TextReads(text: Text, after: Bytes)
    ensures DecodeText(LenPrefixed(text) + after)
         == var n := WrittenLength(|text|); Done(text[..n], text[n..] + after)
  {
    hide DecodeU32, LittleEndian;
    var n := WrittenLength(|text|);
    Regrouped(LittleEndian(n, 4), text, after);
    U32ComesBack(n, text + after);
    assert (text + after)[..n] == text[..n] && (text + after)[n..] == text[n..] + after;
  }

  lemma TextIsLawful()
    ensures Lawful(TextCodec())
  {
    forall text: Text, after: Bytes
      ensures if IsShort(|text|) then ComesBack(TextCodec(), text, after) else IsLost(TextCodec(), text, after)
    {
      TextReads(text, after);
      if IsShort(|text|) {
        assert text[..|text|] == text && text[|text|..] + after == after;
      } else {
        assert |text[..WrittenLength(|text|)]| != |text|;
      }
    }
  }

  lemma Sha256IsLawful()
    ensures Lawful(Sha256Codec())
  {
    forall digest, after ensures ComesBack(Sha256Codec(), digest, after) {
      assert (digest + after)[..32] == digest && (digest + after)[32..] == after;
    }
  }

  // ---- Options, lists, structs -----------------------------------------------------------------------

  function OptionCodec<T>(c: Codec<T>): Codec<Option<T>> {
    Codec(
      (o: Option<T>) => o.Some? ==> c.fits(o.value),
      (o: Option<T>) => if o.Some? then [1] + c.encode(o.value) else [0],
      data => DecodeOption(c, data))
  }

  function DecodeOption<T>(c: Codec<T>, data: Bytes): Decoded<Option<T>> {
    if data == [] then Panic
    else if data[0] == 1 then
      match c.decode(data[1..])
      case Done(value, rest) => Done(Some(value), rest)
      case Panic => Panic
    else Done(None, data[1..])
  }

  function EncodeAll<T>(c: Codec<T>, values: seq<T>): Bytes {
    if values == [] then [] else c.encode(values[0]) + EncodeAll(c, values[1..])
  }

  function DecodeMany<T>(c: Codec<T>, count: nat, data: Bytes): Decoded<seq<T>> {
    if count == 0 then Done([], data)
    else
      match c.decode(data)
      case Panic => Panic
      case Done(first, rest) =>
        match DecodeMany(c, count - 1, rest)
        case Panic => Panic
        case Done(others, left) => Done([first] + others, left)
  }

  function DecodeVec<T>(c: Codec<T>, data: Bytes): Decoded<seq<T>> {
    match DecodeU32(data)
    case Panic => Panic
    case Done(count, rest) => DecodeMany(c, count, rest)
  }

  predicate AllFit<T>(c: Codec<T>, values: seq<T>) {
    forall i :: 0 <= i < |values| ==> c.fits(values[i])
  }

  function VecCodec<T>(c: Codec<T>): Codec<seq<T>> {
    Codec(
      (values: seq<T>) => IsShort(|values|) && AllFit(c, values),
      (values: seq<T>) => LittleEndian(WrittenLength(|values|), 4) + EncodeAll(c, values),
      data => DecodeVec(c, data))
  }

  /** Two fields, one after the other. */
  function Both<A, B>(c: Codec<A>, d: Codec<B>): Codec<(A, B)> {
    Codec(
      (pair: (A, B)) => c.fits(pair.0) && d.fits(pair.1),
      (pair: (A, B)) => c.encode(pair.0) + d.encode(pair.1),
      data => DecodeBoth(c, d, data))
  }

  function DecodeBoth<A, B>(c: Codec<A>, d: Codec<B>, data: Bytes): Decoded<(A, B)> {
    match c.decode(data)
    case Panic => Panic
    case Done(first, rest) =>
      match d.decode(rest)
      case Panic => Panic
      case Done(second, left) => Done((first, second), left)
  }

  /** A struct is read and written as the tuple of its fields. */
  function Via<A, B>(c: Codec<A>, fields: B -> A, make: A -> B): Codec<B> {
    Codec(
      (b: B) => c.fits(fields(b)),
      (b: B) => c.encode(fields(b)),
      data => match c.decode(data)
              case Panic => Panic
              case Done(value, rest) => Done(make(value), rest))
  }

  lemma SuffixOfSuffix(a: Bytes, b: Bytes, c: Bytes)
    requires IsSuffix(a, b) && IsSuffix(b, c)
    ensures IsSuffix(a, c)
  {
    assert c[|c| - |a|..] == c[|c| - |b|..][|b| - |a|..];
  }

  lemma OptionIsLawful<T(!new)>(c: Codec<T>)
    requires Lawful(c)
    ensures Lawful(OptionCodec(c))
  {
    var o := OptionCodec(c);
    forall data ensures Consumes(o, data) {
      if data != [] && data[0] == 1 && c.decode(data[1..]).Done? {
        assert Consumes(c, data[1..]);
        SuffixOfSuffix(c.decode(data[1..]).rest, data[1..], data);
      }
    }
    forall value, after ensures if o.fits(value) then ComesBack(o, value, after) else IsLost(o, value, after) {
      var data := o.encode(value) + after;
      assert data[1..] == (if value.Some? then c.encode(value.value) else []) + after;
      if value.Some? {
        assert c.fits(value.value) ==> ComesBack(c, value.value, after);
        assert !c.fits(value.value) ==> IsLost(c, value.value, after);
      }
    }
  }

  lemma BothIsLawful<A(!new), B(!new)>(c: Codec<A>, d: Codec<B>)
    requires Lawful(c) && Lawful(d)
    ensures Lawful(Both(c, d))
  {
    var both := Both(c, d);
    forall data ensures Consumes(both, data) {
      if both.decode(data).Done? {
        var rest := c.decode(data).rest;
        assert Consumes(c, data) && Consumes(d, rest);
        SuffixOfSuffix(d.decode(rest).rest, rest, data);
      }
    }
    forall pair, after ensures if both.fits(pair) then ComesBack(both, pair, after) else IsLost(both, pair, after) {
      var later := d.encode(pair.1) + after;
      assert both.encode(pair) + after == c.encode(pair.0) + later;
      assert if c.fits(pair.0) then ComesBack(c, pair.0, later) else IsLost(c, pair.0, later);
      assert if d.fits(pair.1) then ComesBack(d, pair.1, after) else IsLost(d, pair.1, after);
    }
  }

  ghost predicate Inverse<A(!new), B(!new)>(fields: B -> A, make: A -> B) {
    && (forall b :: make(fields(b)) == b)
    && (forall a :: fields(make(a)) == a)
  }

  lemma ViaIsLawful<A(!new), B(!new)>(c: Codec<A>, fields: B -> A, make: A -> B)
    requires Lawful(c) && Inverse(fields, make)
    ensures Lawful(Via(c, fields, make))
  {
    var via := Via(c, fields, make);
    forall data ensures Consumes(via, data) {
      assert Consumes(c, data);
    }
    forall b, after ensures if via.fits(b) then ComesBack(via, b, after) else IsLost(via, b, after) {
      assert make(fields(b)) == b;
      var r := c.decode(c.encode(fields(b)) + after);
      assert r.Done? ==> fields(make(r.value)) == r.value;
      assert if c.fits(fields(b)) then ComesBack(c, fields(b), after) else IsLost(c, fields(b), after);
    }
  }

  lemma {:induction false} ManyConsume<T(!new)>(c: Codec<T>, count: nat, data: Bytes)
    requires Lawful(c)
    ensures DecodeMany(c, count, data).Done? ==> IsSuffix(DecodeMany(c, count, data).rest, data)
    ensures DecodeMany(c, count, data).Done? ==> |DecodeMany(c, count, data).value| == count
  {
    if count > 0 && c.decode(data).Done? {
      var rest := c.decode(data).rest;
      assert Consumes(c, data);
      ManyConsume(c, count - 1, rest);
      if DecodeMany(c, count - 1, rest).Done? {
        SuffixOfSuffix(DecodeMany(c, count - 1, rest).rest, rest, data);
      }
    }
  }

  /** Reading back as many values as were written: all of them, or not the ones written. */
  lemma {:induction false} ManyComeBack<T(!new)>(c: Codec<T>, values: seq<T>, after: Bytes)
    requires Lawful(c)
    ensures var r := DecodeMany(c, |values|, EncodeAll(c, values) + after);
            if AllFit(c, values) then r == Done(values, after) else r.Panic? || r.value != values
  {
    if values != [] {
      var first, others := values[0], values[1..];
      var later := EncodeAll(c, others) + after;
      assert EncodeAll(c, values) + after == c.encode(first) + later;
      assert if c.fits(first) then ComesBack(c, first, later) else IsLost(c, first, later);
      ManyComeBack(c, others, after);
      assert AllFit(c, values) <==> c.fits(first) && AllFit(c, others) by {
        assert forall i :: 0 <= i < |others| ==> others[i] == values[i + 1];
      }
      assert values == [first] + others;
    }
  }

  lemma VecConsumes<T(!new)>(c: Codec<T>, data: Bytes)
    requires Lawful(c)
    ensures Consumes(VecCodec(c), data)
  {
    hide Lawful, DecodeMany;
    var count := DecodeU32(data);
    if count.Done? {
      ManyConsume(c, count.value, count.rest);
      if DecodeMany(c, count.value, count.rest).Done? {
        SuffixOfSuffix(DecodeMany(c, count.value, count.rest).rest, count.rest, data);
      }
    }
  }

  lemma VecComesBack<T(!new)>(c: Codec<T>, values: seq<T>, after: Bytes)
    requires Lawful(c)
    ensures if VecCodec(c).fits(values) then ComesBack(VecCodec(c), values, after)
            else IsLost(VecCodec(c), values, after)
  {
    hide Lawful, DecodeMany, DecodeU32, LittleEndian, EncodeAll;
    var length := WrittenLength(|values|);
    var later := EncodeAll(c, values) + after;
    Regrouped(LittleEndian(length, 4), EncodeAll(c, values), after);
    U32ComesBack(length, later);
    ManyConsume(c, length, later);
    if IsShort(|values|) {
      ManyComeBack(c, values, after);
    }
  }

  lemma VecIsLawful<T(!new)>(c: Codec<T>)
    requires Lawful(c)
    ensures Lawful(VecCodec(c))
  {
    hide VecCodec, Consumes, ComesBack, IsLost;
    forall data ensures Consumes(VecCodec(c), data) {
      VecConsumes(c, data);
    }
    forall values, after
      ensures if VecCodec(c).fits(values) then ComesBack(VecCodec(c), values, after)
            else IsLost(VecCodec(c), values, after)
    {
      VecComesBack(c, values, after);
    }
  }

  // ---- The stored types ------------------------------------------------------------------------------

  function VersionFields(v: Version): (U32, Text) {
    (v.epoch, v.raw)
  }

  function VersionOf(f: (U32, Text)): Version {
    Version(f.0, f.1)
  }

  function VersionCodec(): Codec<Version> {
    Via(Both(U32Codec(), TextCodec()), VersionFields, VersionOf)
  }

  type EntryFields = (Text, (bool, FileEntryScope))

  function FieldsOfEntry(e: FileEntry): EntryFields {
    (e.path, (e.isUser, e.scope))
  }

  function EntryOf(f: EntryFields): FileEntry {
    FileEntry(f.0, f.1.0, f.1.1)
  }

  function FileEntryCodec(): Codec<FileEntry> {
    Via(Both(TextCodec(), Both(BoolCodec(), ScopeCodec())), FieldsOfEntry, EntryOf)
  }

  function TriggerFields(t: DeclarativeTrigger): (Text, seq<Text>) {
    (t.format, t.triggers)
  }

  function TriggerOf(f: (Text, seq<Text>)): DeclarativeTrigger {
    DeclarativeTrigger(f.0, f.1)
  }

  function TriggerCodec(): Codec<DeclarativeTrigger> {
    Via(Both(TextCodec(), VecCodec(TextCodec())), TriggerFields, TriggerOf)
  }

  type FrontFields = ((Text, Version), (Text, Option<Text>))

  type BackFields = ((Text, Text), ((Option<Text>, Option<Text>), (Sha256, U64)))

  function FieldsOfMeta(m: PackageMeta): (FrontFields, BackFields) {
    (((m.name, m.version), (m.arch, m.archSub)),
     ((m.maintainer, m.description), ((m.license, m.url), (m.sha256, m.installedSize))))
  }

  function MetaOf(f: (FrontFields, BackFields)): PackageMeta {
    var ((name, version), (arch, archSub)) := f.0;
    var ((maintainer, description), ((license, url), (sha256, installedSize))) := f.1;
    PackageMeta(name, version, arch, archSub, maintainer, description, license, url, sha256, installedSize)
  }

  function FrontCodec(): Codec<FrontFields> {
    Both(Both(TextCodec(), VersionCodec()), Both(TextCodec(), OptionCodec(TextCodec())))
  }

  function BackCodec(): Codec<BackFields> {
    Both(Both(TextCodec(), TextCodec()),
         Both(Both(OptionCodec(TextCodec()), OptionCodec(TextCodec())), Both(Sha256Codec(), U64Codec())))
  }

  function MetaCodec(): Codec<PackageMeta> {
    Via(Both(FrontCodec(), BackCodec()), FieldsOfMeta, MetaOf)
  }

  lemma VersionIsLawful()
    ensures Lawful(VersionCodec())
    ensures forall v :: VersionCodec().fits(v) <==> IsShort(|v.raw|)
  {
    hide Lawful, LenPrefixed, DecodeText, DecodeU32, DecodeBoth, LittleEndian;
    U32IsLawful();
    TextIsLawful();
    BothIsLawful(U32Codec(), TextCodec());
    ViaIsLawful(Both(U32Codec(), TextCodec()), VersionFields, VersionOf);
  }

  lemma FileEntryIsLawful()
    ensures Lawful(FileEntryCodec())
    ensures forall e :: FileEntryCodec().fits(e) <==> IsShort(|e.path|)
  {
    TextIsLawful();
    FlagsAreLawful();
    BothIsLawful(BoolCodec(), ScopeCodec());
    BothIsLawful(TextCodec(), Both(BoolCodec(), ScopeCodec()));
    ViaIsLawful(Both(TextCodec(), Both(BoolCodec(), ScopeCodec())), FieldsOfEntry, EntryOf);
  }

  predicate AllShort(texts: seq<Text>) {
    forall i :: 0 <= i < |texts| ==> IsShort(|texts[i]|)
  }

  lemma TriggerIsLawful()
    ensures Lawful(TriggerCodec())
    ensures forall t :: TriggerCodec().fits(t) <==> IsShort(|t.format|) && IsShort(|t.triggers|) && AllShort(t.triggers)
  {
    TextIsLawful();
    VecIsLawful(TextCodec());
    BothIsLawful(TextCodec(), VecCodec(TextCodec()));
    ViaIsLawful(Both(TextCodec(), VecCodec(TextCodec())), TriggerFields, TriggerOf);
  }

  predicate ShortOption(text: Option<Text>) {
    text.Some? ==> IsShort(|text.value|)
  }

  /** Every text of the package is short enough for its length to be written. */
  predicate IsShortMeta(m: PackageMeta) {
    && IsShort(|m.name|) && IsShort(|m.version.raw|) && IsShort(|m.arch|) && ShortOption(m.archSub)
    && IsShort(|m.maintainer|) && IsShort(|m.description|) && ShortOption(m.license) && ShortOption(m.url)
  }

  lemma MetaPartsAreLawful()
    ensures Lawful(FrontCodec()) && Lawful(BackCodec())
  {
    hide Lawful;
    TextIsLawful();
    VersionIsLawful();
    U64IsLawful();
    Sha256IsLawful();
    OptionIsLawful(TextCodec());
    BothIsLawful(TextCodec(), VersionCodec());
    BothIsLawful(TextCodec(), OptionCodec(TextCodec()));
    BothIsLawful(Both(TextCodec(), VersionCodec()), Both(TextCodec(), OptionCodec(TextCodec())));
    var texts := Both(OptionCodec(TextCodec()), OptionCodec(TextCodec()));
    BothIsLawful(OptionCodec(TextCodec()), OptionCodec(TextCodec()));
    BothIsLawful(Sha256Codec(), U64Codec());
    BothIsLawful(TextCodec(), TextCodec());
    BothIsLawful(texts, Both(Sha256Codec(), U64Codec()));
    BothIsLawful(Both(TextCodec(), TextCodec()), Both(texts, Both(Sha256Codec(), U64Codec())));
  }

  lemma MetaFits(m: PackageMeta)
    ensures MetaCodec().fits(m) <==> IsShortMeta(m)
  {
    hide LenPrefixed, DecodeOption, DecodeBoth, DecodeText, DecodeU32, DecodeU64, DecodeSha256;
    var front, back := FieldsOfMeta(m).0, FieldsOfMeta(m).1;
    assert MetaCodec().fits(m) == (FrontCodec().fits(front) && BackCodec().fits(back));
    assert VersionCodec().fits(m.version) == Both(U32Codec(), TextCodec()).fits(VersionFields(m.version));
    assert FrontCodec().fits(front) <==>
      IsShort(|m.name|) && IsShort(|m.version.raw|) && IsShort(|m.arch|) && ShortOption(m.archSub);
    assert BackCodec().fits(back) <==>
      IsShort(|m.maintainer|) && IsShort(|m.description|) && ShortOption(m.license) && ShortOption(m.url);
  }

  lemma MetaIsLawful()
    ensures Lawful(MetaCodec())
    ensures forall m :: MetaCodec().fits(m) <==> IsShortMeta(m)
  {
    hide Lawful, FrontCodec, BackCodec, Both, Via, IsShortMeta;
    MetaPartsAreLawful();
    BothIsLawful(FrontCodec(), BackCodec());
    FieldsOfMetaInvert();
    ViaIsLawful(Both(FrontCodec(), BackCodec()), FieldsOfMeta, MetaOf);
    forall m ensures MetaCodec().fits(m) <==> IsShortMeta(m) {
      MetaFits(m);
    }
  }

  lemma FieldsOfMetaInvert()
    ensures Inverse(FieldsOfMeta, MetaOf)
  {
    forall f ensures FieldsOfMeta(MetaOf(f)) == f {
      var ((name, version), (arch, archSub)) := f.0;
      var ((maintainer, description), ((license, url), (sha256, installedSize))) := f.1;
      assert f == (((name, version), (arch, archSub)),
                   ((maintainer, description), ((license, url), (sha256, installedSize))));
    }
  }

  // ---- Anywhere in a buffer --------------------------------------------------------------------------

  /** What reading at an offset gives: the value, and the offset afterwards. */
  function ReadAt<T>(c: Codec<T>, data: Bytes, offset: nat): Option<(T, int)>
    requires offset <= |data|
  {
    match c.decode(data[offset..])
    case Panic => None
    case Done(value, rest) => Some((value, |data| - |rest|))
  }

  /** A value is read back from the middle of any buffer, advancing by exactly its own length, if and only if it
      fits. */
  lemma ComesBackAnywhere<T(!new)>(c: Codec<T>, value: T, before: Bytes, after: Bytes)
    requires Lawful(c)
    ensures var r := ReadAt(c, before + c.encode(value) + after, |before|);
            if c.fits(value) then r == Some((value, |before| + |c.encode(value)|)) else r == None || r.value.0 != value
  {
    assert (before + c.encode(value) + after)[|before|..] == c.encode(value) + after;
    assert if c.fits(value) then ComesBack(c, value, after) else IsLost(c, value, after);
  }

  /** No encoding is a prefix of another. */
  lemma EncodingsArePrefixFree<T(!new)>(c: Codec<T>, one: T, two: T, after: Bytes, after': Bytes)
    requires Lawful(c) && c.fits(one) && c.fits(two)
    requires c.encode(one) + after == c.encode(two) + after'
    ensures one == two && after == after'
  {
    assert ComesBack(c, one, after) && ComesBack(c, two, after');
  }

  // ---- Package identity ------------------------------------------------------------------------------

  function IdentityCodec(): Codec<(Text, (Text, Option<Text>))> {
    Both(TextCodec(), Both(TextCodec(), OptionCodec(TextCodec())))
  }

  /** The bytes a package's identity is hashed from. */
  function IdentityBuffer(name: Text, arch: Text, archSub: Option<Text>): Bytes {
    IdentityCodec().encode((name, (arch, archSub)))
  }

  lemma IdentityIsInjective(name: Text, arch: Text, archSub: Option<Text>, name': Text, arch': Text,
                            archSub': Option<Text>)
    requires IsShort(|name|) && IsShort(|arch|) && ShortOption(archSub)
    requires IsShort(|name'|) && IsShort(|arch'|) && ShortOption(archSub')
    requires IdentityBuffer(name, arch, archSub) == IdentityBuffer(name', arch', archSub')
    ensures name == name' && arch == arch' && archSub == archSub'
  {
    TextIsLawful();
    OptionIsLawful(TextCodec());
    BothIsLawful(TextCodec(), OptionCodec(TextCodec()));
    BothIsLawful(TextCodec(), Both(TextCodec(), OptionCodec(TextCodec())));
    EncodingsArePrefixFree(IdentityCodec(), (name, (arch, archSub)), (name', (arch', archSub')), [], []);
  }

  // ---- Byte by byte ----------------------------------------------------------------------------------

  /** The four low bytes of a number, lowest first. */
  function Four(n: nat): Bytes {
    [n % 256, n / 256 % 256, n / 65536 % 256, n / 16777216 % 256]
  }

  lemma U32Bytes(value: nat)
    ensures LittleEndian(value, 4) == Four(value)
  {
    FourAndMore(value, 0);
    assert LittleEndian(value / 0x1_0000_0000, 0) == [];
  }

  lemma U64Bytes(value: nat)
    ensures LittleEndian(value, 8) == Four(value) + Four(value / 0x1_0000_0000)
  {
    hide Four;
    FourAndMore(value, 4);
    U32Bytes(value / 0x1_0000_0000);
  }

  lemma FourAndMore(value: nat, width: nat)
    ensures LittleEndian(value, 4 + width) == Four(value) + LittleEndian(value / 0x1_0000_0000, width)
  {
    hide LittleEndian;
    var first, second, third := value / 256, value / 65536, value / 16777216;
    Quotients(value);
    NextByte(value, 3 + width);
    NextByte(first, 2 + width);
    NextByte(second, 1 + width);
    NextByte(third, width);
  }

  lemma NextByte(value: nat, width: nat)
    ensures LittleEndian(value, 1 + width) == [value % 256] + LittleEndian(value / 256, width)
  {
  }

  lemma Quotients(value: nat)
    ensures value / 256 / 256 == value / 65536
    ensures value / 65536 / 256 == value / 16777216
    ensures value / 16777216 / 256 == value / 0x1_0000_0000
  {
  }

  /** A number is written in 32 or 64 bits, lowest byte first; flags and scopes are one byte; a text is its length and
      its bytes; an option is a byte, and its value if there is one. */
  lemma PlainLayouts(n: U32, wide: U64, text: Text, option: Option<Text>)
    ensures U32Codec().encode(n) == Four(n)
    ensures U64Codec().encode(wide) == Four(wide) + Four(wide / 0x1_0000_0000)
    ensures BoolCodec().encode(true) == [1] && BoolCodec().encode(false) == [0]
    ensures ScopeCodec().encode(Config) == [1] && ScopeCodec().encode(Prefix) == [0]
    ensures TextCodec().encode(text) == Four(|text|) + text
    ensures OptionCodec(TextCodec()).encode(option)
         == if option.Some? then [1] + Four(|option.value|) + option.value else [0]
  {
    hide Four, LittleEndian;
    U32Bytes(n);
    U64Bytes(wide);
    LengthBytes(|text|);
    if option.Some? {
      LengthBytes(|option.value|);
    }
  }

  lemma LengthBytes(length: nat)
    ensures LittleEndian(WrittenLength(length), 4) == Four(length)
  {
    U32Bytes(WrittenLength(length));
    LowBytes(length, WrittenLength(length));
  }

  lemma LowBytes(n: nat, low: nat)
    requires low == n % 0x1_0000_0000
    ensures Four(low) == Four(n)
  {
    FirstByte(n);
    SecondByte(n);
    ThirdByte(n);
    FourthByte(n);
  }

  lemma FirstByte(n: nat)
    ensures n % 0x1_0000_0000 % 256 == n % 256
  {
    SameLowByte(n, 16777216 * (n / 0x1_0000_0000), n % 0x1_0000_0000);
  }

  lemma SecondByte(n: nat)
    ensures n % 0x1_0000_0000 / 256 % 256 == n / 256 % 256
  {
    var high, low := n / 0x1_0000_0000, n % 0x1_0000_0000;
    assert n / 256 == 16777216 * high + low / 256;
    SameLowByte(n / 256, 65536 * high, low / 256);
  }

  lemma ThirdByte(n: nat)
    ensures n % 0x1_0000_0000 / 65536 % 256 == n / 65536 % 256
  {
    var high, low := n / 0x1_0000_0000, n % 0x1_0000_0000;
    assert n / 65536 == 65536 * high + low / 65536;
    SameLowByte(n / 65536, 256 * high, low / 65536);
  }

  lemma FourthByte(n: nat)
    ensures n % 0x1_0000_0000 / 16777216 % 256 == n / 16777216 % 256
  {
    var high, low := n / 0x1_0000_0000, n % 0x1_0000_0000;
    assert n / 16777216 == 256 * high + low / 16777216;
    SameLowByte(n / 16777216, 1 * high, low / 16777216);
  }

  lemma SameLowByte(n: nat, high: nat, low: nat)
    requires n == 256 * high + low
    ensures n % 256 == low % 256
  {
  }

  /** Any byte but zero reads as true; only the byte one reads as the configuration scope, or announces a value. */
  lemma FlagsAreRead(b: Byte, rest: Bytes)
    ensures DecodeBool([b] + rest) == Done(b != 0, rest)
    ensures DecodeScope([b] + rest) == Done(if b == 1 then Config else Prefix, rest)
    ensures b != 1 ==> DecodeOption(TextCodec(), [b] + rest) == Done(None, rest)
    ensures forall text, left :: b == 1 && DecodeText(rest) == Done(text, left) ==>
              DecodeOption(TextCodec(), [b] + rest) == Done(Some(text), left)
    ensures b == 1 && DecodeText(rest).Panic? ==> DecodeOption(TextCodec(), [b] + rest).Panic?
  {
    hide DecodeText;
    assert ([b] + rest)[1..] == rest;
  }

  /** A list is its length and then its elements, one after the other. */
  lemma ListLayout<T>(c: Codec<T>, values: seq<T>, others: seq<T>, value: T)
    ensures VecCodec(c).encode(values)[..4] == Four(|values|)
    ensures |VecCodec(c).encode([])| == 4
    ensures VecCodec(c).encode([value])[4..] == c.encode(value)
    ensures VecCodec(c).encode(values + others)[4..]
         == VecCodec(c).encode(values)[4..] + VecCodec(c).encode(others)[4..]
  {
    hide Four;
    LengthBytes(|values|);
    EncodeJoined(c, values, others);
    assert EncodeAll(c, [value]) == c.encode(value) + EncodeAll(c, [value][1..]);
    assert EncodeAll(c, [value][1..]) == [];
  }

  lemma {:induction false} EncodeJoined<T>(c: Codec<T>, values: seq<T>, others: seq<T>)
    ensures EncodeAll(c, values + others) == EncodeAll(c, values) + EncodeAll(c, others)
  {
    if values == [] {
      assert values + others == others;
    } else {
      EncodeJoined(c, values[1..], others);
      assert (values + others)[1..] == values[1..] + others;
      Regrouped(c.encode(values[0]), EncodeAll(c, values[1..]), EncodeAll(c, others));
    }
  }

  lemma BothEncodes<A, B>(c: Codec<A>, d: Codec<B>, a: A, b: B)
    ensures Both(c, d).encode((a, b)) == c.encode(a) + d.encode(b)
  {
  }

  /** The fields of a version, of a file entry and of a trigger in the order they are written. */
  lemma FieldsInOrder(v: Version, e: FileEntry, t: DeclarativeTrigger)
    ensures VersionCodec().encode(v) == Four(v.epoch) + TextCodec().encode(v.raw)
    ensures FileEntryCodec().encode(e)
         == TextCodec().encode(e.path) + [if e.isUser then 1 else 0] + [if e.scope.Config? then 1 else 0]
    ensures TriggerCodec().encode(t) == TextCodec().encode(t.format) + VecCodec(TextCodec()).encode(t.triggers)
  {
    hide Four, TextCodec, VecCodec, Both, LittleEndian;
    U32Bytes(v.epoch);
    assert VersionCodec().encode(v) == Both(U32Codec(), TextCodec()).encode(VersionFields(v));
    BothEncodes(U32Codec(), TextCodec(), v.epoch, v.raw);
    assert FileEntryCodec().encode(e) == Both(TextCodec(), Both(BoolCodec(), ScopeCodec())).encode(FieldsOfEntry(e));
    BothEncodes(TextCodec(), Both(BoolCodec(), ScopeCodec()), e.path, (e.isUser, e.scope));
    BothAppends(BoolCodec(), ScopeCodec(), TextCodec().encode(e.path), e.isUser, e.scope);
    assert TriggerCodec().encode(t) == Both(TextCodec(), VecCodec(TextCodec())).encode(TriggerFields(t));
    BothEncodes(TextCodec(), VecCodec(TextCodec()), t.format, t.triggers);
  }

  /** The fields of a package row in the order they are written. */
  lemma MetaInOrder(m: PackageMeta)
    ensures MetaCodec().encode(m)
         == TextCodec().encode(m.name) + VersionCodec().encode(m.version)
            + TextCodec().encode(m.arch) + OptionCodec(TextCodec()).encode(m.archSub)
            + TextCodec().encode(m.maintainer) + TextCodec().encode(m.description)
            + OptionCodec(TextCodec()).encode(m.license) + OptionCodec(TextCodec()).encode(m.url)
            + m.sha256 + U64Codec().encode(m.installedSize)
  {
    hide FrontCodec, BackCodec, Both, TextCodec, VersionCodec, OptionCodec, U64Codec;
    assert MetaCodec().encode(m) == Both(FrontCodec(), BackCodec()).encode(FieldsOfMeta(m));
    BothEncodes(FrontCodec(), BackCodec(), FieldsOfMeta(m).0, FieldsOfMeta(m).1);
    var front := FrontInOrder(m);
    BackInOrder(m, front);
  }

  lemma FrontInOrder(m: PackageMeta) returns (front: Bytes)
    ensures front == FrontCodec().encode(FieldsOfMeta(m).0)
    ensures front == TextCodec().encode(m.name) + VersionCodec().encode(m.version)
                     + TextCodec().encode(m.arch) + OptionCodec(TextCodec()).encode(m.archSub)
  {
    hide Both, TextCodec, VersionCodec, OptionCodec;
    var ((name, version), (arch, archSub)) := FieldsOfMeta(m).0;
    BothEncodes(Both(TextCodec(), VersionCodec()), Both(TextCodec(), OptionCodec(TextCodec())),
                (name, version), (arch, archSub));
    BothEncodes(TextCodec(), VersionCodec(), name, version);
    front := TextCodec().encode(name) + VersionCodec().encode(version);
    BothAppends(TextCodec(), OptionCodec(TextCodec()), front, arch, archSub);
    front := front + TextCodec().encode(arch) + OptionCodec(TextCodec()).encode(archSub);
  }

  lemma BackInOrder(m: PackageMeta, front: Bytes)
    ensures front + BackCodec().encode(FieldsOfMeta(m).1)
         == front + TextCodec().encode(m.maintainer) + TextCodec().encode(m.description)
            + OptionCodec(TextCodec()).encode(m.license) + OptionCodec(TextCodec()).encode(m.url)
            + m.sha256 + U64Codec().encode(m.installedSize)
  {
    hide TextCodec, OptionCodec, U64Codec, Both;
    var (words, (links, rest)) := FieldsOfMeta(m).1;
    var optional, numbers, buf := OptionCodec(TextCodec()), Both(Sha256Codec(), U64Codec()), front;
    BothAppends(Both(TextCodec(), TextCodec()), Both(Both(optional, optional), numbers), buf, words, (links, rest));
    BothAppends(TextCodec(), TextCodec(), buf, m.maintainer, m.description);
    buf := buf + TextCodec().encode(m.maintainer) + TextCodec().encode(m.description);
    BothAppends(Both(optional, optional), numbers, buf, links, rest);
    BothAppends(optional, optional, buf, m.license, m.url);
    buf := buf + optional.encode(m.license) + optional.encode(m.url);
    BothAppends(Sha256Codec(), U64Codec(), buf, m.sha256, m.installedSize);
  }

  /** The bytes an identity is hashed from. */
  lemma IdentityLayout(name: Text, arch: Text, archSub: Option<Text>)
    ensures IdentityBuffer(name, arch, archSub)
         == Four(|name|) + name + Four(|arch|) + arch
            + if archSub.Some? then [1] + Four(|archSub.value|) + archSub.value else [0]
  {
    hide Four, TextCodec, OptionCodec, Both;
    PlainLayouts(0, 0, name, archSub);
    PlainLayouts(0, 0, arch, None);
    BothEncodes(TextCodec(), Both(TextCodec(), OptionCodec(TextCodec())), name, (arch, archSub));
    BothAppends(TextCodec(), OptionCodec(TextCodec()), TextCodec().encode(name), arch, archSub);
    Regrouped(Four(|name|) + name, Four(|arch|), arch);
  }

  // ---- Writing ---------------------------------------------------------------------------------------

  class Writer {
    var buf: Bytes

    constructor ()
      ensures buf == []
    {
      buf := [];
    }

    method WriteBool(value: bool)
      modifies this
      ensures buf == old(buf) + BoolCodec().encode(value)
    {
      buf := buf + [if value then 1 else 0];
    }

    method WriteScope(scope: FileEntryScope)
      modifies this
      ensures buf == old(buf) + ScopeCodec().encode(scope)
    {
      buf := buf + [if scope.Config? then 1 else 0];
    }

    method WriteU32(value: U32)
      modifies this
      ensures buf == old(buf) + U32Codec().encode(value)
    {
      buf := buf + LittleEndian(value, 4);
    }

    method WriteU64(value: U64)
      modifies this
      ensures buf == old(buf) + U64Codec().encode(value)
    {
      buf := buf + LittleEndian(value, 8);
    }

    method WriteLenPrefixed(bytes: Bytes)
      modifies this
      ensures buf == old(buf) + TextCodec().encode(bytes)
    {
      WriteU32(WrittenLength(|bytes|));
      buf := buf + bytes;
    }

    method WriteOptStr(text: Option<Text>)
      modifies this
      ensures buf == old(buf) + OptionCodec(TextCodec()).encode(text)
    {
      match text {
        case Some(value) =>
          buf := buf + [1];
          WriteLenPrefixed(value);
        case None =>
          buf := buf + [0];
      }
    }

    method WriteVec<T>(c: Codec<T>, values: seq<T>)
      modifies this
      ensures buf == old(buf) + VecCodec(c).encode(values)
    {
      WriteU32(WrittenLength(|values|));
      ghost var start := buf;
      for i := 0 to |values|
        invariant buf + EncodeAll(c, values[i..]) == start + EncodeAll(c, values)
      {
        assert values[i..][1..] == values[i + 1..];
        Regrouped(buf, c.encode(values[i]), EncodeAll(c, values[i + 1..]));
        buf := buf + c.encode(values[i]);
      }
      Regrouped(old(buf), U32Codec().encode(WrittenLength(|values|)), EncodeAll(c, values));
    }

    method WriteVersion(v: Version)
      modifies this
      ensures buf == old(buf) + VersionCodec().encode(v)
    {
      hide U32Codec, TextCodec, Both;
      assert VersionCodec().encode(v) == Both(U32Codec(), TextCodec()).encode(VersionFields(v));
      WriteU32(v.epoch);
      WriteLenPrefixed(v.raw);
      BothAppends(U32Codec(), TextCodec(), old(buf), v.epoch, v.raw);
    }

    method WriteFileEntry(e: FileEntry)
      modifies this
      ensures buf == old(buf) + FileEntryCodec().encode(e)
    {
      hide TextCodec, BoolCodec, ScopeCodec, Both;
      assert FileEntryCodec().encode(e) == Both(TextCodec(), Both(BoolCodec(), ScopeCodec())).encode(FieldsOfEntry(e));
      WriteLenPrefixed(e.path);
      BothAppends(TextCodec(), Both(BoolCodec(), ScopeCodec()), old(buf), e.path, (e.isUser, e.scope));
      BothAppends(BoolCodec(), ScopeCodec(), buf, e.isUser, e.scope);
      WriteBool(e.isUser);
      WriteScope(e.scope);
    }

    method WriteTrigger(t: DeclarativeTrigger)
      modifies this
      ensures buf == old(buf) + TriggerCodec().encode(t)
    {
      hide TextCodec, VecCodec, Both;
      assert TriggerCodec().encode(t) == Both(TextCodec(), VecCodec(TextCodec())).encode(TriggerFields(t));
      WriteLenPrefixed(t.format);
      WriteVec(TextCodec(), t.triggers);
      BothAppends(TextCodec(), VecCodec(TextCodec()), old(buf), t.format, t.triggers);
    }

    method WriteMeta(m: PackageMeta)
      modifies this
      ensures buf == old(buf) + MetaCodec().encode(m)
    {
      hide FrontCodec, BackCodec, Both;
      WriteFront(m);
      BothAppends(FrontCodec(), BackCodec(), old(buf), FieldsOfMeta(m).0, FieldsOfMeta(m).1);
      WriteBack(m);
    }

    method WriteFront(m: PackageMeta)
      modifies this
      ensures buf == old(buf) + FrontCodec().encode(FieldsOfMeta(m).0)
    {
      hide TextCodec, VersionCodec, OptionCodec, Both;
      var ((name, version), (arch, archSub)) := FieldsOfMeta(m).0;
      BothAppends(Both(TextCodec(), VersionCodec()), Both(TextCodec(), OptionCodec(TextCodec())), buf,
                  (name, version), (arch, archSub));
      BothAppends(TextCodec(), VersionCodec(), buf, name, version);
      WriteLenPrefixed(m.name);
      WriteVersion(m.version);
      BothAppends(TextCodec(), OptionCodec(TextCodec()), buf, arch, archSub);
      WriteLenPrefixed(m.arch);
      WriteOptStr(m.archSub);
    }

    method WriteBack(m: PackageMeta)
      modifies this
      ensures buf == old(buf) + BackCodec().encode(FieldsOfMeta(m).1)
    {
      hide TextCodec, OptionCodec, U64Codec, Both;
      var (words, (links, rest)) := FieldsOfMeta(m).1;
      var optional, numbers := OptionCodec(TextCodec()), Both(Sha256Codec(), U64Codec());
      BothAppends(Both(TextCodec(), TextCodec()), Both(Both(optional, optional), numbers), buf, words, (links, rest));
      BothAppends(TextCodec(), TextCodec(), buf, m.maintainer, m.description);
      WriteLenPrefixed(m.maintainer);
      WriteLenPrefixed(m.description);
      BothAppends(Both(optional, optional), numbers, buf, links, rest);
      BothAppends(optional, optional, buf, m.license, m.url);
      WriteOptStr(m.license);
      WriteOptStr(m.url);
      BothAppends(Sha256Codec(), U64Codec(), buf, m.sha256, m.installedSize);
      buf := buf + m.sha256;
      WriteU64(m.installedSize);
    }

    method WriteIdentity(name: Text, arch: Text, archSub: Option<Text>)
      modifies this
      ensures buf == old(buf) + IdentityBuffer(name, arch, archSub)
    {
      hide TextCodec, OptionCodec, Both;
      BothAppends(TextCodec(), Both(TextCodec(), OptionCodec(TextCodec())), buf, name, (arch, archSub));
      WriteLenPrefixed(name);
      BothAppends(TextCodec(), OptionCodec(TextCodec()), buf, arch, archSub);
      WriteLenPrefixed(arch);
      WriteOptStr(archSub);
    }
  }

  /** Writing two fields one after the other writes their pair. */
  lemma BothAppends<A, B>(c: Codec<A>, d: Codec<B>, buf: Bytes, a: A, b: B)
    ensures (buf + c.encode(a)) + d.encode(b) == buf + Both(c, d).encode((a, b))
  {
    Regrouped(buf, c.encode(a), d.encode(b));
  }

  // ---- Reading ---------------------------------------------------------------------------------------

  /** A read that took `data` from `offset` to `next`, with None for a panic, did what the decoder says. */
  ghost predicate DidRead<T>(decoded: Decoded<T>, data: Bytes, next: nat, r: Option<T>) {
    && next <= |data|
    && match decoded
       case Panic => r == None
       case Done(value, rest) => r == Some(value) && rest == data[next..]
  }

  class Reader {
    const data: Bytes
    var offset: nat

    ghost predicate Valid()
      reads this
    {
      offset <= |data|
    }

    constructor (data: Bytes, offset: nat)
      requires offset <= |data|
      ensures Valid() && this.data == data && this.offset == offset
    {
      this.data, this.offset := data, offset;
    }

    method ReadBool() returns (r: Option<bool>)
      requires Valid()
      modifies this
      ensures DidRead(DecodeBool(data[old(offset)..]), data, offset, r)
    {
      if |data| <= offset {
        return None;
      }
      r := Some(data[offset] != 0);
      offset := offset + 1;
    }

    method ReadScope() returns (r: Option<FileEntryScope>)
      requires Valid()
      modifies this
      ensures DidRead(DecodeScope(data[old(offset)..]), data, offset, r)
    {
      if |data| <= offset {
        return None;
      }
      r := Some(if data[offset] == 1 then Config else Prefix);
      offset := offset + 1;
    }

    method ReadU32() returns (r: Option<U32>)
      requires Valid()
      modifies this
      ensures DidRead(DecodeU32(data[old(offset)..]), data, offset, r)
    {
      if |data| < offset + 4 {
        return None;
      }
      WidthsOfNumbers();
      NumberIsBounded(data[offset..offset + 4]);
      assert data[offset..][..4] == data[offset..offset + 4];
      r := Some(FromLittleEndian(data[offset..offset + 4]));
      offset := offset + 4;
    }

    method ReadU64() returns (r: Option<U64>)
      requires Valid()
      modifies this
      ensures DidRead(DecodeU64(data[old(offset)..]), data, offset, r)
    {
      if |data| < offset + 8 {
        return None;
      }
      WidthsOfNumbers();
      NumberIsBounded(data[offset..offset + 8]);
      assert data[offset..][..8] == data[offset..offset + 8];
      r := Some(FromLittleEndian(data[offset..offset + 8]));
      offset := offset + 8;
    }

    method ReadStr() returns (r: Option<Text>)
      requires Valid()
      modifies this
      ensures DidRead(DecodeText(data[old(offset)..]), data, offset, r)
    {
      var length := ReadU32();
      if length.None? || |data| < offset + length.value {
        return None;
      }
      assert data[offset..][..length.value] == data[offset..offset + length.value];
      assert data[offset..][length.value..] == data[offset + length.value..];
      r := Some(data[offset..offset + length.value]);
      offset := offset + length.value;
    }

    method ReadSha256() returns (r: Option<Sha256>)
      requires Valid()
      modifies this
      ensures DidRead(DecodeSha256(data[old(offset)..]), data, offset, r)
    {
      if |data| < offset + 32 {
        return None;
      }
      assert data[offset..][..32] == data[offset..offset + 32];
      r := Some(data[offset..offset + 32]);
      offset := offset + 32;
    }

    /** Reads an element with its own codec. */
    method ReadWith<T>(c: Codec<T>) returns (r: Option<T>)
      requires Valid() && Consumes(c, data[offset..])
      modifies this
      ensures DidRead(c.decode(data[old(offset)..]), data, offset, r)
    {
      match c.decode(data[offset..]) {
        case Panic =>
          r := None;
        case Done(value, rest) =>
          assert rest == data[|data| - |rest|..];
          offset := |data| - |rest|;
          r := Some(value);
      }
    }

    method ReadOption<T>(c: Codec<T>) returns (r: Option<Option<T>>)
      requires Valid() && forall d :: Consumes(c, d)
      modifies this
      ensures DidRead(DecodeOption(c, data[old(offset)..]), data, offset, r)
    {
      if |data| <= offset {
        return None;
      }
      var flag := data[offset];
      assert data[offset..][1..] == data[offset + 1..];
      offset := offset + 1;
      if flag == 1 {
        var value := ReadWith(c);
        r := if value.Some? then Some(value) else None;
      } else {
        r := Some(None);
      }
    }

    method ReadVec<T>(c: Codec<T>) returns (r: Option<seq<T>>)
      requires Valid() && forall d :: Consumes(c, d)
      modifies this
      ensures DidRead(DecodeVec(c, data[old(offset)..]), data, offset, r)
    {
      var count := ReadU32();
      if count.None? {
        return None;
      }
      ghost var from := offset;
      var values: seq<T> := [];
      PrependNone(DecodeMany(c, count.value, data[offset..]));
      for i := 0 to count.value
        invariant Valid()
        invariant DecodeMany(c, count.value, data[from..])
               == Prepend(values, DecodeMany(c, count.value - i, data[offset..]))
      {
        ghost var at := offset;
        var value := ReadWith(c);
        if value.None? {
          return None;
        }
        PrependOne(values, value.value, DecodeMany(c, count.value - i - 1, data[offset..]));
        values := values + [value.value];
      }
      assert values + [] == values;
      r := Some(values);
    }

    method ReadVersion() returns (r: Option<Version>)
      requires Valid()
      modifies this
      ensures DidRead(VersionCodec().decode(data[old(offset)..]), data, offset, r)
    {
      hide DecodeU32, DecodeText;
      var epoch := ReadU32();
      if epoch.None? {
        return None;
      }
      var raw := ReadStr();
      if raw.None? {
        return None;
      }
      r := Some(VersionOf((epoch.value, raw.value)));
    }

    method ReadFileEntry() returns (r: Option<FileEntry>)
      requires Valid()
      modifies this
      ensures DidRead(FileEntryCodec().decode(data[old(offset)..]), data, offset, r)
    {
      hide DecodeText, DecodeBool, DecodeScope;
      var path := ReadStr();
      if path.None? {
        return None;
      }
      var isUser := ReadBool();
      if isUser.None? {
        return None;
      }
      var scope := ReadScope();
      if scope.None? {
        return None;
      }
      r := Some(EntryOf((path.value, (isUser.value, scope.value))));
    }

    method ReadTrigger() returns (r: Option<DeclarativeTrigger>)
      requires Valid()
      modifies this
      ensures DidRead(TriggerCodec().decode(data[old(offset)..]), data, offset, r)
    {
      hide DecodeText, DecodeVec;
      var format := ReadStr();
      if format.None? {
        return None;
      }
      TextIsLawful();
      var triggers := ReadVec(TextCodec());
      if triggers.None? {
        return None;
      }
      r := Some(TriggerOf((format.value, triggers.value)));
    }

    method ReadFront() returns (r: Option<FrontFields>)
      requires Valid()
      modifies this
      ensures DidRead(FrontCodec().decode(data[old(offset)..]), data, offset, r)
    {
      hide DecodeText, VersionCodec, DecodeOption;
      var name := ReadStr();
      if name.None? {
        return None;
      }
      var version := ReadVersion();
      if version.None? {
        return None;
      }
      var arch := ReadStr();
      if arch.None? {
        return None;
      }
      TextIsLawful();
      var archSub := ReadOption(TextCodec());
      if archSub.None? {
        return None;
      }
      r := Some(((name.value, version.value), (arch.value, archSub.value)));
    }

    method ReadBack() returns (r: Option<BackFields>)
      requires Valid()
      modifies this
      ensures DidRead(BackCodec().decode(data[old(offset)..]), data, offset, r)
    {
      hide DecodeText, DecodeOption, DecodeSha256, DecodeU64;
      var maintainer := ReadStr();
      if maintainer.None? {
        return None;
      }
      var description := ReadStr();
      if description.None? {
        return None;
      }
      TextIsLawful();
      var license := ReadOption(TextCodec());
      if license.None? {
        return None;
      }
      var url := ReadOption(TextCodec());
      if url.None? {
        return None;
      }
      var sha256 := ReadSha256();
      if sha256.None? {
        return None;
      }
      var installedSize := ReadU64();
      if installedSize.None? {
        return None;
      }
      r := Some(((maintainer.value, description.value),
                 ((license.value, url.value), (sha256.value, installedSize.value))));
    }

    method ReadMeta() returns (r: Option<PackageMeta>)
      requires Valid()
      modifies this
      ensures DidRead(MetaCodec().decode(data[old(offset)..]), data, offset, r)
    {
      hide FrontCodec, BackCodec;
      var front := ReadFront();
      if front.None? {
        return None;
      }
      var back := ReadBack();
      if back.None? {
        return None;
      }
      r := Some(MetaOf((front.value, back.value)));
    }
  }

  ghost function Prepend<T>(values: seq<T>, r: Decoded<seq<T>>): Decoded<seq<T>> {
    match r
    case Panic => Panic
    case Done(others, rest) => Done(values + others, rest)
  }

  lemma PrependNone<T>(r: Decoded<seq<T>>)
    ensures Prepend([], r) == r
  {
    if r.Done? {
      assert [] + r.value == r.value;
    }
  }

  lemma PrependOne<T>(values: seq<T>, value: T, r: Decoded<seq<T>>)
    ensures Prepend(values + [value], r) == Prepend(values, Prepend([value], r))
  {
    if r.Done? {
      assert values + [value] + r.value == values + ([value] + r.value);
    }
  }
}
