/** The values the package database stores. */
module Types {
  import opened Basics

  /** A string is its UTF-8 bytes. */
  type Text = Bytes

  type U32 = n: nat | n < 0x1_0000_0000

  type U64 = n: nat | n < 0x1_0000_0000_0000_0000

  type Sha256 = d: Bytes | |d| == 32 witness seq(32, _ => 0)

  datatype Version = Version(epoch: U32, raw: Text)

  datatype FileEntryScope = Prefix | Config

  datatype FileEntry = FileEntry(path: Text, isUser: bool, scope: FileEntryScope)

  datatype DeclarativeTrigger = DeclarativeTrigger(format: Text, triggers: seq<Text>)

  datatype PackageMeta = PackageMeta(name: Text, version: Version, arch: Text, archSub: Option<Text>,
                                     maintainer: Text, description: Text, license: Option<Text>, url: Option<Text>,
                                     sha256: Sha256, installedSize: U64)
}
