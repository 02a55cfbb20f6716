/** The reader of one BHD5 archive (`BHD5Reader`): it derives the archive's
    base path, name and cache path from the path it is given, refuses to
    open an archive whose `.bhd` or `.bdt` file is missing, and answers
    lookups by path by hashing the path for its own archive variant. Paths
    follow the Windows conventions: both `/` and `\` separate directories. */
module ArchiveReader {
  import opened Types
  import BHD5
  import PathHash
  import opened ArchiveIndex

  predicate IsSeparator(c: char)
  {
    c == '/' || c == '\\'
  }

  /** Where the last component of `path[..i]` starts: just after its last
      separator, or at 0. */
  function NameStart(path: string, i: nat): (j: nat)
    requires i <= |path|
    ensures j <= i
    ensures j > 0 ==> IsSeparator(path[j - 1])
  {
    if i == 0 then 0
    else if IsSeparator(path[i - 1]) then i
    else NameStart(path, i - 1)
  }

  /** No separator follows the start of the last component. */
  lemma {:induction false} NoSeparatorInLastComponent(path: string, i: nat)
    requires i <= |path|
    ensures forall k :: NameStart(path, i) <= k < i ==> !IsSeparator(path[k])
  {
    if i > 0 && !IsSeparator(path[i - 1]) {
      NoSeparatorInLastComponent(path, i - 1);
    }
  }

  /** The dot that starts the extension of `path[..i]`: the last dot of its
      last component, if that component has one. */
  function ExtensionDot(path: string, i: nat): (r: Option<nat>)
    requires i <= |path|
    ensures r.Some? ==> NameStart(path, i) <= r.value < i && path[r.value] == '.'
  {
    if i == 0 then None
    else if path[i - 1] == '.' then Some(i - 1)
    else if IsSeparator(path[i - 1]) then None
    else ExtensionDot(path, i - 1)
  }

  /** The dot found is the last one of the last component, and none is
      found exactly when the last component has no dot. */
  lemma {:induction false} ExtensionDotIsLastDot(path: string, i: nat)
    requires i <= |path|
    ensures var r := ExtensionDot(path, i);
      && (r.Some? ==> forall k :: r.value < k < i ==> path[k] != '.' && !IsSeparator(path[k]))
      && (r.None? <==> forall k :: NameStart(path, i) <= k < i ==> path[k] != '.')
  {
    if i > 0 && path[i - 1] != '.' && !IsSeparator(path[i - 1]) {
      ExtensionDotIsLastDot(path, i - 1);
    }
  }

  /** `Path.ChangeExtension(path, null)`: the path without the extension
      of its last component, or the path itself when that has none. */
  function ChangeExtension(path: string): string
  {
    match ExtensionDot(path, |path|)
    case None => path
    case Some(d) => path[..d]
  }

  /** The extension removed is the part from the last dot of the last
      component on; a path whose last component has no dot is kept. */
  lemma ChangeExtensionRemovesExtension(path: string)
    ensures var r := ChangeExtension(path);
      && r <= path
      && (r == path <==> forall k :: NameStart(path, |path|) <= k < |path| ==> path[k] != '.')
      && (r != path ==>
            && NameStart(path, |path|) <= |r| && path[|r|] == '.'
            && forall k :: |r| < k < |path| ==> path[k] != '.' && !IsSeparator(path[k]))
  {
    ExtensionDotIsLastDot(path, |path|);
  }

  /** `Path.GetFileName(path)`: the last component of the path. */
  function GetFileName(path: string): string
  {
    path[NameStart(path, |path|)..]
  }

  /** The file name is the suffix of the path after its last separator. */
  lemma FileNameIsLastComponent(path: string)
    ensures var r := GetFileName(path);
      && |r| <= |path| && r == path[|path| - |r|..]
      && (forall k :: 0 <= k < |r| ==> !IsSeparator(r[k]))
      && (|r| < |path| ==> IsSeparator(path[|path| - |r| - 1]))
  {
    NoSeparatorInLastComponent(path, |path|);
  }

  /** What the constructor derives before building the index: the base
      path shared by the two companion files, the archive name, the
      archive variant, the RSA key and the cache path of the header. */
  datatype Setup = Setup(
    filePath: string,
    archiveName: string,
    game: BHD5.Game,
    key: Option<string>,
    cache: Option<string>)

  /** The file system as the reader sees it: which files exist, and what
      the (external) index factory produces for a prepared archive when it
      is first asked for the header and for the data blob: the value, or
      the exception that loading, decrypting, caching or opening throws. */
  datatype Storage = Storage(
    fileExists: string -> bool,
    headerOf: Setup -> Result<Header>,
    dataOf: Setup -> Result<DataStream>)

  /** The checks and derivations of the constructor, up to building the
      index: `FileNotFoundException` unless both `<base>.bhd` and
      `<base>.bdt` exist, where `<base>` is the path without its extension. */
  function Prepare(path: string, game: BHD5.Game, key: Option<string>, cachePath: Option<string>,
                   fileExists: string -> bool): (r: Result<Setup>)
    ensures r.Err? ==> r.error == FileNotFound
  {
    var filePath := ChangeExtension(path);
    if !fileExists(filePath + ".bhd") || !fileExists(filePath + ".bdt") then
      Err(FileNotFound)
    else
      var archiveName := GetFileName(filePath);
      var cache := match cachePath
        case None => None
        case Some(dir) => Some(dir + "/" + archiveName);
      Ok(Setup(filePath, archiveName, game, key, cache))
  }

  /** What a successful constructor derives: both companion files of the
      base path exist, the base path is the given path less its extension,
      the archive name is the base path's last component, and the cache
      path is absent exactly when no cache directory is given and otherwise
      the archive name inside it. */
  lemma PreparedSetup(path: string, game: BHD5.Game, key: Option<string>, cachePath: Option<string>,
                      fileExists: string -> bool)
    ensures Prepare(path, game, key, cachePath, fileExists).Err? <==>
      !fileExists(ChangeExtension(path) + ".bhd") || !fileExists(ChangeExtension(path) + ".bdt")
    ensures Prepare(path, game, key, cachePath, fileExists).Ok? ==>
      var setup := Prepare(path, game, key, cachePath, fileExists).value;
      && fileExists(setup.filePath + ".bhd") && fileExists(setup.filePath + ".bdt")
      && setup.filePath == ChangeExtension(path)
      && |setup.archiveName| <= |setup.filePath|
      && setup.archiveName == setup.filePath[|setup.filePath| - |setup.archiveName|..]
      && (forall k :: 0 <= k < |setup.archiveName| ==> !IsSeparator(setup.archiveName[k]))
      && setup.game == game && setup.key == key
      && (setup.cache.None? <==> cachePath.None?)
      && (setup.cache.Some? ==> setup.cache.value == cachePath.value + "/" + setup.archiveName)
  {
    FileNameIsLastComponent(ChangeExtension(path));
  }

  /** A component without separators, appended to a directory that ends
      in a separator, is the file name of the result. */
  lemma FileNameOfDirEntry(dir: string, name: string)
    requires |dir| > 0 && IsSeparator(dir[|dir| - 1])
    requires forall k :: 0 <= k < |name| ==> !IsSeparator(name[k])
    ensures GetFileName(dir + name) == name
  {
    var base := dir + name;
    NoSeparatorInLastComponent(base, |base|);
    assert base[|dir| - 1] == dir[|dir| - 1];
    forall k | |dir| <= k < |base|
      ensures !IsSeparator(base[k])
    {
      assert base[k] == name[k - |dir|];
    }
    assert NameStart(base, |base|) == |dir|;
    assert base[|dir|..] == name;
  }

  /** A component without dots or separators, appended to a directory that
      ends in a separator, has no extension to remove. */
  lemma NoExtensionInDirEntry(dir: string, name: string)
    requires |dir| > 0 && IsSeparator(dir[|dir| - 1])
    requires forall k :: 0 <= k < |name| ==> name[k] != '.' && !IsSeparator(name[k])
    ensures ChangeExtension(dir + name) == dir + name
  {
    var p := dir + name;
    ExtensionDotIsLastDot(p, |p|);
    NoSeparatorInLastComponent(p, |p|);
    assert p[|dir| - 1] == dir[|dir| - 1];
    forall k | |dir| <= k < |p|
      ensures p[k] != '.' && !IsSeparator(p[k])
    {
      assert p[k] == name[k - |dir|];
    }
  }

  /** The `.bhd` and `.bdt` extensions are removed whole. */
  lemma CompanionExtensionRemoved(base: string, extension: string)
    requires extension in {".bhd", ".bdt"}
    ensures ChangeExtension(base + extension) == base
  {
    var p := base + extension;
    var n := |base|;
    assert p[n] == '.' && p[n + 1] == 'b';
    assert p[n + 2] in "hd" && p[n + 3] in "dt";
    assert ExtensionDot(p, n + 4) == ExtensionDot(p, n + 3) == ExtensionDot(p, n + 2) == ExtensionDot(p, n + 1) == Some(n);
    assert p[..n] == base;
  }

  /** A component without dots or separators, appended to a directory that
      ends in a separator, is the archive name and (without extension) the
      base path; giving it the `.bhd` or `.bdt` extension changes neither. */
  lemma ArchiveNameOfGamePath(dir: string, name: string, extension: string)
    requires |dir| > 0 && IsSeparator(dir[|dir| - 1])
    requires forall k :: 0 <= k < |name| ==> name[k] != '.' && !IsSeparator(name[k])
    requires extension in {"", ".bhd", ".bdt"}
    ensures ChangeExtension(dir + name + extension) == dir + name
    ensures GetFileName(dir + name) == name
  {
    NoExtensionInDirEntry(dir, name);
    if extension != "" {
      CompanionExtensionRemoved(dir + name, extension);
    }
    assert dir + name + "" == dir + name;
    FileNameOfDirEntry(dir, name);
  }

  /** Under the Windows separator policy the sound archive `sd\sd` of the
      game tables is opened as the archive named `sd`. */
  lemma SoundArchiveIsNamedSd()
    ensures GetFileName(ChangeExtension("Steam/Game/sd\\sd")) == "sd"
  {
    var p := "Steam/Game/sd\\sd";
    ExtensionDotIsLastDot(p, |p|);
    assert ChangeExtension(p) == p by {
      forall k | NameStart(p, |p|) <= k < |p|
        ensures p[k] != '.'
      {
      }
    }
    assert NameStart(p, |p|) == 14 by {
      assert IsSeparator(p[13]);
      assert NameStart(p, 15) == NameStart(p, 14) == 14;
    }
  }

  /** The reader of one archive. The three fields are fixed at
      construction; `setup` records what the constructor derived. */
  class BHD5Reader {
    const archiveName: string
    const game: BHD5.Game
    const data: BHD5Data
    ghost const setup: Setup

    ghost predicate Valid()
      reads data
    {
      && data.Valid()
      && archiveName == setup.archiveName
      && (forall k :: 0 <= k < |archiveName| ==> !IsSeparator(archiveName[k]))
      && game == setup.game
    }

    /** Stores the derived name and variant and the index built from the
        prepared archive, without loading anything yet. */
    constructor (setup: Setup, storage: Storage)
      requires forall k :: 0 <= k < |setup.archiveName| ==> !IsSeparator(setup.archiveName[k])
      ensures Valid() && fresh(data)
      ensures this.setup == setup
      ensures data.header.None? && data.fileStream.None?
      ensures data.makeHeader() == storage.headerOf(setup)
      ensures data.openStream() == storage.dataOf(setup)
    {
      archiveName := setup.archiveName;
      game := setup.game;
      this.setup := setup;
      data := new BHD5Data(() => storage.headerOf(setup), () => storage.dataOf(setup));
    }

    /** The constructor as a whole: it fails before building anything when
        a companion file is missing. */
    static method Open(path: string, game: BHD5.Game, key: Option<string>, cachePath: Option<string>,
                       storage: Storage) returns (r: Result<BHD5Reader>)
      ensures r.Err? <==> Prepare(path, game, key, cachePath, storage.fileExists).Err?
      ensures r.Err? ==> r.error == FileNotFound
      ensures r.Ok? ==>
        var setup := Prepare(path, game, key, cachePath, storage.fileExists).value;
        && fresh(r.value) && fresh(r.value.data) && r.value.Valid()
        && r.value.setup == setup
        && r.value.data.header.None? && r.value.data.fileStream.None?
        && r.value.data.makeHeader() == storage.headerOf(setup)
        && r.value.data.openStream() == storage.dataOf(setup)
    {
      var prepared := Prepare(path, game, key, cachePath, storage.fileExists);
      if prepared.Err? {
        return Err(prepared.error);
      }
      PreparedSetup(path, game, key, cachePath, storage.fileExists);
      var reader := new BHD5Reader(prepared.value, storage);
      return Ok(reader);
    }

    /** `ArchiveName()`: the name fixed at construction. */
    function ArchiveName(): (r: string)
      requires Valid()
      reads data
      ensures r == setup.archiveName
    {
      archiveName
    }

    /** What a lookup by hash returns. */
    function HashAnswer(hash: U64): Result<Option<Bytes>>
    {
      Answer(data.makeHeader(), data.openStream(), hash)
    }

    /** `GetFile(string)`: hashes the path and delegates to the index,
        which loads its header and opens its stream only on a hit. */
    method GetFile(path: string) returns (r: Result<Option<Bytes>>)
      requires Valid()
      modifies data
      ensures Valid()
      ensures r == HashAnswer(PathHash.ComputeHash(path, game))
      ensures data.LookupStep(old(data.State()), data.State(), PathHash.ComputeHash(path, game))
    {
      var hash := PathHash.ComputeHash(path, game);
      r := data.GetFile(hash);
    }

    /** `GetFile(ulong)`: delegates to the index unchanged. */
    method GetFileByHash(hash: U64) returns (r: Result<Option<Bytes>>)
      requires Valid()
      modifies data
      ensures Valid()
      ensures r == HashAnswer(hash)
      ensures data.LookupStep(old(data.State()), data.State(), hash)
    {
      r := data.GetFile(hash);
    }
  }
}
