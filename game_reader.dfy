/** The reader of a whole game (`GameReader`): one archive reader per
    archive of the game, built in the order of the game's archive table,
    and lookups that ask the readers in that order. */
module Aggregator {
  import opened Types
  import opened Games
  import BhdUtil
  import PathHash
  import opened ArchiveIndex
  import opened ArchiveReader

  /** What a lookup over several archives returns: the first answer that
      is not null. An exception from one archive ends the scan. */
  function FirstHit(answers: seq<Result<Option<Bytes>>>): Result<Option<Bytes>>
  {
    if |answers| == 0 then Ok(None)
    else if answers[0] != Ok(None) then answers[0]
    else FirstHit(answers[1..])
  }

  /** The scan answers null exactly when every archive does, and otherwise
      gives the first answer that is not null, with only nulls before it. */
  lemma {:induction false} FirstHitIsFirstNonNull(answers: seq<Result<Option<Bytes>>>)
    ensures FirstHit(answers) == Ok(None) <==> forall i :: 0 <= i < |answers| ==> answers[i] == Ok(None)
    ensures FirstHit(answers) != Ok(None) ==>
      exists i :: 0 <= i < |answers| && FirstHit(answers) == answers[i] &&
        forall k :: 0 <= k < i ==> answers[k] == Ok(None)
  {
    if |answers| > 0 && answers[0] == Ok(None) {
      var r := FirstHit(answers[1..]);
      FirstHitIsFirstNonNull(answers[1..]);
      assert forall k :: 1 <= k < |answers| ==> answers[k] == answers[1..][k - 1];
      if r != Ok(None) {
        var j :| 0 <= j < |answers| - 1 && r == answers[1..][j] &&
          forall k :: 0 <= k < j ==> answers[1..][k] == Ok(None);
        assert r == answers[j + 1];
      }
    }
  }

  /** The scan of a suffix: the first answer decides unless it is null. */
  lemma FirstHitStep(answers: seq<Result<Option<Bytes>>>, i: nat)
    requires i < |answers|
    ensures FirstHit(answers[i..]) == if answers[i] != Ok(None) then answers[i] else FirstHit(answers[i + 1..])
  {
    assert answers[i..][0] == answers[i];
    assert answers[i..][1..] == answers[i + 1..];
  }

  /** How many readers a first-hit scan asks: those up to and including
      the first non-null answer, or all of them when every answer is
      null. */
  function Asked(answers: seq<Result<Option<Bytes>>>): (n: nat)
    ensures n <= |answers| && (n == 0 <==> |answers| == 0)
    ensures forall k :: 0 <= k < n - 1 ==> answers[k] == Ok(None)
    ensures n < |answers| ==> answers[n - 1] != Ok(None)
  {
    if |answers| == 0 then 0
    else if answers[0] != Ok(None) then 1
    else
      var n := Asked(answers[1..]);
      assert forall k :: 1 <= k < n ==> answers[k] == answers[1..][k - 1];
      if n == 0 then 1 else n + 1
  }

  /** The first `i` answers are all null. */
  predicate NullBefore(answers: seq<Result<Option<Bytes>>>, i: nat)
    requires i <= |answers|
  {
    forall k :: 0 <= k < i ==> answers[k] == Ok(None)
  }

  /** A null answer at `i` extends the null prefix by one. */
  lemma NullBeforeStep(answers: seq<Result<Option<Bytes>>>, i: nat)
    requires i < |answers| && NullBefore(answers, i) && answers[i] == Ok(None)
    ensures NullBefore(answers, i + 1)
  {
  }

  /** A scan that meets its first non-null answer at `i` has asked `i + 1`
      readers and returns that answer. */
  lemma FirstHitAt(answers: seq<Result<Option<Bytes>>>, i: nat)
    requires i < |answers| && answers[i] != Ok(None)
    requires NullBefore(answers, i)
    ensures Asked(answers) == i + 1 && FirstHit(answers) == answers[i]
  {
    FirstHitIsFirstNonNull(answers);
  }

  /** A scan that meets only nulls asks every reader and returns null. */
  lemma NoHit(answers: seq<Result<Option<Bytes>>>)
    requires NullBefore(answers, |answers|)
    ensures Asked(answers) == |answers| && FirstHit(answers) == Ok(None)
  {
    FirstHitIsFirstNonNull(answers);
  }

  /** What a lookup asks each archive for: a path, which each archive
      hashes for its own variant, or a hash, passed on unchanged. */
  datatype Query = ByPath(path: string) | ByHash(hash: U64)

  /** The hash `reader` looks up for `query`. */
  function HashFor(reader: BHD5Reader, query: Query): U64
  {
    match query
    case ByPath(path) => PathHash.ComputeHash(path, reader.game)
    case ByHash(hash) => hash
  }

  /** One reader asked for `query`: by path through its `GetFile`, by hash
      through its `GetFileByHash`. */
  method AskReader(reader: BHD5Reader, query: Query) returns (r: Result<Option<Bytes>>)
    requires reader.Valid()
    modifies reader.data
    ensures reader.Valid()
    ensures r == reader.HashAnswer(HashFor(reader, query))
    ensures reader.data.LookupStep(old(reader.data.State()), reader.data.State(), HashFor(reader, query))
  {
    match query
    case ByPath(path) => r := reader.GetFile(path);
    case ByHash(hash) => r := reader.GetFileByHash(hash);
  }

  /** What each of `readers` answers for `query`, in order. */
  function AnswersOf(readers: seq<BHD5Reader>, query: Query): (answers: seq<Result<Option<Bytes>>>)
    ensures |answers| == |readers|
  {
    if |readers| == 0 then []
    else [readers[0].HashAnswer(HashFor(readers[0], query))] + AnswersOf(readers[1..], query)
  }

  /** The answer at position `i` is reader `i`'s own answer. */
  lemma {:induction false} AnswerAt(readers: seq<BHD5Reader>, query: Query, i: nat)
    requires i < |readers|
    ensures AnswersOf(readers, query)[i] == readers[i].HashAnswer(HashFor(readers[i], query))
  {
    if i > 0 {
      AnswerAt(readers[1..], query, i - 1);
    }
  }

  /** The hash each of `readers` looks up for `query`, in order. */
  function HashesOf(readers: seq<BHD5Reader>, query: Query): (hashes: seq<U64>)
    ensures |hashes| == |readers|
  {
    if |readers| == 0 then []
    else [HashFor(readers[0], query)] + HashesOf(readers[1..], query)
  }

  /** The hash at position `i` is the one reader `i` looks up. */
  lemma {:induction false} HashAt(readers: seq<BHD5Reader>, query: Query, i: nat)
    requires i < |readers|
    ensures HashesOf(readers, query)[i] == HashFor(readers[i], query)
  {
    if i > 0 {
      HashAt(readers[1..], query, i - 1);
    }
  }

  /** The position of the first archive named `archive`, if any. */
  function FirstNamed(names: seq<string>, archive: string): (r: Option<nat>)
    ensures r.Some? ==> r.value < |names| && names[r.value] == archive
    ensures r.Some? ==> forall k :: 0 <= k < r.value ==> names[k] != archive
    ensures r.None? <==> archive !in names
  {
    if |names| == 0 then None
    else if names[0] == archive then Some(0)
    else
      match FirstNamed(names[1..], archive)
      case None => None
      case Some(i) => Some(i + 1)
  }

  /** The first name equal to `archive` is at `i`. */
  lemma FirstNamedAt(names: seq<string>, archive: string, i: nat)
    requires i < |names| && names[i] == archive
    requires forall k :: 0 <= k < i ==> names[k] != archive
    ensures FirstNamed(names, archive) == Some(i)
  {
  }

  /** Archive names never contain a separator, so a name of the archive
      table that does (the `sd\sd` sound archives) selects no archive. */
  lemma NameWithSeparatorSelectsNothing(names: seq<string>, archive: string, at: nat)
    requires forall i, k :: 0 <= i < |names| && 0 <= k < |names[i]| ==> !IsSeparator(names[i][k])
    requires at < |archive| && IsSeparator(archive[at])
    ensures FirstNamed(names, archive) == None
  {
  }

  /** The arguments the constructor passes for one archive, and the reader
      that results: the archive variant, then the key, then the reader's
      own checks, each of which may throw. */
  function PlanArchive(game: BHDGame, archive: string, steamPath: string, cachePath: Option<string>,
                       keys: ArchiveKeys, fileExists: string -> bool): (r: Result<Setup>)
    ensures r.Ok? ==> BhdUtil.ToBHD5Game(game) == Ok(r.value.game)
    ensures r.Ok? ==> BhdUtil.GetArchiveKey(game, archive, keys) == Ok(r.value.key)
  {
    match BhdUtil.ToBHD5Game(game)
    case Err(e) => Err(e)
    case Ok(variant) =>
      match BhdUtil.GetArchiveKey(game, archive, keys)
      case Err(e) => Err(e)
      case Ok(key) => Prepare(steamPath + "/Game/" + archive, variant, key, cachePath, fileExists)
  }

  /** `PlanArchive` for one game, install directory and key table, as a
      function of the archive name. */
  function Opener(game: BHDGame, steamPath: string, cachePath: Option<string>, keys: ArchiveKeys,
                  fileExists: string -> bool): string -> Result<Setup>
  {
    archive => PlanArchive(game, archive, steamPath, cachePath, keys, fileExists)
  }

  /** The constructor's loop: `open` applied to each archive name in order;
      the first archive that throws ends construction with its exception. */
  function OpenAll(names: seq<string>, open: string -> Result<Setup>): (r: Result<seq<Setup>>)
    ensures r.Ok? ==> |r.value| == |names|
  {
    if |names| == 0 then Ok([])
    else
      var last := |names| - 1;
      match OpenAll(names[..last], open)
      case Err(e) => Err(e)
      case Ok(setups) =>
        match open(names[last])
        case Err(e) => Err(e)
        case Ok(s) => Ok(setups + [s])
  }

  /** One more archive: it either extends the readers by one or ends
      construction with its exception. */
  lemma OpenAllStep(names: seq<string>, i: nat, open: string -> Result<Setup>, setups: seq<Setup>)
    requires i < |names|
    requires OpenAll(names[..i], open) == Ok(setups)
    ensures OpenAll(names[..i + 1], open) ==
      match open(names[i])
      case Err(e) => Err(e)
      case Ok(setup) => Ok(setups + [setup])
  {
    assert names[..i + 1][..i] == names[..i];
    assert names[..i + 1][i] == names[i];
  }

  /** Once an archive has thrown, the later archives change nothing. */
  lemma {:induction false} OpenAllStopsAtError(names: seq<string>, i: nat, open: string -> Result<Setup>)
    requires i <= |names|
    requires OpenAll(names[..i], open).Err?
    ensures OpenAll(names, open) == OpenAll(names[..i], open)
  {
    if i < |names| {
      var last := |names| - 1;
      assert names[..last][..i] == names[..i];
      OpenAllStopsAtError(names[..last], i, open);
    } else {
      assert names[..i] == names;
    }
  }

  /** The constructor's loop after `i` archives: the next one either ends
      construction with its exception or extends the readers by one. */
  lemma OpenAllNext(names: seq<string>, i: nat, open: string -> Result<Setup>, setups: seq<Setup>)
    requires i < |names|
    requires OpenAll(names[..i], open) == Ok(setups)
    ensures open(names[i]).Err? ==> OpenAll(names, open) == Err(open(names[i]).error)
    ensures open(names[i]).Ok? ==> OpenAll(names[..i + 1], open) == Ok(setups + [open(names[i]).value])
  {
    OpenAllStep(names, i, open, setups);
    if open(names[i]).Err? {
      OpenAllStopsAtError(names, i + 1, open);
    }
  }

  /** A successful construction holds, at each position, the setup `open`
      gives for the archive named there. */
  lemma {:induction false} OpenAllPointwise(names: seq<string>, open: string -> Result<Setup>)
    requires OpenAll(names, open).Ok?
    ensures forall i :: 0 <= i < |names| ==> open(names[i]) == Ok(OpenAll(names, open).value[i])
  {
    if |names| > 0 {
      var last := |names| - 1;
      OpenAllPointwise(names[..last], open);
      assert forall k :: 0 <= k < last ==> names[..last][k] == names[k];
    }
  }

  /** A failed construction fails with the exception of some archive. */
  lemma {:induction false} OpenAllFailsAtAnArchive(names: seq<string>, open: string -> Result<Setup>)
    requires OpenAll(names, open).Err?
    ensures exists i :: 0 <= i < |names| && open(names[i]) == Err(OpenAll(names, open).error)
  {
    var last := |names| - 1;
    if OpenAll(names[..last], open).Err? {
      OpenAllFailsAtAnArchive(names[..last], open);
      var i :| 0 <= i < last && open(names[..last][i]) == Err(OpenAll(names[..last], open).error);
      assert names[..last][i] == names[i];
    }
  }

  /** A reader freshly built for `setup`: valid, nothing loaded yet, and
      reading the header and data blob the storage holds for `setup`. */
  ghost predicate Unloaded(reader: BHD5Reader, setup: Setup, storage: Storage)
    reads reader.data
  {
    && reader.Valid() && reader.setup == setup
    && reader.data.header.None? && reader.data.fileStream.None?
    && reader.data.makeHeader() == storage.headerOf(setup)
    && reader.data.openStream() == storage.dataOf(setup)
  }

  /** No two readers share an index, so a lookup through one reader
      leaves every other reader's index as it was. */
  ghost predicate Separate(readers: seq<BHD5Reader>)
  {
    forall i, j :: 0 <= i < j < |readers| ==> readers[i].data != readers[j].data
  }

  /** Each reader of `built` is freshly built for the setup at its
      position, and no two of them share an index. */
  ghost predicate AllUnloaded(built: seq<BHD5Reader>, setups: seq<Setup>, storage: Storage)
    reads set k | 0 <= k < |built| :: built[k].data
  {
    && |built| == |setups|
    && (forall k :: 0 <= k < |built| ==> Unloaded(built[k], setups[k], storage))
    && Separate(built)
  }

  lemma AllUnloadedAppend(built: seq<BHD5Reader>, setups: seq<Setup>, reader: BHD5Reader, setup: Setup,
                          storage: Storage)
    requires AllUnloaded(built, setups, storage) && Unloaded(reader, setup, storage)
    requires forall k :: 0 <= k < |built| ==> built[k].data != reader.data
    ensures AllUnloaded(built + [reader], setups + [setup], storage)
  {
  }

  /** One pass of the constructor's loop: the reader of one archive. */
  method OpenArchive(game: BHDGame, archive: string, steamPath: string, cachePath: Option<string>,
                     keys: ArchiveKeys, storage: Storage) returns (r: Result<BHD5Reader>)
    ensures var plan := Opener(game, steamPath, cachePath, keys, storage.fileExists)(archive);
      && (r.Err? <==> plan.Err?)
      && (r.Err? ==> r.error == plan.error)
      && (r.Ok? ==> fresh(r.value) && fresh(r.value.data) && Unloaded(r.value, plan.value, storage))
  {
    var variant := BhdUtil.ToBHD5Game(game);
    if variant.Err? {
      return Err(variant.error);
    }
    var key := BhdUtil.GetArchiveKey(game, archive, keys);
    if key.Err? {
      return Err(key.error);
    }
    r := BHD5Reader.Open(steamPath + "/Game/" + archive, variant.value, key.value, cachePath, storage);
  }

  /** What the constructor does: the Steam application id, the Steam
      install directory (found by `findSteam`), the archive table, then one
      reader per archive. */
  function Plan(game: BHDGame, cachePath: Option<string>, findSteam: string -> Option<string>,
                keys: ArchiveKeys, fileExists: string -> bool): (r: Result<seq<Setup>>)
    ensures r.Ok? ==> BhdUtil.GetAppId(game).Ok? && findSteam(BhdUtil.GetAppId(game).value).Some?
    ensures r.Ok? ==> BhdUtil.ArchiveNames(game).Ok? && |r.value| == |BhdUtil.ArchiveNames(game).value|
  {
    match BhdUtil.GetAppId(game)
    case Err(e) => Err(e)
    case Ok(appId) =>
      match findSteam(appId)
      case None => Err(DirectoryNotFound)
      case Some(steamPath) =>
        match BhdUtil.ArchiveNames(game)
        case Err(e) => Err(e)
        case Ok(names) => OpenAll(names, Opener(game, steamPath, cachePath, keys, fileExists))
  }

  /** Only Dark Souls 3, Sekiro, Elden Ring and Armored Core 6 can be
      opened at all. */
  lemma OnlyFourGamesOpen(game: BHDGame, cachePath: Option<string>, findSteam: string -> Option<string>,
                          keys: ArchiveKeys, fileExists: string -> bool)
    requires Plan(game, cachePath, findSteam, keys, fileExists).Ok?
    ensures game in {DarkSouls3, Sekiro, EldenRing, ArmoredCore6}
  {
    var steamPath := findSteam(BhdUtil.GetAppId(game).value).value;
    var names := BhdUtil.ArchiveNames(game).value;
    OpenAllPointwise(names, Opener(game, steamPath, cachePath, keys, fileExists));
    assert PlanArchive(game, names[0], steamPath, cachePath, keys, fileExists).Ok?;
  }

  /** How each other game fails: Sekiro Bonus has no application id; a game
      without a Steam install fails with `DirectoryNotFoundException`;
      otherwise Dark Souls 1 Remastered has no archive table, Dark Souls 1
      no archive variant, and both Dark Souls 2 editions no key policy. */
  lemma HowTheOtherGamesFail(game: BHDGame, cachePath: Option<string>, findSteam: string -> Option<string>,
                             keys: ArchiveKeys, fileExists: string -> bool)
    ensures game == SekiroBonus ==>
      Plan(game, cachePath, findSteam, keys, fileExists) == Err(ArgumentOutOfRange)
    ensures game != SekiroBonus && findSteam(BhdUtil.GetAppId(game).value).None? ==>
      Plan(game, cachePath, findSteam, keys, fileExists) == Err(DirectoryNotFound)
    ensures game != SekiroBonus && findSteam(BhdUtil.GetAppId(game).value).Some? ==>
      && (game == DarkSouls1Remasterd ==> Plan(game, cachePath, findSteam, keys, fileExists) == Err(KeyNotFound))
      && (game in {DarkSouls1, DarkSouls2, DarkSouls2Scholar} ==>
            Plan(game, cachePath, findSteam, keys, fileExists) == Err(ArgumentOutOfRange))
  {
    if game in {DarkSouls1, DarkSouls2, DarkSouls2Scholar} && findSteam(BhdUtil.GetAppId(game).value).Some? {
      var steamPath := findSteam(BhdUtil.GetAppId(game).value).value;
      var names := BhdUtil.ArchiveNames(game).value;
      assert names[..1][..0] == [];
      var open := Opener(game, steamPath, cachePath, keys, fileExists);
      assert OpenAll(names[..1], open) == Err(ArgumentOutOfRange);
      OpenAllStopsAtError(names, 1, open);
    }
  }

  predicate Plain(name: string)
  {
    forall k :: 0 <= k < |name| ==> name[k] != '.' && !IsSeparator(name[k])
  }

  /** The reader of an archive named without dots or separators reads
      `<steam>/Game/<archive>` with the game's archive variant and answers
      to the archive's own name. */
  lemma PlannedArchive(game: BHDGame, archive: string, steamPath: string, cachePath: Option<string>,
                       keys: ArchiveKeys, fileExists: string -> bool)
    requires Plain(archive)
    requires PlanArchive(game, archive, steamPath, cachePath, keys, fileExists).Ok?
    ensures var setup := PlanArchive(game, archive, steamPath, cachePath, keys, fileExists).value;
      && setup.filePath == steamPath + "/Game/" + archive
      && setup.archiveName == archive
      && setup.game == BhdUtil.ToBHD5Game(game).value
  {
    var dir := steamPath + "/Game/";
    assert dir[|dir| - 1] == '/';
    ArchiveNameOfGamePath(dir, archive, "");
    assert dir + archive + "" == steamPath + "/Game/" + archive;
  }

  /** One pass of the constructor's loop: the reader of archive `i` is
      appended to those of the archives before it, or its exception ends
      the construction. */
  method OpenNext(game: BHDGame, names: seq<string>, i: nat, steamPath: string, cachePath: Option<string>,
                  keys: ArchiveKeys, storage: Storage, built: seq<BHD5Reader>, ghost setups: seq<Setup>)
    returns (r: Result<seq<BHD5Reader>>, ghost setups': seq<Setup>)
    requires i < |names|
    requires OpenAll(names[..i], Opener(game, steamPath, cachePath, keys, storage.fileExists)) == Ok(setups)
    requires AllUnloaded(built, setups, storage)
    ensures var open := Opener(game, steamPath, cachePath, keys, storage.fileExists);
      && (r.Err? ==> OpenAll(names, open) == Err(r.error))
      && (r.Ok? ==> OpenAll(names[..i + 1], open) == Ok(setups') && AllUnloaded(r.value, setups', storage))
  {
    ghost var open := Opener(game, steamPath, cachePath, keys, storage.fileExists);
    var archive := OpenArchive(game, names[i], steamPath, cachePath, keys, storage);
    OpenAllNext(names, i, open, setups);
    if archive.Err? {
      return Err(archive.error), setups;
    }
    assert forall k :: 0 <= k < |built| ==> built[k].data != archive.value.data;
    AllUnloadedAppend(built, setups, archive.value, archive.value.setup, storage);
    return Ok(built + [archive.value]), setups + [archive.value.setup];
  }

  /** The constructor's loop: one reader per archive name, in order,
      until an archive throws. */
  method OpenEach(game: BHDGame, names: seq<string>, steamPath: string, cachePath: Option<string>,
                  keys: ArchiveKeys, storage: Storage) returns (r: Result<seq<BHD5Reader>>)
    ensures var plan := OpenAll(names, Opener(game, steamPath, cachePath, keys, storage.fileExists));
      && (r.Err? <==> plan.Err?)
      && (r.Err? ==> r.error == plan.error)
      && (r.Ok? ==> |r.value| == |plan.value|)
      && (r.Ok? ==> forall i :: 0 <= i < |names| ==> Unloaded(r.value[i], plan.value[i], storage))
      && (r.Ok? ==> Separate(r.value))
  {
    var built: seq<BHD5Reader> := [];
    ghost var setups: seq<Setup> := [];
    ghost var open := Opener(game, steamPath, cachePath, keys, storage.fileExists);
    var i := 0;
    while i < |names|
      invariant 0 <= i <= |names|
      invariant OpenAll(names[..i], open) == Ok(setups)
      invariant AllUnloaded(built, setups, storage)
    {
      var next;
      next, setups := OpenNext(game, names, i, steamPath, cachePath, keys, storage, built, setups);
      if next.Err? {
        return Err(next.error);
      }
      built := next.value;
      i := i + 1;
    }
    assert names[..i] == names;
    return Ok(built);
  }

  /** A game that opens has one reader per archive of its table, in the
      table's order, and each archive named without dots or separators is
      read from `<steam>/Game/<archive>` by a reader answering to that
      name. */
  lemma PlanFollowsTable(game: BHDGame, cachePath: Option<string>, findSteam: string -> Option<string>,
                         keys: ArchiveKeys, fileExists: string -> bool)
    requires Plan(game, cachePath, findSteam, keys, fileExists).Ok?
    ensures var setups := Plan(game, cachePath, findSteam, keys, fileExists).value;
      var names := BhdUtil.ArchiveNames(game).value;
      var steamPath := findSteam(BhdUtil.GetAppId(game).value).value;
      && |setups| == |names|
      && forall i :: 0 <= i < |names| && Plain(names[i]) ==>
           && setups[i].filePath == steamPath + "/Game/" + names[i]
           && setups[i].archiveName == names[i]
           && setups[i].game == BhdUtil.ToBHD5Game(game).value
  {
    var setups := Plan(game, cachePath, findSteam, keys, fileExists).value;
    var names := BhdUtil.ArchiveNames(game).value;
    var steamPath := findSteam(BhdUtil.GetAppId(game).value).value;
    var open := Opener(game, steamPath, cachePath, keys, fileExists);
    assert OpenAll(names, open) == Ok(setups);
    OpenAllPointwise(names, open);
    forall i | 0 <= i < |names| && Plain(names[i])
      ensures setups[i].filePath == steamPath + "/Game/" + names[i]
      ensures setups[i].archiveName == names[i]
      ensures setups[i].game == BhdUtil.ToBHD5Game(game).value
    {
      assert open(names[i]) == Ok(setups[i]);
      PlannedArchive(game, names[i], steamPath, cachePath, keys, fileExists);
    }
  }

  /** The reader of a game: its archive readers, in table order. */
  class GameReader {
    const game: BHDGame
    const readers: seq<BHD5Reader>

    /** The index objects the lookups may update. */
    ghost function Repr(): set<object>
    {
      set i | 0 <= i < |readers| :: readers[i].data
    }

    ghost predicate Valid()
      reads Repr()
    {
      && (forall i :: 0 <= i < |readers| ==> readers[i].Valid())
      && Separate(readers)
    }

    constructor (game: BHDGame, readers: seq<BHD5Reader>)
      requires forall i :: 0 <= i < |readers| ==> readers[i].Valid()
      requires Separate(readers)
      ensures this.game == game && this.readers == readers
      ensures Valid()
    {
      this.game := game;
      this.readers := readers;
    }

    /** The archive names of the readers, in order. */
    function Names(): seq<string>
    {
      seq(|readers|, i requires 0 <= i < |readers| => readers[i].archiveName)
    }

    /** What each reader answers for `query`, in order. */
    function Answers(query: Query): seq<Result<Option<Bytes>>>
    {
      AnswersOf(readers, query)
    }

    /** The answer of the first reader named `archive`, null or not; null
        when no reader has that name. */
    function InArchive(answers: seq<Result<Option<Bytes>>>, archive: string): Result<Option<Bytes>>
      requires |answers| == |readers|
    {
      match FirstNamed(Names(), archive)
      case None => Ok(None)
      case Some(i) => answers[i]
    }

    /** The constructor: fails as `Plan` says, and otherwise holds one
        fresh reader per planned archive, none of which has loaded
        anything. */
    static method Create(game: BHDGame, cachePath: Option<string>, findSteam: string -> Option<string>,
                         keys: ArchiveKeys, storage: Storage) returns (r: Result<GameReader>)
      ensures r.Err? <==> Plan(game, cachePath, findSteam, keys, storage.fileExists).Err?
      ensures r.Err? ==> r.error == Plan(game, cachePath, findSteam, keys, storage.fileExists).error
      ensures r.Ok? ==>
        var setups := Plan(game, cachePath, findSteam, keys, storage.fileExists).value;
        && fresh(r.value) && r.value.Valid() && r.value.game == game
        && |r.value.readers| == |setups|
        && forall i :: 0 <= i < |setups| ==> Unloaded(r.value.readers[i], setups[i], storage)
    {
      var appId := BhdUtil.GetAppId(game);
      if appId.Err? {
        return Err(appId.error);
      }
      var steamPath := findSteam(appId.value);
      if steamPath.None? {
        return Err(DirectoryNotFound);
      }
      var archives := BhdUtil.ArchiveNames(game);
      if archives.Err? {
        return Err(archives.error);
      }
      var built := OpenEach(game, archives.value, steamPath.value, cachePath, keys, storage);
      if built.Err? {
        return Err(built.error);
      }
      var reader := new GameReader(game, built.value);
      return Ok(reader);
    }

    /** The states of the readers' indexes, in order. */
    ghost function States(): (states: seq<IndexState>)
      reads Repr()
      ensures |states| == |readers|
    {
      seq(|readers|, j reads Repr() requires 0 <= j < |readers| => readers[j].data.State())
    }

    /** Relative to the states `before`: the readers `lo` to `hi - 1` have
        each made the lookup step for their hash in `hashes`, and every
        other reader is as it was. */
    ghost predicate AskedRange(lo: nat, hi: nat, hashes: seq<U64>, before: seq<IndexState>)
      reads Repr()
    {
      && lo <= hi <= |readers| && |before| == |readers| && |hashes| == |readers|
      && (forall j :: lo <= j < hi ==> readers[j].data.LookupStep(before[j], readers[j].data.State(), hashes[j]))
      && (forall j :: 0 <= j < |readers| && !(lo <= j < hi) ==> readers[j].data.State() == before[j])
    }

    /** Asks reader `i`, the next after the range `lo` to `i - 1`: its
        answer, and the range extended by `i`. */
    method Ask(lo: nat, i: nat, query: Query, ghost before: seq<IndexState>) returns (r: Result<Option<Bytes>>)
      requires Valid() && i < |readers| && AskedRange(lo, i, HashesOf(readers, query), before)
      modifies readers[i].data
      ensures Valid()
      ensures r == Answers(query)[i]
      ensures AskedRange(lo, i + 1, HashesOf(readers, query), before)
    {
      AnswerAt(readers, query, i);
      HashAt(readers, query, i);
      ghost var mid := States();
      r := AskReader(readers[i], query);
      forall j | 0 <= j < |readers| && j != i
        ensures readers[j].data.State() == mid[j] && readers[j].Valid()
      {
        assert readers[j].data != readers[i].data;
      }
    }

    /** The loop of `GetFile` and `GetFileByHash`: the first non-null
        answer of the readers, in order; null when every reader answers
        null. It returns at that answer, so only the readers up to it are
        asked (and load their indexes); the later ones are left untouched. */
    method FirstHitScan(query: Query) returns (r: Result<Option<Bytes>>)
      requires Valid()
      modifies Repr()
      ensures Valid()
      ensures r == FirstHit(Answers(query))
      ensures AskedRange(0, Asked(Answers(query)), HashesOf(readers, query), old(States()))
    {
      ghost var answers := Answers(query);
      ghost var before := States();
      var i := 0;
      while i < |readers|
        invariant 0 <= i <= |readers|
        invariant Valid()
        invariant NullBefore(answers, i)
        invariant AskedRange(0, i, HashesOf(readers, query), before)
      {
        var bytes := Ask(0, i, query, before);
        if bytes != Ok(None) {
          FirstHitAt(answers, i);
          return bytes;
        }
        NullBeforeStep(answers, i);
        i := i + 1;
      }
      NoHit(answers);
      return Ok(None);
    }

    /** The loop of `GetFileInArchive` and `GetFileByHashInArchive`: asks
        only the first reader named `archive`, and returns its answer even
        when that is null; every other reader is left untouched. */
    method NamedScan(query: Query, archive: string) returns (r: Result<Option<Bytes>>)
      requires Valid()
      modifies Repr()
      ensures Valid()
      ensures r == InArchive(Answers(query), archive)
      ensures FirstNamed(Names(), archive).None? ==> AskedRange(0, 0, HashesOf(readers, query), old(States()))
      ensures FirstNamed(Names(), archive).Some? ==>
        var k := FirstNamed(Names(), archive).value;
        AskedRange(k, k + 1, HashesOf(readers, query), old(States()))
    {
      // The search changes nothing; the one call after it is the return
      // inside the loop of the C# method.
      ghost var before := States();
      var i := 0;
      while i < |readers| && readers[i].ArchiveName() != archive
        invariant 0 <= i <= |readers|
        invariant forall k :: 0 <= k < i ==> Names()[k] != archive
      {
        i := i + 1;
      }
      if i == |readers| {
        return Ok(None);
      }
      FirstNamedAt(Names(), archive, i);
      r := Ask(i, i, query, before);
    }

    /** `GetFile(string)`: the first-hit scan, each reader hashing the path
        for its own variant. */
    method GetFile(filePath: string) returns (r: Result<Option<Bytes>>)
      requires Valid()
      modifies Repr()
      ensures Valid()
      ensures r == FirstHit(Answers(ByPath(filePath)))
      ensures forall j :: 0 <= j < Asked(Answers(ByPath(filePath))) ==>
        readers[j].data.LookupStep(old(readers[j].data.State()), readers[j].data.State(),
                                   PathHash.ComputeHash(filePath, readers[j].game))
      ensures forall j :: Asked(Answers(ByPath(filePath))) <= j < |readers| ==>
        readers[j].data.State() == old(readers[j].data.State())
    {
      ghost var before := States();
      r := FirstHitScan(ByPath(filePath));
      forall j | 0 <= j < |readers|
        ensures HashesOf(readers, ByPath(filePath))[j] == HashFor(readers[j], ByPath(filePath))
        ensures before[j] == old(readers[j].data.State())
      {
        HashAt(readers, ByPath(filePath), j);
      }
    }

    /** `GetFileByHash(ulong)`: the first-hit scan with the hash as given. */
    method GetFileByHash(fileHash: U64) returns (r: Result<Option<Bytes>>)
      requires Valid()
      modifies Repr()
      ensures Valid()
      ensures r == FirstHit(Answers(ByHash(fileHash)))
      ensures forall j :: 0 <= j < Asked(Answers(ByHash(fileHash))) ==>
        readers[j].data.LookupStep(old(readers[j].data.State()), readers[j].data.State(), fileHash)
      ensures forall j :: Asked(Answers(ByHash(fileHash))) <= j < |readers| ==>
        readers[j].data.State() == old(readers[j].data.State())
    {
      ghost var before := States();
      r := FirstHitScan(ByHash(fileHash));
      forall j | 0 <= j < |readers|
        ensures HashesOf(readers, ByHash(fileHash))[j] == HashFor(readers[j], ByHash(fileHash))
        ensures before[j] == old(readers[j].data.State())
      {
        HashAt(readers, ByHash(fileHash), j);
      }
    }

    /** `GetFileInArchive(string, string)`: the named scan for a path. */
    method GetFileInArchive(filePath: string, archive: string) returns (r: Result<Option<Bytes>>)
      requires Valid()
      modifies Repr()
      ensures Valid()
      ensures r == InArchive(Answers(ByPath(filePath)), archive)
      ensures forall j :: 0 <= j < |readers| && FirstNamed(Names(), archive) == Some(j) ==>
        readers[j].data.LookupStep(old(readers[j].data.State()), readers[j].data.State(),
                                   PathHash.ComputeHash(filePath, readers[j].game))
      ensures forall j :: 0 <= j < |readers| && FirstNamed(Names(), archive) != Some(j) ==>
        readers[j].data.State() == old(readers[j].data.State())
    {
      ghost var before := States();
      r := NamedScan(ByPath(filePath), archive);
      forall j | 0 <= j < |readers|
        ensures HashesOf(readers, ByPath(filePath))[j] == HashFor(readers[j], ByPath(filePath))
        ensures before[j] == old(readers[j].data.State())
      {
        HashAt(readers, ByPath(filePath), j);
      }
    }

    /** `GetFileByHashInArchive(ulong, string)`: the named scan for a hash. */
    method GetFileByHashInArchive(fileHash: U64, archive: string) returns (r: Result<Option<Bytes>>)
      requires Valid()
      modifies Repr()
      ensures Valid()
      ensures r == InArchive(Answers(ByHash(fileHash)), archive)
      ensures forall j :: 0 <= j < |readers| && FirstNamed(Names(), archive) == Some(j) ==>
        readers[j].data.LookupStep(old(readers[j].data.State()), readers[j].data.State(), fileHash)
      ensures forall j :: 0 <= j < |readers| && FirstNamed(Names(), archive) != Some(j) ==>
        readers[j].data.State() == old(readers[j].data.State())
    {
      ghost var before := States();
      r := NamedScan(ByHash(fileHash), archive);
      forall j | 0 <= j < |readers|
        ensures HashesOf(readers, ByHash(fileHash))[j] == HashFor(readers[j], ByHash(fileHash))
        ensures before[j] == old(readers[j].data.State())
      {
        HashAt(readers, ByHash(fileHash), j);
      }
    }

    /** The sound archive is known to the readers as `sd`: asking for it
        under its table name `sd\sd` finds no archive and answers null. */
    lemma SoundArchiveTableNameAnswersNull(answers: seq<Result<Option<Bytes>>>)
      requires Valid() && |answers| == |readers|
      ensures InArchive(answers, "sd\\sd") == Ok(None)
    {
      var names := Names();
      forall i, k | 0 <= i < |names| && 0 <= k < |names[i]|
        ensures !IsSeparator(names[i][k])
      {
        assert readers[i].Valid();
      }
      NameWithSeparatorSelectsNothing(names, "sd\\sd", 2);
    }
  }
}
