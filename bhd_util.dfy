/** The `BHDUtil` revision of the game tables, the one `GameReader` uses:
    the archive names of each game, its RSA key policy, its BHD5 variant
    (and with it the hash width) and its Steam application id. */
module BhdUtil {
  import opened Types
  import opened Games
  import PathHash
  import BHD5
  import GameExtensions

  /** `_bhdPaths`: the archives of each game, in load order. Dark Souls 1
      Remastered has no entry. */
  const BhdPaths: map<BHDGame, seq<string>> := map[
    DarkSouls1 := ["dvdbnd0", "dvdbnd1", "dvdbnd2", "dvdbnd3"],
    DarkSouls2 := ["GameDataEbl", "HqChrEbl", "HqMapEbl", "HqObjEbl"],
    DarkSouls2Scholar := ["GameDataEbl", "LqChrEbl", "LqMapEbl", "LqObjEbl"],
    DarkSouls3 := ["Data1", "Data2", "Data3", "Data4", "Data5", "DLC1", "DLC2"],
    Sekiro := ["Data1", "Data2", "Data3", "Data4", "Data5"],
    SekiroBonus := ["Data"],
    EldenRing := ["Data0", "Data1", "Data2", "Data3", "DLC", "sd\\sd", "sd\\sd_dlc02"],
    ArmoredCore6 := ["Data0", "Data1", "Data2", "Data3", "sd\\sd"]
  ]

  /** `ArchiveNames`: `_bhdPaths[game]`, which throws `KeyNotFoundException`
      for a game without an entry. */
  function ArchiveNames(game: BHDGame): (r: Result<seq<string>>)
    ensures r.Ok? <==> game != DarkSouls1Remasterd
    ensures r.Err? ==> r.error == KeyNotFound
    ensures r.Ok? ==> |r.value| > 0
  {
    DeclaredMembersExactly(game);
    assert BhdPaths.Keys == set g | g in DeclaredMembers;
    if game in BhdPaths then Ok(BhdPaths[game]) else Err(KeyNotFound)
  }

  /** The dictionary `GetArchiveKey` consults for a game whose archives are
      encrypted with a known key. */
  function KeyTable(game: BHDGame, keys: ArchiveKeys): map<string, string>
    requires game in {DarkSouls3, Sekiro, SekiroBonus, EldenRing, ArmoredCore6}
  {
    match game
    case DarkSouls3 => keys.darkSouls3
    case Sekiro => keys.sekiro
    case SekiroBonus => keys.sekiroBonus
    case EldenRing => keys.eldenRing
    case ArmoredCore6 => keys.armoredCore6
  }

  /** `GetArchiveKey`: no key (null) for both Dark Souls 1 editions, an
      exception for both Dark Souls 2 editions (the dictionary lookup after
      the `throw` is unreachable), and otherwise that game's dictionary
      indexed by archive name. */
  function GetArchiveKey(game: BHDGame, archiveName: string, keys: ArchiveKeys): (r: Result<Option<string>>)
    ensures game in {DarkSouls1, DarkSouls1Remasterd} <==> r == Ok(None)
    ensures game in {DarkSouls2, DarkSouls2Scholar} <==> r == Err(ArgumentOutOfRange)
    ensures game in {DarkSouls3, Sekiro, SekiroBonus, EldenRing, ArmoredCore6} ==>
      (r.Ok? <==> archiveName in KeyTable(game, keys)) &&
      (r.Ok? ==> r.value == Some(KeyTable(game, keys)[archiveName])) &&
      (r.Err? ==> r.error == KeyNotFound)
  {
    match game
    case DarkSouls1 | DarkSouls1Remasterd => Ok(None)
    case DarkSouls2 | DarkSouls2Scholar => Err(ArgumentOutOfRange)
    case DarkSouls3 => Index(keys.darkSouls3, archiveName)
    case Sekiro => Index(keys.sekiro, archiveName)
    case SekiroBonus => Index(keys.sekiroBonus, archiveName)
    case EldenRing => Index(keys.eldenRing, archiveName)
    case ArmoredCore6 => Index(keys.armoredCore6, archiveName)
  }

  /** `ToBHD5Game`: both Dark Souls 1 editions throw; the others map to the
      BHD5 variant their archives use. */
  function ToBHD5Game(game: BHDGame): (r: Result<BHD5.Game>)
    ensures r.Err? <==> game in {DarkSouls1, DarkSouls1Remasterd}
    ensures r.Err? ==> r.error == ArgumentOutOfRange
  {
    match game
    case DarkSouls1 | DarkSouls1Remasterd => Err(ArgumentOutOfRange)
    case DarkSouls2 | DarkSouls2Scholar => Ok(BHD5.DarkSouls2)
    case DarkSouls3 | Sekiro | SekiroBonus => Ok(BHD5.DarkSouls3)
    case EldenRing | ArmoredCore6 => Ok(BHD5.EldenRing)
  }

  /** Only Elden Ring and Armored Core 6 hash paths with 64 bits; every
      other game that has a BHD5 variant hashes with 32 bits. */
  lemma SixtyFourBitHashOnlyForEldenRingAndArmoredCore6(game: BHDGame)
    requires ToBHD5Game(game).Ok?
    ensures PathHash.WidthOf(ToBHD5Game(game).value) == PathHash.Bits64
      <==> game in {EldenRing, ArmoredCore6}
  {
  }

  /** `GetAppId`: Sekiro Bonus throws; every other game has its own Steam
      application id. */
  function GetAppId(game: BHDGame): (r: Result<string>)
    ensures r.Err? <==> game == SekiroBonus
    ensures r.Err? ==> r.error == ArgumentOutOfRange
  {
    match game
    case DarkSouls1 => Ok("211420")
    case DarkSouls1Remasterd => Ok("570940")
    case DarkSouls2 => Ok("236430")
    case DarkSouls2Scholar => Ok("335300")
    case DarkSouls3 => Ok("374320")
    case Sekiro => Ok("814380")
    case SekiroBonus => Err(ArgumentOutOfRange)
    case EldenRing => Ok("1245620")
    case ArmoredCore6 => Ok("1888160")
  }

  /** No two games share a Steam application id. */
  lemma AppIdsDistinct(g1: BHDGame, g2: BHDGame)
    requires GetAppId(g1).Ok? && GetAppId(g2).Ok?
    ensures GetAppId(g1).value == GetAppId(g2).value ==> g1 == g2
  {
  }

  predicate Distinct(names: seq<string>)
  {
    forall i, j :: 0 <= i < j < |names| ==> names[i] != names[j]
  }

  /** Within each game the archive names are pairwise distinct, so a
      lookup by archive name can match at most one archive. */
  lemma ArchiveNamesDistinct(game: BHDGame)
    requires ArchiveNames(game).Ok?
    ensures Distinct(ArchiveNames(game).value)
  {
  }

  /** On every member of the enum declaration both revisions of the game
      tables agree; on `DarkSouls1Remasterd`, which only this revision
      names, they disagree about the application id and the key policy. */
  lemma RevisionsAgree(game: BHDGame, archiveName: string, keys: ArchiveKeys)
    ensures game in DeclaredMembers ==>
      && GameExtensions.ToBHD5Game(game) == ToBHD5Game(game)
      && GameExtensions.GetAppId(game) == GetAppId(game)
      && GameExtensions.GetArchiveKey(game, archiveName, keys) == GetArchiveKey(game, archiveName, keys)
    ensures game == DarkSouls1Remasterd ==>
      && GameExtensions.GetAppId(game) != GetAppId(game)
      && GameExtensions.GetArchiveKey(game, archiveName, keys) != GetArchiveKey(game, archiveName, keys)
  {
  }
}
