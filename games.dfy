/** The games the reader knows (`BHDGame`) and the per-game RSA key
    dictionaries (`ArchiveKeys`), whose PEM contents are left abstract. */
module Games {
  import opened Types

  /** `BHDGame`. `DarkSouls1Remasterd` is named by the `BHDUtil` revision of
      the game tables but is missing from the enum declaration; it is kept
      here so that both revisions can be stated over one type. */
  datatype BHDGame =
    | DarkSouls1
    | DarkSouls2
    | DarkSouls2Scholar
    | DarkSouls3
    | Sekiro
    | SekiroBonus
    | EldenRing
    | ArmoredCore6
    | DarkSouls1Remasterd

  /** The members of the enum declaration, in declared order. */
  const DeclaredMembers: seq<BHDGame> :=
    [DarkSouls1, DarkSouls2, DarkSouls2Scholar, DarkSouls3, Sekiro, SekiroBonus, EldenRing, ArmoredCore6]

  /** The enum declaration has eight pairwise distinct members, and every
      game but `DarkSouls1Remasterd` is one of them. */
  lemma DeclaredMembersExactly(g: BHDGame)
    ensures |DeclaredMembers| == 8
    ensures forall i, j :: 0 <= i < j < |DeclaredMembers| ==> DeclaredMembers[i] != DeclaredMembers[j]
    ensures g in DeclaredMembers <==> g != DarkSouls1Remasterd
  {
  }

  /** The `ArchiveKeys` dictionaries: archive name to PEM text, per game.
      (The Dark Souls 2 dictionary is only reached from dead code.) */
  datatype ArchiveKeys = ArchiveKeys(
    darkSouls3: map<string, string>,
    sekiro: map<string, string>,
    sekiroBonus: map<string, string>,
    eldenRing: map<string, string>,
    armoredCore6: map<string, string>)

  /** `dictionary[name]`: the value, or `KeyNotFoundException`. */
  function Index(dictionary: map<string, string>, name: string): (r: Result<Option<string>>)
    ensures r.Ok? <==> name in dictionary
    ensures r.Ok? ==> r.value == Some(dictionary[name])
    ensures r.Err? ==> r.error == KeyNotFound
  {
    if name in dictionary then Ok(Some(dictionary[name])) else Err(KeyNotFound)
  }
}

/** The `BHDGameExtensions` revision of the game tables (the one declared
    next to the enum): `switch` statements that return or fall through to
    an `ArgumentOutOfRangeException`. */
module GameExtensions {
  import opened Types
  import opened Games
  import BHD5

  /** `ToBHD5Game`: Dark Souls 1 is commented out and falls through. */
  function ToBHD5Game(game: BHDGame): (r: Result<BHD5.Game>)
    ensures r.Err? <==> game in {DarkSouls1, DarkSouls1Remasterd}
    ensures r.Err? ==> r.error == ArgumentOutOfRange
  {
    match game
    case DarkSouls2 | DarkSouls2Scholar => Ok(BHD5.DarkSouls2)
    case DarkSouls3 | Sekiro | SekiroBonus => Ok(BHD5.DarkSouls3)
    case EldenRing | ArmoredCore6 => Ok(BHD5.EldenRing)
    case _ => Err(ArgumentOutOfRange)
  }

  /** `GetAppId`: Sekiro Bonus is commented out and falls through. */
  function GetAppId(game: BHDGame): (r: Result<string>)
    ensures r.Err? <==> game in {SekiroBonus, DarkSouls1Remasterd}
    ensures r.Err? ==> r.error == ArgumentOutOfRange
  {
    match game
    case DarkSouls1 => Ok("211420")
    case DarkSouls2 => Ok("236430")
    case DarkSouls2Scholar => Ok("335300")
    case DarkSouls3 => Ok("374320")
    case Sekiro => Ok("814380")
    case EldenRing => Ok("1245620")
    case ArmoredCore6 => Ok("1888160")
    case _ => Err(ArgumentOutOfRange)
  }

  /** `GetArchiveKey`: no key for Dark Souls 1, the Dark Souls 2 cases are
      commented out and fall through, the others index their dictionary. */
  function GetArchiveKey(game: BHDGame, archiveName: string, keys: ArchiveKeys): (r: Result<Option<string>>)
    ensures game == DarkSouls1 ==> r == Ok(None)
    ensures game in {DarkSouls2, DarkSouls2Scholar, DarkSouls1Remasterd} ==> r == Err(ArgumentOutOfRange)
    ensures r.Ok? && r.value.Some? ==> game in {DarkSouls3, Sekiro, SekiroBonus, EldenRing, ArmoredCore6}
  {
    match game
    case DarkSouls1 => Ok(None)
    case DarkSouls3 => Index(keys.darkSouls3, archiveName)
    case Sekiro => Index(keys.sekiro, archiveName)
    case SekiroBonus => Index(keys.sekiroBonus, archiveName)
    case EldenRing => Index(keys.eldenRing, archiveName)
    case ArmoredCore6 => Index(keys.armoredCore6, archiveName)
    case _ => Err(ArgumentOutOfRange)
  }
}
