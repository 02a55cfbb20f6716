/** `BHDNames`: a second copy of the archive-name table, keyed by the enum
    declaration's eight games. */
module BhdNames {
  import opened Types
  import opened Games
  import BhdUtil

  /** `_bhdPaths`, one entry per member of the enum declaration. */
  const BhdPaths: map<BHDGame, seq<string>> := map[
    DarkSouls1 := ["dvdbnd0", "dvdbnd1", "dvdbnd2", "dvdbnd3"],
    DarkSouls2 := ["GameDataEbl", "HqChrEbl", "HqMapEbl", "HqObjEbl"],
    DarkSouls2Scholar := ["GameDataEbl", "LqChrEbl", "LqMapEbl", "LqObjEbl"],
    DarkSouls3 := ["Data1", "Data2", "Data3", "Data4", "Data5", "DLC1", "DLC2"],
    Sekiro := ["Data1", "Data2", "Data3", "Data4", "Data5"],
    SekiroBonus := ["Data"],
    EldenRing := ["Data0", "Data1", "Data2", "Data3", "DLC", "sd\\sd", "sd\\sd_dlc02"],
    ArmoredCore6 := ["Data0", "Data1", "Data2", "Data3", "sd\\sd"]
  ]

  /** `GetBHDPaths`: `_bhdPaths[game]`, which throws `KeyNotFoundException`
      for a game without an entry. */
  function GetBHDPaths(game: BHDGame): (r: Result<seq<string>>)
    ensures game in DeclaredMembers ==> r.Ok? && |r.value| > 0
    ensures r.Err? ==> r.error == KeyNotFound
  {
    DeclaredMembersExactly(game);
    assert BhdPaths.Keys == set g | g in DeclaredMembers;
    if game in BhdPaths then Ok(BhdPaths[game]) else Err(KeyNotFound)
  }

  /** Every game's archive names are pairwise distinct. */
  lemma PathsDistinct(game: BHDGame)
    requires game in DeclaredMembers
    ensures BhdUtil.Distinct(GetBHDPaths(game).value)
  {
  }

  /** The list comes back in declared order: Elden Ring's starts with the
      base archive and ends with the second DLC's sound archive. */
  lemma EldenRingOrder()
    ensures var names := GetBHDPaths(EldenRing).value;
      |names| == 7 && names[0] == "Data0" && names[6] == "sd\\sd_dlc02"
  {
  }

  /** This table is entry for entry the table of the `BHDUtil` revision, on
      every game of the enum declaration. */
  lemma SameAsBhdUtil(game: BHDGame)
    requires game in DeclaredMembers
    ensures GetBHDPaths(game) == BhdUtil.ArchiveNames(game)
  {
  }
}
