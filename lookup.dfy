/** The lookup side of a sound bank: the enumeration tables that turn packed indices into
    tokens and back, and the table that recovers names from 32-bit hashes. Every bank carries
    the same tables, so they are constants here and the functions take them as arguments. */
module Lookup {
  import opened Common
  import opened Text
  import opened Hashing

  const BoolTable: seq<string> := [
    "no", "yes"
  ]

  const PanTypeTable: seq<string> := [
    "2d", "3d"
  ]

  const LoopingTable: seq<string> := [
    "nonlooping", "looping"
  ]

  const StorageTable: seq<string> := [
    "unknown", "loaded", "streamed", "primed"
  ]

  const FluxTypeTable: seq<string> := [
    "none", "left_player", "center_player", "right_player", "random_player", "left_shot",
    "center_shot", "right_shot", "random_direction"
  ]

  const RandomizeTypeTable: seq<string> := [
    "variant", "volume", "pitch"
  ]

  const CurveTable: seq<string> := [
    "default", "defaultmin", "allon", "alloff", "rcurve0", "rcurve1", "rcurve2", "rcurve3",
    "rcurve4", "rcurve5", "steep", "sindelay", "cosdelay", "sin", "cos", "rev60", "rev65"
  ]

  const PanFirst: seq<string> := [
    "default", "music", "wpn_all", "wpn_fnt", "wpn_rear", "wpn_left", "wpn_right", "music_all",
    "fly_foot_all", "front", "back", "front_mostly", "back_mostly", "all", "center",
    "center_mostly", "front_and_center", "lfe"
  ]
  const PanSecond: seq<string> := [
    "quad", "front_mostly_some_center", "front_halfback", "halffront_back", "test",
    "brass_right", "brass_left", "veh_back", "tst_left", "tst_center", "tst_right",
    "tst_surround_left", "tst_surround_right", "tst_lfe", "tst_back_left", "tst_back_right",
    "pip", "movie_vo"
  ]
  const PanTable: seq<string> := PanFirst + PanSecond

  const DuckGroupA: seq<string> := [
    "snp_alerts_gameplay", "snp_ambience", "snp_claw", "snp_destructible", "snp_dying",
    "snp_dying_ice", "snp_evt_2d", "snp_explosion", "snp_foley", "snp_grenade"
  ]
  const DuckGroupB: seq<string> := [
    "snp_hdrfx", "snp_igc", "snp_impacts", "snp_menu", "snp_movie", "snp_music",
    "snp_never_duck", "snp_player_dead", "snp_player_impacts", "snp_scripted_moment"
  ]
  const DuckGroupC: seq<string> := [
    "snp_set_piece", "snp_special", "snp_vehicle", "snp_vehicle_interior", "snp_voice",
    "snp_voice_announcer", "snp_weapon_decay_1p", "snp_whizby", "snp_wpn_1p"
  ]
  const DuckGroupD: seq<string> := [
    "snp_wpn_1p_act", "snp_wpn_1p_ads", "snp_wpn_1p_shot", "snp_wpn_3p", "snp_wpn_3p_decay",
    "snp_wpn_turret", "snp_x2", "snp_x3", "snp_distant_explosions"
  ]
  const DuckGroupTable: seq<string> := DuckGroupA + DuckGroupB + DuckGroupC + DuckGroupD

  const VolumeGroupFirst: seq<string> := [
    "grp_air", "grp_alerts", "grp_ambience", "grp_announcer", "grp_bink", "grp_destructible",
    "grp_explosion", "grp_foley", "grp_hdrfx", "grp_igc", "grp_impacts", "grp_lfe", "grp_master",
    "grp_menu"
  ]
  const VolumeGroupSecond: seq<string> := [
    "grp_mp_game", "grp_music", "grp_physics", "grp_player_foley", "grp_player_impacts",
    "grp_reference", "grp_scripted_moment", "grp_set_piece", "grp_vehicle", "grp_voice",
    "grp_weapon", "grp_weapon_3p", "grp_weapon_decay_3p", "grp_whizby", "grp_wpn_lfe"
  ]
  const VolumeGroupTable: seq<string> := VolumeGroupFirst + VolumeGroupSecond

  const BusTable: seq<string> := [
    "BUS_FX", "BUS_VOICE", "BUS_PFUTZ", "BUS_HDRFX", "BUS_UI", "BUS_MUSIC", "BUS_MOVIE",
    "BUS_REFERENCE"
  ]

  const LimitTypeTable: seq<string> := [
    "none", "oldest", "reject", "priority"
  ]

  const Arrays: map<string, seq<string>> := map[
    "Bool" := BoolTable,
    "PanType" := PanTypeTable,
    "Looping" := LoopingTable,
    "Storage" := StorageTable,
    "FluxType" := FluxTypeTable,
    "RandomizeType" := RandomizeTypeTable,
    "Curve" := CurveTable,
    "Pan" := PanTable,
    "DuckGroup" := DuckGroupTable,
    "VolumeGroup" := VolumeGroupTable,
    "Bus" := BusTable,
    "LimitType" := LimitTypeTable
  ]

  predicate Distinct(t: seq<string>) {
    forall i, j :: 0 <= i < j < |t| ==> t[i] != t[j]
  }

  /** SoundBank.GetArrayValue: the token at the index, or "" for an unknown table or an
      index outside it. */
  function GetArrayValue(arrays: map<string, seq<string>>, arrayName: string, index: int): (r: string)
    ensures arrayName in arrays && 0 <= index < |arrays[arrayName]| ==> r == arrays[arrayName][index]
    ensures !(arrayName in arrays && 0 <= index < |arrays[arrayName]|) ==> r == ""
  {
    if arrayName in arrays && 0 <= index < |arrays[arrayName]| then arrays[arrayName][index] else ""
  }

  /** List.FindIndex with an ordinal Equals, searching from position i: the first match, or -1. */
  function FindIndex(t: seq<string>, value: string, i: nat): (r: int)
    requires i <= |t|
    ensures r == -1 || (i <= r < |t| && t[r] == value)
    ensures r == -1 <==> forall j :: i <= j < |t| ==> t[j] != value
    ensures r != -1 ==> forall j :: i <= j < r ==> t[j] != value
    decreases |t| - i
  {
    if i == |t| then -1 else if t[i] == value then i else FindIndex(t, value, i + 1)
  }

  /** SoundBank.LookUpArrayIndex: the first position of the token in the table, and 0 when the
      token or the table is missing. */
  function LookUpArrayIndex(arrays: map<string, seq<string>>, arrayName: string, value: string): (r: int)
    ensures r >= 0
    ensures arrayName in arrays && value in arrays[arrayName] ==>
      r < |arrays[arrayName]| && arrays[arrayName][r] == value
      && forall j :: 0 <= j < r ==> arrays[arrayName][j] != value
    ensures !(arrayName in arrays && value in arrays[arrayName]) ==> r == 0
  {
    var result := if arrayName in arrays then FindIndex(arrays[arrayName], value, 0) else -1;
    if result < 0 then 0 else result
  }

  /** In a table without repeated tokens, the token found at an index leads back to it. */
  lemma IndexOfArrayValue(arrays: map<string, seq<string>>, arrayName: string, index: int)
    requires arrayName in arrays && Distinct(arrays[arrayName])
    requires 0 <= index < |arrays[arrayName]|
    ensures LookUpArrayIndex(arrays, arrayName, GetArrayValue(arrays, arrayName, index)) == index
  {
    assert arrays[arrayName][index] in arrays[arrayName];
  }

  /** An index outside a table without an empty token decodes to "" and encodes back as 0. */
  lemma OutOfRangeIndex(arrays: map<string, seq<string>>, arrayName: string, index: int)
    requires arrayName in arrays && "" !in arrays[arrayName]
    requires !(0 <= index < |arrays[arrayName]|)
    ensures GetArrayValue(arrays, arrayName, index) == ""
    ensures LookUpArrayIndex(arrays, arrayName, GetArrayValue(arrays, arrayName, index)) == 0
  {
  }

  predicate Proper(t: seq<string>) {
    |t| > 0 && Distinct(t) && "" !in t
  }

  lemma SmallTablesProper()
    ensures Proper(BoolTable) && Proper(PanTypeTable) && Proper(LoopingTable) && Proper(StorageTable)
    ensures Proper(FluxTypeTable) && Proper(RandomizeTypeTable) && Proper(CurveTable)
    ensures Proper(BusTable) && Proper(LimitTypeTable)
  {
  }

  /** Two token lists without repeats and without a common token concatenate to one. */
  lemma DistinctConcat(a: seq<string>, b: seq<string>)
    requires Distinct(a) && Distinct(b)
    requires Apart(a, b)
    ensures Distinct(a + b)
  {
    forall i, j | 0 <= i < j < |a + b|
      ensures (a + b)[i] != (a + b)[j]
    {
      if j < |a| {
        assert (a + b)[i] == a[i] && (a + b)[j] == a[j];
      } else if i < |a| {
        assert (a + b)[i] == a[i] && (a + b)[j] == b[j - |a|];
      } else {
        assert (a + b)[i] == b[i - |a|] && (a + b)[j] == b[j - |a|];
      }
    }
  }

  lemma PanHalvesProper()
    ensures Proper(PanFirst) && Proper(PanSecond)
  {
  }

  lemma PanHalvesApart()
    ensures Apart(PanFirst, PanSecond)
  {
  }

  lemma PanProper() ensures Proper(PanTable)
  {
    PanHalvesProper();
    PanHalvesApart();
    DistinctConcat(PanFirst, PanSecond);
  }

  predicate Apart(a: seq<string>, b: seq<string>) {
    forall i, j :: 0 <= i < |a| && 0 <= j < |b| ==> a[i] != b[j]
  }

  lemma ApartConcat(a1: seq<string>, a2: seq<string>, b: seq<string>)
    requires Apart(a1, b) && Apart(a2, b)
    ensures Apart(a1 + a2, b)
  {
    forall i, j | 0 <= i < |a1 + a2| && 0 <= j < |b|
      ensures (a1 + a2)[i] != b[j]
    {
      if i < |a1| {
        assert (a1 + a2)[i] == a1[i];
      } else {
        assert (a1 + a2)[i] == a2[i - |a1|];
      }
    }
  }

  lemma DuckGroupQuartersProper()
    ensures Proper(DuckGroupA) && Proper(DuckGroupB)
  {
  }

  lemma DuckGroupLastQuartersProper()
    ensures Proper(DuckGroupC) && Proper(DuckGroupD)
  {
  }

  lemma DuckGroupQuartersApart()
    ensures Apart(DuckGroupA, DuckGroupB) && Apart(DuckGroupA, DuckGroupC) && Apart(DuckGroupA, DuckGroupD)
  {
  }

  lemma DuckGroupLastQuartersApart()
    ensures Apart(DuckGroupB, DuckGroupC) && Apart(DuckGroupB, DuckGroupD) && Apart(DuckGroupC, DuckGroupD)
  {
  }

  lemma DuckGroupProper() ensures Proper(DuckGroupTable)
  {
    DuckGroupQuartersProper();
    DuckGroupLastQuartersProper();
    DuckGroupQuartersApart();
    DuckGroupLastQuartersApart();
    DistinctConcat(DuckGroupA, DuckGroupB);
    ApartConcat(DuckGroupA, DuckGroupB, DuckGroupC);
    DistinctConcat(DuckGroupA + DuckGroupB, DuckGroupC);
    ApartConcat(DuckGroupA, DuckGroupB, DuckGroupD);
    ApartConcat(DuckGroupA + DuckGroupB, DuckGroupC, DuckGroupD);
    DistinctConcat(DuckGroupA + DuckGroupB + DuckGroupC, DuckGroupD);
  }

  lemma VolumeGroupHalvesProper()
    ensures Proper(VolumeGroupFirst) && Proper(VolumeGroupSecond)
  {
  }

  lemma VolumeGroupHalvesApart()
    ensures Apart(VolumeGroupFirst, VolumeGroupSecond)
  {
  }

  lemma VolumeGroupProper() ensures Proper(VolumeGroupTable)
  {
    VolumeGroupHalvesProper();
    VolumeGroupHalvesApart();
    DistinctConcat(VolumeGroupFirst, VolumeGroupSecond);
  }

  /** Every built-in table is non-empty, repeats no token and has no empty token, so the
      index lookup inverts the token lookup on all of them. */
  lemma ArraysProper()
    ensures forall name :: name in Arrays ==> Proper(Arrays[name])
  {
    SmallTablesProper();
    PanProper();
    DuckGroupProper();
    VolumeGroupProper();
  }

  /** SoundBank.HashedStrings, for a selection of its entries: the names of duck and context
      values, keyed by their hash. The entry for "cp_aquifer_pip_HeroLocation" is keyed by the
      hash of its lower-case spelling. */
  const HashedStrings: map<u32, string> := map[
    0x6DFCA373 := "slomo",
    0xBE1CADD7 := "boot",
    0x32C00D01 := "wet",
    0x850E1232 := "foley",
    0x2BDD3460 := "igc",
    0x5A2AFE44 := "on",
    0xF98CB254 := "cp_aquifer_pip_HeroLocation"
  ]

  /** SoundBank.LookUpHash: the listed name, or "HASH_" and the hash in decimal. */
  function LookUpHash(hashes: map<u32, string>, hash: u32): (r: string)
    ensures hash in hashes ==> r == hashes[hash]
    ensures hash !in hashes ==> r == HashPrefix + Decimal(hash)
  {
    if hash in hashes then hashes[hash] else HashPrefix + Decimal(hash)
  }

  /** A hash the table does not list comes back from its "HASH_" name, whatever the table. */
  lemma HashOfUnlisted(hashes: map<u32, string>, hash: u32)
    requires hash !in hashes
    ensures HashValue(LookUpHash(hashes, hash)) == hash
  {
    HashOfHashName(hash);
  }

  /** The tables a bank decodes and encodes with: its enumeration tables and its hash
      recovery table. */
  datatype Tables = Tables(arrays: map<string, seq<string>>, hashes: map<u32, string>)

  /** The built-in tables every SoundBank carries. */
  const BuiltIn: Tables := Tables(Arrays, HashedStrings)

  /** Tables whose enumeration arrays the codec can round-trip through: every array is
      non-empty, repeats no token and has no empty token. */
  predicate ArraysSound(tables: Tables) {
    forall name :: name in tables.arrays ==> Proper(tables.arrays[name])
  }

  /** A hash the table recovers faithfully: unlisted, or listed under a name that hashes to it. */
  predicate Recovers(hashes: map<u32, string>, hash: u32) {
    hash in hashes ==> HashValue(hashes[hash]) == hash
  }

  /** Reading a hash as a name and hashing the name gives the hash back exactly when the
      table recovers that hash. */
  lemma LookUpHashInverse(hashes: map<u32, string>, hash: u32)
    ensures HashValue(LookUpHash(hashes, hash)) == hash <==> Recovers(hashes, hash)
  {
    if hash !in hashes {
      HashOfUnlisted(hashes, hash);
    }
  }
}
