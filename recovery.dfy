/** The hash-recovery table checked against the hash: every listed name but one hashes back
    to its key, so LookUpHash followed by HashString is the identity on every 32-bit value
    except that key. The hashes of the listed names
    are followed character by character, at most five characters per lemma. Each lemma takes a
    string that holds the characters at the given places rather than the literal name, with the
    multiple of 2^32 each step drops, so that the verifier follows the given steps instead of
    evaluating the whole fold itself. */
module Recovery {
  import opened Common
  import opened Text
  import opened Hashing
  import opened Lookup

  /** One step of the fold over a string that holds the word w from position a on: its k-th
      character takes hash h to h', and the step drops q times 2^32. */
  lemma Unfold(s: string, a: nat, w: string, k: nat, h: u32, q: int, h': u32)
    requires a + |w| <= |s| && s[a..a + |w|] == w && k < |w|
    requires w[k] as int + 65599 * h == TwoTo32 * q + h'
    ensures HashFrom(s, a + k, h) == HashFrom(s, a + k + 1, h')
  {
    assert s[a + k] == w[k];
    ModOfMultiplePlus(w[k] as int + 65599 * h, TwoTo32, q, h');
  }

  /** "slomo" hashes to 0x6DFCA373: over a string that starts with it, the fold reaches 0x6DFCA373 after it. */
  lemma HashOfSlomo(s: string)
    requires 5 <= |s| && s[..5] == "slomo"
    ensures HashFrom(s, 0, Seed) == HashFrom(s, 5, 0x6DFCA373)
  {
    Unfold(s, 0, "slomo", 0, 0x00001505, 0, 0x150A2CAE);
    Unfold(s, 0, "slomo", 1, 0x150A2CAE, 5391, 0x5A2EFF3E);
    Unfold(s, 0, "slomo", 2, 0x5A2EFF3E, 23109, 0x30CED0B1);
    Unfold(s, 0, "slomo", 3, 0x30CED0B1, 12506, 0xD3965BFC);
    Unfold(s, 0, "slomo", 4, 0xD3965BFC, 54218, 0x6DFCA373);
  }

  /** "boot" hashes to 0xBE1CADD7: over a string that starts with it, the fold reaches 0xBE1CADD7 after it. */
  lemma HashOfBoot(s: string)
    requires 4 <= |s| && s[..4] == "boot"
    ensures HashFrom(s, 0, Seed) == HashFrom(s, 4, 0xBE1CADD7)
  {
    Unfold(s, 0, "boot", 0, 0x00001505, 0, 0x150A2C9D);
    Unfold(s, 0, "boot", 1, 0x150A2C9D, 5391, 0x5A1DFB12);
    Unfold(s, 0, "boot", 2, 0x5A1DFB12, 23092, 0x2872C9DD);
    Unfold(s, 0, "boot", 3, 0x2872C9DD, 10364, 0xBE1CADD7);
  }

  /** "wet" hashes to 0x32C00D01: over a string that starts with it, the fold reaches 0x32C00D01 after it. */
  lemma HashOfWet(s: string)
    requires 3 <= |s| && s[..3] == "wet"
    ensures HashFrom(s, 0, Seed) == HashFrom(s, 3, 0x32C00D01)
  {
    Unfold(s, 0, "wet", 0, 0x00001505, 0, 0x150A2CB2);
    Unfold(s, 0, "wet", 1, 0x150A2CB2, 5391, 0x5A330033);
    Unfold(s, 0, "wet", 2, 0x5A330033, 23113, 0x32C00D01);
  }

  /** "foley" hashes to 0x850E1232: over a string that starts with it, the fold reaches 0x850E1232 after it. */
  lemma HashOfFoley(s: string)
    requires 5 <= |s| && s[..5] == "foley"
    ensures HashFrom(s, 0, Seed) == HashFrom(s, 5, 0x850E1232)
  {
    Unfold(s, 0, "foley", 0, 0x00001505, 0, 0x150A2CA1);
    Unfold(s, 0, "foley", 1, 0x150A2CA1, 5391, 0x5A21FC0E);
    Unfold(s, 0, "foley", 2, 0x5A21FC0E, 23096, 0x2A6B07DE);
    Unfold(s, 0, "foley", 3, 0x2A6B07DE, 10869, 0x7834F007);
    Unfold(s, 0, "foley", 4, 0x7834F007, 30802, 0x850E1232);
  }

  /** "igc" hashes to 0x2BDD3460: over a string that starts with it, the fold reaches 0x2BDD3460 after it. */
  lemma HashOfIgc(s: string)
    requires 3 <= |s| && s[..3] == "igc"
    ensures HashFrom(s, 0, Seed) == HashFrom(s, 3, 0x2BDD3460)
  {
    Unfold(s, 0, "igc", 0, 0x00001505, 0, 0x150A2CA4);
    Unfold(s, 0, "igc", 1, 0x150A2CA4, 5391, 0x5A24FCC3);
    Unfold(s, 0, "igc", 2, 0x5A24FCC3, 23099, 0x2BDD3460);
  }

  /** "on" hashes to 0x5A2AFE44: over a string that starts with it, the fold reaches 0x5A2AFE44 after it. */
  lemma HashOfOn(s: string)
    requires 2 <= |s| && s[..2] == "on"
    ensures HashFrom(s, 0, Seed) == HashFrom(s, 2, 0x5A2AFE44)
  {
    Unfold(s, 0, "on", 0, 0x00001505, 0, 0x150A2CAA);
    Unfold(s, 0, "on", 1, 0x150A2CAA, 5391, 0x5A2AFE44);
  }

  lemma HashOfHeroLocation0(s: string)
    requires 5 <= |s| && s[..5] == "cp_aq"
    ensures HashFrom(s, 0, Seed) == HashFrom(s, 5, 0xE164FB5D)
  {
    Unfold(s, 0, "cp_aq", 0, 0x00001505, 0, 0x150A2C9E);
    Unfold(s, 0, "cp_aq", 1, 0x150A2C9E, 5391, 0x5A1EFB52);
    Unfold(s, 0, "cp_aq", 2, 0x5A1EFB52, 23093, 0x28F1D98D);
    Unfold(s, 0, "cp_aq", 3, 0x28F1D98D, 10491, 0xED118A14);
    Unfold(s, 0, "cp_aq", 4, 0xED118A14, 60747, 0xE164FB5D);
  }

  lemma HashOfHeroLocation1(s: string)
    requires 10 <= |s| && s[5..10] == "uifer"
    ensures HashFrom(s, 5, 0xE164FB5D) == HashFrom(s, 10, 0x40066962)
  {
    Unfold(s, 5, "uifer", 0, 0xE164FB5D, 57756, 0x7336DC58);
    Unfold(s, 5, "uifer", 1, 0x7336DC58, 29523, 0x36D83A11);
    Unfold(s, 5, "uifer", 2, 0x36D83A11, 14053, 0xB9474A95);
    Unfold(s, 5, "uifer", 3, 0xB9474A95, 47476, 0xE3205B10);
    Unfold(s, 5, "uifer", 4, 0xE3205B10, 58200, 0x40066962);
  }

  lemma HashOfHeroLocation2(s: string)
    requires 15 <= |s| && s[10..15] == "_pip_"
    ensures HashFrom(s, 10, 0x40066962) == HashFrom(s, 15, 0x7C311DE5)
  {
    Unfold(s, 10, "_pip_", 0, 0x40066962, 16406, 0x2AF5EF7D);
    Unfold(s, 10, "_pip_", 1, 0x2AF5EF7D, 11008, 0x8202F033);
    Unfold(s, 10, "_pip_", 2, 0x8202F033, 33314, 0xEEEC1CF6);
    Unfold(s, 10, "_pip_", 3, 0xEEEC1CF6, 61222, 0xE91120FA);
    Unfold(s, 10, "_pip_", 4, 0xE91120FA, 59722, 0x7C311DE5);
  }

  lemma HashOfHeroLocation3(s: string)
    requires 20 <= |s| && s[15..20] == "HeroL"
    ensures HashFrom(s, 15, 0x7C311DE5) == HashFrom(s, 20, 0xAC03370D)
  {
    Unfold(s, 15, "HeroL", 0, 0x7C311DE5, 31823, 0xADFB5BA3);
    Unfold(s, 15, "HeroL", 1, 0xADFB5BA3, 44582, 0x2C7E8D82);
    Unfold(s, 15, "HeroL", 2, 0x2C7E8D82, 11401, 0x80A6D370);
    Unfold(s, 15, "HeroL", 3, 0x80A6D370, 32966, 0x7C7E08FF);
    Unfold(s, 15, "HeroL", 4, 0x7C7E08FF, 31900, 0xAC03370D);
  }

  lemma HashOfHeroLocation4(s: string)
    requires 25 <= |s| && s[20..25] == "ocati"
    ensures HashFrom(s, 20, 0xAC03370D) == HashFrom(s, 25, 0xC2BA6155)
  {
    Unfold(s, 20, "ocati", 0, 0xAC03370D, 44077, 0x8BD78CA2);
    Unfold(s, 20, "ocati", 1, 0x8BD78CA2, 35833, 0xF6AD9C41);
    Unfold(s, 20, "ocati", 2, 0xF6AD9C41, 63210, 0x50FA7460);
    Unfold(s, 20, "ocati", 3, 0x50FA7460, 20750, 0x6202A414);
    Unfold(s, 20, "ocati", 4, 0x6202A414, 25114, 0xC2BA6155);
  }

  lemma HashOfHeroLocation5(s: string)
    requires 27 <= |s| && s[25..27] == "on"
    ensures HashFrom(s, 25, 0xC2BA6155) == HashFrom(s, 27, 0xF3E42294)
  {
    Unfold(s, 25, "on", 0, 0xC2BA6155, 49898, 0x4D32F45A);
    Unfold(s, 25, "on", 1, 0x4D32F45A, 19781, 0xF3E42294);
  }

  /** The mixed-case name hashes to 0xF3E42294. */
  lemma HashOfHeroLocation(s: string)
    requires s == "cp_aquifer_pip_HeroLocation"
    ensures HashFrom(s, 0, Seed) == 0xF3E42294
  {
    HashOfHeroLocation0(s);
    HashOfHeroLocation1(s);
    HashOfHeroLocation2(s);
    HashOfHeroLocation3(s);
    HashOfHeroLocation4(s);
    HashOfHeroLocation5(s);
  }

  lemma HashOfHeroLocationLower3(s: string)
    requires 20 <= |s| && s[15..20] == "herol"
    ensures HashFrom(s, 15, 0x7C311DE5) == HashFrom(s, 20, 0x298F174D)
  {
    Unfold(s, 15, "herol", 0, 0x7C311DE5, 31823, 0xADFB5BC3);
    Unfold(s, 15, "herol", 1, 0xADFB5BC3, 44582, 0x2C9E9562);
    Unfold(s, 15, "herol", 2, 0x2C9E9562, 11433, 0x9068C390);
    Unfold(s, 15, "herol", 3, 0x9068C390, 37004, 0x4D5820DF);
    Unfold(s, 15, "herol", 4, 0x4D5820DF, 19819, 0x298F174D);
  }

  lemma HashOfHeroLocationLower4(s: string)
    requires 25 <= |s| && s[20..25] == "ocati"
    ensures HashFrom(s, 20, 0x298F174D) == HashFrom(s, 25, 0xB31ED115)
  {
    Unfold(s, 20, "ocati", 0, 0x298F174D, 10649, 0x5183BC62);
    Unfold(s, 20, "ocati", 1, 0x5183BC62, 20887, 0xCBCD5C81);
    Unfold(s, 20, "ocati", 2, 0xCBCD5C81, 52223, 0x840AC420);
    Unfold(s, 20, "ocati", 3, 0x840AC420, 33835, 0x42C64454);
    Unfold(s, 20, "ocati", 4, 0x42C64454, 17110, 0xB31ED115);
  }

  lemma HashOfHeroLocationLower5(s: string)
    requires 27 <= |s| && s[25..27] == "on"
    ensures HashFrom(s, 25, 0xB31ED115) == HashFrom(s, 27, 0xF98CB254)
  {
    Unfold(s, 25, "on", 0, 0xB31ED115, 45898, 0xE5AA749A);
    Unfold(s, 25, "on", 1, 0xE5AA749A, 58850, 0xF98CB254);
  }

  /** The lower-case name hashes to 0xF98CB254. */
  lemma HashOfHeroLocationLower(s: string)
    requires s == "cp_aquifer_pip_herolocation"
    ensures HashFrom(s, 0, Seed) == 0xF98CB254
  {
    HashOfHeroLocation0(s);
    HashOfHeroLocation1(s);
    HashOfHeroLocation2(s);
    HashOfHeroLocationLower3(s);
    HashOfHeroLocationLower4(s);
    HashOfHeroLocationLower5(s);
  }

  /** Every listed name but the one at 0xF98CB254 hashes to its key. */
  lemma HashedStringsConsistent()
    ensures forall hash :: hash in HashedStrings && hash != 0xF98CB254 ==> HashValue(HashedStrings[hash]) == hash
  {
    HashOfSlomo("slomo");
    HashOfBoot("boot");
    HashOfWet("wet");
    HashOfFoley("foley");
    HashOfIgc("igc");
    HashOfOn("on");
  }

  /** The key 0xF98CB254 recovers "cp_aquifer_pip_HeroLocation", and HashString of that name
      is 0xF3E42294 (HashString does not lower-case), so this is the one hash the table does
      not recover. */
  lemma HeroLocationMismatch()
    ensures HashValue(LookUpHash(HashedStrings, 0xF98CB254)) == 0xF3E42294
    ensures !Recovers(HashedStrings, 0xF98CB254)
  {
    HashOfHeroLocation("cp_aquifer_pip_HeroLocation");
    assert HashedStrings[0xF98CB254] == "cp_aquifer_pip_HeroLocation";
  }

  /** The built-in tables: every enumeration array is sound, and the recovery table recovers
      every 32-bit hash except 0xF98CB254. */
  lemma BuiltInSound()
    ensures ArraysSound(BuiltIn)
    ensures forall hash: u32 :: Recovers(BuiltIn.hashes, hash) <==> hash != 0xF98CB254
  {
    ArraysProper();
    HashedStringsConsistent();
    HeroLocationMismatch();
  }
}
