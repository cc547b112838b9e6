/**
  The format and version words as literal tables (annexes C and D of ISO/IEC 18004:2015): what the registers compute is
  what the standard prints.
 */
module QrWords {
  import opened QrCodes
  import opened QrFormat
  import opened QrPatterns
  import opened QrVersions

  function FormatOf(data: bv16): bv16 {
    FormatWord(data, Rounds(data))
  }

  lemma FormatIs(ecl: Ecc, mask: Mask, data: bv16)
    requires FormatData(ecl, mask) == data
    ensures FormatBits(ecl, mask) == FormatOf(data)
  {
    hide FormatRemainder, Rounds, FormatWord;
    RoundsAre(data);
  }

  function VersionOf(data: bv18): bv18 {
    VersionWord(data, VersionRounds(data))
  }

  lemma VersionIs(version: Version, data: bv18)
    requires version as bv18 == data
    ensures VersionBits(version) == VersionOf(data)
  {
    hide VersionRemainder, VersionRounds, VersionWord;
    VersionRoundsAre(data);
  }

  // ----- Format words, level by level -----

  lemma LowWords0()
    ensures FormatOf(8) == 0x77C4
    ensures FormatOf(9) == 0x72F3
    ensures FormatOf(10) == 0x7DAA
    ensures FormatOf(11) == 0x789D
  {}

  lemma LowWords4()
    ensures FormatOf(12) == 0x662F
    ensures FormatOf(13) == 0x6318
    ensures FormatOf(14) == 0x6C41
    ensures FormatOf(15) == 0x6976
  {}

  lemma MediumWords0()
    ensures FormatOf(0) == 0x5412
    ensures FormatOf(1) == 0x5125
    ensures FormatOf(2) == 0x5E7C
    ensures FormatOf(3) == 0x5B4B
  {}

  lemma MediumWords4()
    ensures FormatOf(4) == 0x45F9
    ensures FormatOf(5) == 0x40CE
    ensures FormatOf(6) == 0x4F97
    ensures FormatOf(7) == 0x4AA0
  {}

  lemma QuartileWords0()
    ensures FormatOf(24) == 0x355F
    ensures FormatOf(25) == 0x3068
    ensures FormatOf(26) == 0x3F31
    ensures FormatOf(27) == 0x3A06
  {}

  lemma QuartileWords4()
    ensures FormatOf(28) == 0x24B4
    ensures FormatOf(29) == 0x2183
    ensures FormatOf(30) == 0x2EDA
    ensures FormatOf(31) == 0x2BED
  {}

  lemma HighWords0()
    ensures FormatOf(16) == 0x1689
    ensures FormatOf(17) == 0x13BE
    ensures FormatOf(18) == 0x1CE7
    ensures FormatOf(19) == 0x19D0
  {}

  lemma HighWords4()
    ensures FormatOf(20) == 0x0762
    ensures FormatOf(21) == 0x0255
    ensures FormatOf(22) == 0x0D0C
    ensures FormatOf(23) == 0x083B
  {}

  lemma LowWords()
    ensures FormatBits(LOW, 0) == 0x77C4 && FormatBits(LOW, 1) == 0x72F3
    ensures FormatBits(LOW, 2) == 0x7DAA && FormatBits(LOW, 3) == 0x789D
    ensures FormatBits(LOW, 4) == 0x662F && FormatBits(LOW, 5) == 0x6318
    ensures FormatBits(LOW, 6) == 0x6C41 && FormatBits(LOW, 7) == 0x6976
  {
    hide FormatBits, FormatOf;
    LowWords0();
    LowWords4();
    FormatIs(LOW, 0, 8);
    FormatIs(LOW, 1, 9);
    FormatIs(LOW, 2, 10);
    FormatIs(LOW, 3, 11);
    FormatIs(LOW, 4, 12);
    FormatIs(LOW, 5, 13);
    FormatIs(LOW, 6, 14);
    FormatIs(LOW, 7, 15);
  }

  lemma MediumWords()
    ensures FormatBits(MEDIUM, 0) == 0x5412 && FormatBits(MEDIUM, 1) == 0x5125
    ensures FormatBits(MEDIUM, 2) == 0x5E7C && FormatBits(MEDIUM, 3) == 0x5B4B
    ensures FormatBits(MEDIUM, 4) == 0x45F9 && FormatBits(MEDIUM, 5) == 0x40CE
    ensures FormatBits(MEDIUM, 6) == 0x4F97 && FormatBits(MEDIUM, 7) == 0x4AA0
  {
    hide FormatBits, FormatOf;
    MediumWords0();
    MediumWords4();
    FormatIs(MEDIUM, 0, 0);
    FormatIs(MEDIUM, 1, 1);
    FormatIs(MEDIUM, 2, 2);
    FormatIs(MEDIUM, 3, 3);
    FormatIs(MEDIUM, 4, 4);
    FormatIs(MEDIUM, 5, 5);
    FormatIs(MEDIUM, 6, 6);
    FormatIs(MEDIUM, 7, 7);
  }

  lemma QuartileWords()
    ensures FormatBits(QUARTILE, 0) == 0x355F && FormatBits(QUARTILE, 1) == 0x3068
    ensures FormatBits(QUARTILE, 2) == 0x3F31 && FormatBits(QUARTILE, 3) == 0x3A06
    ensures FormatBits(QUARTILE, 4) == 0x24B4 && FormatBits(QUARTILE, 5) == 0x2183
    ensures FormatBits(QUARTILE, 6) == 0x2EDA && FormatBits(QUARTILE, 7) == 0x2BED
  {
    hide FormatBits, FormatOf;
    QuartileWords0();
    QuartileWords4();
    FormatIs(QUARTILE, 0, 24);
    FormatIs(QUARTILE, 1, 25);
    FormatIs(QUARTILE, 2, 26);
    FormatIs(QUARTILE, 3, 27);
    FormatIs(QUARTILE, 4, 28);
    FormatIs(QUARTILE, 5, 29);
    FormatIs(QUARTILE, 6, 30);
    FormatIs(QUARTILE, 7, 31);
  }

  lemma HighWords()
    ensures FormatBits(HIGH, 0) == 0x1689 && FormatBits(HIGH, 1) == 0x13BE
    ensures FormatBits(HIGH, 2) == 0x1CE7 && FormatBits(HIGH, 3) == 0x19D0
    ensures FormatBits(HIGH, 4) == 0x0762 && FormatBits(HIGH, 5) == 0x0255
    ensures FormatBits(HIGH, 6) == 0x0D0C && FormatBits(HIGH, 7) == 0x083B
  {
    hide FormatBits, FormatOf;
    HighWords0();
    HighWords4();
    FormatIs(HIGH, 0, 16);
    FormatIs(HIGH, 1, 17);
    FormatIs(HIGH, 2, 18);
    FormatIs(HIGH, 3, 19);
    FormatIs(HIGH, 4, 20);
    FormatIs(HIGH, 5, 21);
    FormatIs(HIGH, 6, 22);
    FormatIs(HIGH, 7, 23);
  }

  // ----- Version words -----

  lemma VersionOf7()
    ensures VersionOf(7) == 0x07C94
    ensures VersionOf(8) == 0x085BC
    ensures VersionOf(9) == 0x09A99
    ensures VersionOf(10) == 0x0A4D3
  {}

  lemma VersionOf11()
    ensures VersionOf(11) == 0x0BBF6
    ensures VersionOf(12) == 0x0C762
    ensures VersionOf(13) == 0x0D847
    ensures VersionOf(14) == 0x0E60D
  {}

  lemma VersionOf15()
    ensures VersionOf(15) == 0x0F928
    ensures VersionOf(16) == 0x10B78
    ensures VersionOf(17) == 0x1145D
    ensures VersionOf(18) == 0x12A17
  {}

  lemma VersionOf19()
    ensures VersionOf(19) == 0x13532
    ensures VersionOf(20) == 0x149A6
    ensures VersionOf(21) == 0x15683
    ensures VersionOf(22) == 0x168C9
  {}

  lemma VersionOf23()
    ensures VersionOf(23) == 0x177EC
    ensures VersionOf(24) == 0x18EC4
    ensures VersionOf(25) == 0x191E1
    ensures VersionOf(26) == 0x1AFAB
  {}

  lemma VersionOf27()
    ensures VersionOf(27) == 0x1B08E
    ensures VersionOf(28) == 0x1CC1A
    ensures VersionOf(29) == 0x1D33F
    ensures VersionOf(30) == 0x1ED75
  {}

  lemma VersionOf31()
    ensures VersionOf(31) == 0x1F250
    ensures VersionOf(32) == 0x209D5
    ensures VersionOf(33) == 0x216F0
    ensures VersionOf(34) == 0x228BA
  {}

  lemma VersionOf35()
    ensures VersionOf(35) == 0x2379F
    ensures VersionOf(36) == 0x24B0B
    ensures VersionOf(37) == 0x2542E
    ensures VersionOf(38) == 0x26A64
  {}

  lemma VersionOf39()
    ensures VersionOf(39) == 0x27541
    ensures VersionOf(40) == 0x28C69
  {}

  lemma VersionWords7()
    ensures VersionBits(7) == 0x07C94
    ensures VersionBits(8) == 0x085BC
    ensures VersionBits(9) == 0x09A99
    ensures VersionBits(10) == 0x0A4D3
  {
    hide VersionBits, VersionOf;
    VersionOf7();
    VersionIs(7, 7);
    VersionIs(8, 8);
    VersionIs(9, 9);
    VersionIs(10, 10);
  }

  lemma VersionWords11()
    ensures VersionBits(11) == 0x0BBF6
    ensures VersionBits(12) == 0x0C762
    ensures VersionBits(13) == 0x0D847
    ensures VersionBits(14) == 0x0E60D
  {
    hide VersionBits, VersionOf;
    VersionOf11();
    VersionIs(11, 11);
    VersionIs(12, 12);
    VersionIs(13, 13);
    VersionIs(14, 14);
  }

  lemma VersionWords15()
    ensures VersionBits(15) == 0x0F928
    ensures VersionBits(16) == 0x10B78
    ensures VersionBits(17) == 0x1145D
    ensures VersionBits(18) == 0x12A17
  {
    hide VersionBits, VersionOf;
    VersionOf15();
    VersionIs(15, 15);
    VersionIs(16, 16);
    VersionIs(17, 17);
    VersionIs(18, 18);
  }

  lemma VersionWords19()
    ensures VersionBits(19) == 0x13532
    ensures VersionBits(20) == 0x149A6
    ensures VersionBits(21) == 0x15683
    ensures VersionBits(22) == 0x168C9
  {
    hide VersionBits, VersionOf;
    VersionOf19();
    VersionIs(19, 19);
    VersionIs(20, 20);
    VersionIs(21, 21);
    VersionIs(22, 22);
  }

  lemma VersionWords23()
    ensures VersionBits(23) == 0x177EC
    ensures VersionBits(24) == 0x18EC4
    ensures VersionBits(25) == 0x191E1
    ensures VersionBits(26) == 0x1AFAB
  {
    hide VersionBits, VersionOf;
    VersionOf23();
    VersionIs(23, 23);
    VersionIs(24, 24);
    VersionIs(25, 25);
    VersionIs(26, 26);
  }

  lemma VersionWords27()
    ensures VersionBits(27) == 0x1B08E
    ensures VersionBits(28) == 0x1CC1A
    ensures VersionBits(29) == 0x1D33F
    ensures VersionBits(30) == 0x1ED75
  {
    hide VersionBits, VersionOf;
    VersionOf27();
    VersionIs(27, 27);
    VersionIs(28, 28);
    VersionIs(29, 29);
    VersionIs(30, 30);
  }

  lemma VersionWords31()
    ensures VersionBits(31) == 0x1F250
    ensures VersionBits(32) == 0x209D5
    ensures VersionBits(33) == 0x216F0
    ensures VersionBits(34) == 0x228BA
  {
    hide VersionBits, VersionOf;
    VersionOf31();
    VersionIs(31, 31);
    VersionIs(32, 32);
    VersionIs(33, 33);
    VersionIs(34, 34);
  }

  lemma VersionWords35()
    ensures VersionBits(35) == 0x2379F
    ensures VersionBits(36) == 0x24B0B
    ensures VersionBits(37) == 0x2542E
    ensures VersionBits(38) == 0x26A64
  {
    hide VersionBits, VersionOf;
    VersionOf35();
    VersionIs(35, 35);
    VersionIs(36, 36);
    VersionIs(37, 37);
    VersionIs(38, 38);
  }

  lemma VersionWords39()
    ensures VersionBits(39) == 0x27541
    ensures VersionBits(40) == 0x28C69
  {
    hide VersionBits, VersionOf;
    VersionOf39();
    VersionIs(39, 39);
    VersionIs(40, 40);
  }
}
