/**
  The format and version words as error-correcting codes (annexes C and D of ISO/IEC 18004:2015), and the cells in which
  a reader finds them: any two format words differ in at least 7 bits and any two version words in at least 8, so that
  up to 3 wrong bits leave no doubt about the word.
 */
module QrCodes {
  import opened QrFormat
  import opened QrGrid
  import opened QrPatterns
  import opened QrSymbol
  import opened QrVersions

  // ----- Distances -----

  function Bit(b: bv18, place: bv18): nat {
    if b & place == 0 then 0 else 1
  }

  /** The number of ones in a word of 18 bits. */
  function Ones(b: bv18): nat {
    Bit(b, 0x1) + Bit(b, 0x2) + Bit(b, 0x4) + Bit(b, 0x8) + Bit(b, 0x10) + Bit(b, 0x20)
    + Bit(b, 0x40) + Bit(b, 0x80) + Bit(b, 0x100) + Bit(b, 0x200) + Bit(b, 0x400) + Bit(b, 0x800)
    + Bit(b, 0x1000) + Bit(b, 0x2000) + Bit(b, 0x4000) + Bit(b, 0x8000) + Bit(b, 0x10000) + Bit(b, 0x20000)
  }

  /** The number of bits in which two words differ. */
  function Differing(a: bv18, b: bv18): nat {
    Ones(a ^ b)
  }

  lemma BitTriangle(a: bv18, b: bv18, c: bv18, place: bv18)
    ensures Bit(a ^ b, place) <= Bit(a ^ c, place) + Bit(b ^ c, place)
  {
    if Bit(a ^ c, place) == Bit(b ^ c, place) == 0 {
      assert (a ^ b) & place == ((a ^ c) & place) ^ ((b ^ c) & place);
    }
  }

  lemma Triangle(a: bv18, b: bv18, c: bv18)
    ensures Differing(a, b) <= Differing(a, c) + Differing(b, c)
  {
    hide Bit;
    var places: seq<bv18> := [
      0x1, 0x2, 0x4, 0x8, 0x10, 0x20, 0x40, 0x80, 0x100, 0x200, 0x400, 0x800, 0x1000, 0x2000, 0x4000, 0x8000, 0x10000, 0x20000];
    forall i | 0 <= i < 18
      ensures Bit(a ^ b, places[i]) <= Bit(a ^ c, places[i]) + Bit(b ^ c, places[i])
    {
      BitTriangle(a, b, c, places[i]);
    }
    assert places[0] == 0x1 && places[1] == 0x2 && places[2] == 0x4 && places[3] == 0x8 && places[4] == 0x10 && places[5] == 0x20;
    assert places[6] == 0x40 && places[7] == 0x80 && places[8] == 0x100 && places[9] == 0x200 && places[10] == 0x400 && places[11] == 0x800;
    assert places[12] == 0x1000 && places[13] == 0x2000 && places[14] == 0x4000 && places[15] == 0x8000 && places[16] == 0x10000 && places[17] == 0x20000;
  }

  // ----- Format words -----

  function Rounds(data: bv16): bv16 {
    FormatStep(FormatStep(FormatStep(FormatStep(FormatStep(
      FormatStep(FormatStep(FormatStep(FormatStep(FormatStep(data))))))))))
  }

  lemma OneRound(data: bv16, n: nat)
    ensures FormatRemainder(data, n + 1) == FormatStep(FormatRemainder(data, n))
  {}

  lemma RoundsAre(data: bv16)
    ensures FormatRemainder(data, 10) == Rounds(data)
  {
    hide FormatStep, FormatRemainder;
    assert FormatRemainder(data, 0) == data by { NoRound(data); }
    OneRound(data, 0);
    OneRound(data, 1);
    OneRound(data, 2);
    OneRound(data, 3);
    OneRound(data, 4);
    OneRound(data, 5);
    OneRound(data, 6);
    OneRound(data, 7);
    OneRound(data, 8);
    OneRound(data, 9);
  }

  lemma NoRound(data: bv16)
    ensures FormatRemainder(data, 0) == data
  {}

  function FormatXor(a: bv16, b: bv16): bv16 {
    a ^ b
  }

  lemma FormatXorLaws(a: bv16, b: bv16, c: bv16)
    ensures FormatXor(FormatXor(a, b), c) == FormatXor(a, FormatXor(b, c)) && FormatXor(a, b) == FormatXor(b, a)
    ensures FormatXor(a, 0) == a == FormatXor(0, a) && FormatXor(a, a) == 0
  {}

  lemma FormatXorExchange(a: bv16, b: bv16, c: bv16, d: bv16)
    ensures FormatXor(FormatXor(a, b), FormatXor(c, d)) == FormatXor(FormatXor(a, c), FormatXor(b, d))
  {
    hide FormatXor;
    FormatXorLaws(a, b, FormatXor(c, d));
    FormatXorLaws(b, c, d);
    FormatXorLaws(c, b, d);
    FormatXorLaws(a, c, FormatXor(b, d));
  }

  function FormatShifted(a: bv16): bv16 {
    a << 1
  }

  lemma FormatShiftedXor(a: bv16, b: bv16)
    ensures FormatShifted(FormatXor(a, b)) == FormatXor(FormatShifted(a), FormatShifted(b))
  {}

  /** The generator polynomial if the top bit of the register is set. */
  function FormatPick(a: bv16): bv16 {
    if a & 0x200 == 0 then 0 else 0x537
  }

  lemma FormatPickXor(a: bv16, b: bv16)
    ensures FormatPick(FormatXor(a, b)) == FormatXor(FormatPick(a), FormatPick(b))
  {
    hide FormatXor;
    FormatTopBit(a, b);
    FormatXorLaws(0, 0, 0);
    FormatXorLaws(0x537, 0, 0);
    FormatXorLaws(0x200, 0, 0);
  }

  lemma FormatTopBit(a: bv16, b: bv16)
    ensures FormatXor(a, b) & 0x200 == FormatXor(a & 0x200, b & 0x200)
    ensures (a & 0x200 == 0 || a & 0x200 == 0x200) && (b & 0x200 == 0 || b & 0x200 == 0x200)
  {}

  lemma FormatStepIs(a: bv16)
    requires a < 1024
    ensures FormatStep(a) == FormatXor(FormatShifted(a), FormatPick(a))
  {
    if a & 0x200 == 0 {
      assert a >> 9 == 0;
      assert (0 as bv16) * 0x537 == 0;
    } else {
      assert a >> 9 == 1;
      assert (1 as bv16) * 0x537 == 0x537;
    }
  }

  lemma FormatXorSmall(a: bv16, b: bv16)
    requires a < 1024 && b < 1024
    ensures FormatXor(a, b) < 1024
  {}

  lemma FormatStepLinear(a: bv16, b: bv16)
    requires a < 1024 && b < 1024
    ensures FormatStep(FormatXor(a, b)) == FormatXor(FormatStep(a), FormatStep(b))
  {
    hide FormatStep, FormatXor, FormatShifted, FormatPick;
    FormatXorSmall(a, b);
    FormatStepIs(a);
    FormatStepIs(b);
    FormatStepIs(FormatXor(a, b));
    FormatShiftedXor(a, b);
    FormatPickXor(a, b);
    FormatXorExchange(FormatShifted(a), FormatShifted(b), FormatPick(a), FormatPick(b));
  }

  lemma {:induction false} RemainderLinear(a: bv16, b: bv16, n: nat)
    requires a < 32 && b < 32
    ensures FormatRemainder(FormatXor(a, b), n) == FormatXor(FormatRemainder(a, n), FormatRemainder(b, n))
  {
    hide FormatStep, FormatRemainder, FormatXor;
    if n == 0 {
      NoRound(a);
      NoRound(b);
      NoRound(FormatXor(a, b));
    } else {
      RemainderLinear(a, b, n - 1);
      RemainderSmall(a, n - 1);
      RemainderSmall(b, n - 1);
      FormatStepLinear(FormatRemainder(a, n - 1), FormatRemainder(b, n - 1));
      OneRound(a, n - 1);
      OneRound(b, n - 1);
      OneRound(FormatXor(a, b), n - 1);
    }
  }

  /** Data and check bits without the final mask. */
  function Joined(data: bv16, rem: bv16): bv16 {
    (data << 10) | rem
  }

  lemma WordWeight(data: bv16)
    requires 0 < data < 32
    ensures Ones(Joined(data, Rounds(data)) as bv18) >= 7
  {}

  lemma WordDifference(a: bv16, b: bv16, r: bv16, s: bv16)
    requires a < 32 && b < 32 && r < 1024 && s < 1024
    ensures FormatXor(FormatWord(a, r), FormatWord(b, s)) == Joined(FormatXor(a, b), FormatXor(r, s))
    ensures a != b ==> 0 < FormatXor(a, b) < 32
  {}

  /** Any two format words differ in at least 7 bits. */
  lemma FormatsApart(ecl: Ecc, m: Mask, ecl': Ecc, m': Mask)
    requires ecl != ecl' || m != m'
    ensures Differing(FormatBits(ecl, m) as bv18, FormatBits(ecl', m') as bv18) >= 7
  {
    hide FormatRemainder, FormatData, FormatWord, Ones, Rounds, FormatXor, Joined, Differing;
    var a, b := FormatData(ecl, m), FormatData(ecl', m');
    DataFields(ecl, m);
    DataFields(ecl', m');
    DataDiffers(ecl, m, ecl', m');
    RemainderLinear(a, b, 10);
    RemainderSmall(a, 10);
    RemainderSmall(b, 10);
    WordDifference(a, b, FormatRemainder(a, 10), FormatRemainder(b, 10));
    RoundsAre(FormatXor(a, b));
    WordWeight(FormatXor(a, b));
    Widened(FormatBits(ecl, m), FormatBits(ecl', m'));
  }

  lemma Widened(a: bv16, b: bv16)
    ensures Differing(a as bv18, b as bv18) == Ones(FormatXor(a, b) as bv18)
  {
    hide Ones;
    assert (a as bv18) ^ (b as bv18) == (a ^ b) as bv18;
  }

  lemma DataDiffers(ecl: Ecc, m: Mask, ecl': Ecc, m': Mask)
    requires ecl != ecl' || m != m'
    ensures FormatData(ecl, m) != FormatData(ecl', m')
  {
    hide FormatData;
    DataFields(ecl, m);
    DataFields(ecl', m');
    if FormatData(ecl, m) == FormatData(ecl', m') {
      SmallBits(EccBits(ecl), EccBits(ecl'));
      SmallBits(m, m');
    }
  }

  lemma SmallBits(a: nat, b: nat)
    requires a < 8 && b < 8 && a as bv16 == b as bv16
    ensures a == b
  {
    assert a == 0 || a == 1 || a == 2 || a == 3 || a == 4 || a == 5 || a == 6 || a == 7;
    assert b == 0 || b == 1 || b == 2 || b == 3 || b == 4 || b == 5 || b == 6 || b == 7;
  }

  /** A reading with up to 3 wrong bits could come from one level and mask only. */
  lemma FormatDetermined(ecl: Ecc, m: Mask, ecl': Ecc, m': Mask, got: bv18)
    requires Differing(FormatBits(ecl, m) as bv18, got) <= 3 && Differing(FormatBits(ecl', m') as bv18, got) <= 3
    ensures ecl == ecl' && m == m'
  {
    hide FormatBits, Ones;
    if ecl != ecl' || m != m' {
      FormatsApart(ecl, m, ecl', m');
      Triangle(FormatBits(ecl, m) as bv18, FormatBits(ecl', m') as bv18, got);
    }
  }

  // ----- Version words -----

  function VersionRounds(data: bv18): bv18 {
    VersionStep(VersionStep(VersionStep(VersionStep(VersionStep(VersionStep(
      VersionStep(VersionStep(VersionStep(VersionStep(VersionStep(VersionStep(data))))))))))))
  }

  lemma OneVersionRound(data: bv18, n: nat)
    ensures VersionRemainder(data, n + 1) == VersionStep(VersionRemainder(data, n)) && VersionRemainder(data, 0) == data
  {}

  lemma VersionRoundsAre(data: bv18)
    ensures VersionRemainder(data, 12) == VersionRounds(data)
  {
    hide VersionStep, VersionRemainder;
    OneVersionRound(data, 0);
    OneVersionRound(data, 1);
    OneVersionRound(data, 2);
    OneVersionRound(data, 3);
    OneVersionRound(data, 4);
    OneVersionRound(data, 5);
    OneVersionRound(data, 6);
    OneVersionRound(data, 7);
    OneVersionRound(data, 8);
    OneVersionRound(data, 9);
    OneVersionRound(data, 10);
    OneVersionRound(data, 11);
  }

  lemma LowWeight(data: bv18)
    requires 0 < data < 16
    ensures Ones(VersionWord(data, VersionRounds(data))) >= 8
  {}

  lemma SecondWeight(data: bv18)
    requires 16 <= data < 32
    ensures Ones(VersionWord(data, VersionRounds(data))) >= 8
  {}

  lemma ThirdWeight(data: bv18)
    requires 32 <= data < 48
    ensures Ones(VersionWord(data, VersionRounds(data))) >= 8
  {}

  lemma HighWeight(data: bv18)
    requires 48 <= data < 64
    ensures Ones(VersionWord(data, VersionRounds(data))) >= 8
  {}

  lemma VersionWeight(data: bv18)
    requires 0 < data < 64
    ensures Ones(VersionWord(data, VersionRounds(data))) >= 8
  {
    hide Ones, VersionWord, VersionRounds;
    if data < 16 {
      LowWeight(data);
    } else if data < 32 {
      SecondWeight(data);
    } else if data < 48 {
      ThirdWeight(data);
    } else {
      HighWeight(data);
    }
  }

  function VersionXor(a: bv18, b: bv18): bv18 {
    a ^ b
  }

  lemma VersionXorLaws(a: bv18, b: bv18, c: bv18)
    ensures VersionXor(VersionXor(a, b), c) == VersionXor(a, VersionXor(b, c)) && VersionXor(a, b) == VersionXor(b, a)
    ensures VersionXor(a, 0) == a == VersionXor(0, a) && VersionXor(a, a) == 0
  {}

  lemma VersionXorExchange(a: bv18, b: bv18, c: bv18, d: bv18)
    ensures VersionXor(VersionXor(a, b), VersionXor(c, d)) == VersionXor(VersionXor(a, c), VersionXor(b, d))
  {
    hide VersionXor;
    VersionXorLaws(a, b, VersionXor(c, d));
    VersionXorLaws(b, c, d);
    VersionXorLaws(c, b, d);
    VersionXorLaws(a, c, VersionXor(b, d));
  }

  function VersionShifted(a: bv18): bv18 {
    a << 1
  }

  lemma VersionShiftedXor(a: bv18, b: bv18)
    ensures VersionShifted(VersionXor(a, b)) == VersionXor(VersionShifted(a), VersionShifted(b))
  {}

  /** The generator polynomial if the top bit of the register is set. */
  function VersionPick(a: bv18): bv18 {
    if a & 0x800 == 0 then 0 else 0x1F25
  }

  lemma VersionPickXor(a: bv18, b: bv18)
    ensures VersionPick(VersionXor(a, b)) == VersionXor(VersionPick(a), VersionPick(b))
  {
    hide VersionXor;
    VersionTopBit(a, b);
    VersionXorLaws(0, 0, 0);
    VersionXorLaws(0x1F25, 0, 0);
    VersionXorLaws(0x800, 0, 0);
  }

  lemma VersionTopBit(a: bv18, b: bv18)
    ensures VersionXor(a, b) & 0x800 == VersionXor(a & 0x800, b & 0x800)
    ensures (a & 0x800 == 0 || a & 0x800 == 0x800) && (b & 0x800 == 0 || b & 0x800 == 0x800)
  {}

  lemma VersionStepIs(a: bv18)
    requires a < 4096
    ensures VersionStep(a) == VersionXor(VersionShifted(a), VersionPick(a))
  {
    if a & 0x800 == 0 {
      assert a >> 11 == 0;
      assert (0 as bv18) * 0x1F25 == 0;
    } else {
      assert a >> 11 == 1;
      assert (1 as bv18) * 0x1F25 == 0x1F25;
    }
  }

  lemma VersionXorSmall(a: bv18, b: bv18)
    requires a < 4096 && b < 4096
    ensures VersionXor(a, b) < 4096
  {}

  lemma VersionStepLinear(a: bv18, b: bv18)
    requires a < 4096 && b < 4096
    ensures VersionStep(VersionXor(a, b)) == VersionXor(VersionStep(a), VersionStep(b))
  {
    hide VersionStep, VersionXor, VersionShifted, VersionPick;
    VersionXorSmall(a, b);
    VersionStepIs(a);
    VersionStepIs(b);
    VersionStepIs(VersionXor(a, b));
    VersionShiftedXor(a, b);
    VersionPickXor(a, b);
    VersionXorExchange(VersionShifted(a), VersionShifted(b), VersionPick(a), VersionPick(b));
  }

  lemma {:induction false} VersionRemainderLinear(a: bv18, b: bv18, n: nat)
    requires a < 64 && b < 64
    ensures VersionRemainder(VersionXor(a, b), n) == VersionXor(VersionRemainder(a, n), VersionRemainder(b, n))
  {
    hide VersionStep, VersionRemainder, VersionXor;
    if n == 0 {
      OneVersionRound(a, 0);
      OneVersionRound(b, 0);
      OneVersionRound(VersionXor(a, b), 0);
    } else {
      VersionRemainderLinear(a, b, n - 1);
      VersionRemainderSmall(a, n - 1);
      VersionRemainderSmall(b, n - 1);
      VersionStepLinear(VersionRemainder(a, n - 1), VersionRemainder(b, n - 1));
      OneVersionRound(a, n - 1);
      OneVersionRound(b, n - 1);
      OneVersionRound(VersionXor(a, b), n - 1);
    }
  }

  lemma VersionDifference(a: bv18, b: bv18, r: bv18, s: bv18)
    requires a < 64 && b < 64 && r < 4096 && s < 4096
    ensures VersionXor(VersionWord(a, r), VersionWord(b, s)) == VersionWord(VersionXor(a, b), VersionXor(r, s))
    ensures a != b ==> 0 < VersionXor(a, b) < 64
    ensures Differing(VersionWord(a, r), VersionWord(b, s)) == Ones(VersionXor(VersionWord(a, r), VersionWord(b, s)))
  {
    hide Ones, VersionXor, VersionWord;
    VersionXorRange(a, b);
    VersionXorSmall(r, s);
    WordIsXor(a, r);
    WordIsXor(b, s);
    WordIsXor(VersionXor(a, b), VersionXor(r, s));
    RaisedXor(a, b);
    VersionXorExchange(a << 12, r, b << 12, s);
    DifferingIs(VersionWord(a, r), VersionWord(b, s));
  }

  lemma WordIsXor(a: bv18, r: bv18)
    requires a < 64 && r < 4096
    ensures VersionWord(a, r) == VersionXor(a << 12, r)
  {}

  lemma RaisedXor(a: bv18, b: bv18)
    ensures VersionXor(a, b) << 12 == VersionXor(a << 12, b << 12)
  {}

  lemma VersionXorRange(a: bv18, b: bv18)
    requires a < 64 && b < 64
    ensures VersionXor(a, b) < 64 && (a != b ==> VersionXor(a, b) > 0)
  {}

  lemma DifferingIs(a: bv18, b: bv18)
    ensures Differing(a, b) == Ones(VersionXor(a, b))
  {
    hide Ones;
  }

  lemma VersionSmall(v: Version, w: Version)
    ensures (v as bv18) < 64 && (v != w ==> v as bv18 != w as bv18)
  {
    VersionBack(v);
    VersionBack(w);
  }

  lemma VersionBack(v: Version)
    ensures (v as bv18) as int == v && (v as bv18) < 64
  {
    if v <= 10 {
      assert v == 1 || v == 2 || v == 3 || v == 4 || v == 5 || v == 6 || v == 7 || v == 8 || v == 9 || v == 10;
    } else if v <= 20 {
      assert v == 11 || v == 12 || v == 13 || v == 14 || v == 15 || v == 16 || v == 17 || v == 18 || v == 19 || v == 20;
    } else if v <= 30 {
      assert v == 21 || v == 22 || v == 23 || v == 24 || v == 25 || v == 26 || v == 27 || v == 28 || v == 29 || v == 30;
    } else {
      assert v == 31 || v == 32 || v == 33 || v == 34 || v == 35 || v == 36 || v == 37 || v == 38 || v == 39 || v == 40;
    }
  }

  /** Any two version words differ in at least 8 bits. */
  lemma VersionsApart(v: Version, w: Version)
    requires v != w
    ensures Differing(VersionBits(v), VersionBits(w)) >= 8
  {
    hide VersionRemainder, VersionWord, Ones, VersionRounds, VersionXor, Differing;
    var a, b := v as bv18, w as bv18;
    VersionSmall(v, w);
    VersionSmall(w, v);
    VersionRemainderLinear(a, b, 12);
    VersionRemainderSmall(a, 12);
    VersionRemainderSmall(b, 12);
    VersionDifference(a, b, VersionRemainder(a, 12), VersionRemainder(b, 12));
    VersionRoundsAre(VersionXor(a, b));
    VersionWeight(VersionXor(a, b));
  }

  /** A reading with up to 3 wrong bits could come from one version only. */
  lemma VersionDetermined(v: Version, w: Version, got: bv18)
    requires Differing(VersionBits(v), got) <= 3 && Differing(VersionBits(w), got) <= 3
    ensures v == w
  {
    hide VersionBits, Ones;
    if v != w {
      VersionsApart(v, w);
      Triangle(VersionBits(v), VersionBits(w), got);
    }
  }
}
