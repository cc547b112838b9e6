/**
  The penalty score read off the modules themselves (table 11 of ISO/IEC 18004:2015): pictures of the finder-like pattern
  stretched to any unit, rows of five modules, blocks of four and the dark share, each with its number of points.
 */
module QrPenaltyShown {
  import opened QrGrid
  import opened QrPenalty

  // ----- Runs and places -----

  /** Where run k starts in the line. */
  function Start(runs: seq<nat>, k: nat): nat
    requires k <= |runs|
  {
    if k == 0 then 0 else Start(runs, k - 1) + runs[k - 1]
  }

  lemma {:induction false} StartPrefix(runs: seq<nat>, m: nat, k: nat)
    requires k <= m <= |runs|
    ensures Start(runs[..m], k) == Start(runs, k)
  {
    if k > 0 {
      StartPrefix(runs, m, k - 1);
    }
  }

  lemma {:induction false} StartsGrow(runs: seq<nat>, j: nat, k: nat)
    requires Alternating(runs) && 1 <= j < k <= |runs|
    ensures Start(runs, j) < Start(runs, k)
  {
    if j < k - 1 {
      StartsGrow(runs, j, k - 1);
    }
  }

  /** All modules of a stretch have one color. */
  ghost predicate Band(line: Line, from: int, length: nat, color: bool) {
    0 <= from && from + length <= |line| && forall i :: from <= i < from + length ==> line[i] == color
  }

  lemma {:induction false} RunsAreBands(runs: seq<nat>)
    ensures |Expand(runs)| == Start(runs, |runs|)
    ensures forall k :: 0 <= k < |runs| ==> Band(Expand(runs), Start(runs, k), runs[k], IsDark(k))
  {
    hide IsDark, Start, Band;
    if runs == [] {
      StartsAtZero(runs);
    } else {
      var last := |runs| - 1;
      var front := runs[..last];
      RunsAreBands(front);
      StartPrefix(runs, last, last);
      StartNext(runs, last);
      forall k | 0 <= k < |runs| ensures Band(Expand(runs), Start(runs, k), runs[k], IsDark(k)) {
        if k < last {
          StartPrefix(runs, last, k);
          BandKept(Expand(front), Repeat(IsDark(last), runs[last]), Start(runs, k), runs[k], IsDark(k));
        } else {
          BandLast(Expand(front), IsDark(last), runs[last]);
        }
      }
    }
  }

  lemma BandKept(line: Line, more: Line, from: int, length: nat, color: bool)
    requires Band(line, from, length, color)
    ensures Band(line + more, from, length, color)
  {}

  lemma BandLast(line: Line, color: bool, length: nat)
    ensures Band(line + Repeat(color, length), |line|, length, color)
  {}

  /** The line and its runs. */
  ghost predicate HasRuns(line: Line, runs: seq<nat>) {
    Alternating(runs) && |line| == Start(runs, |runs|)
    && forall k :: 0 <= k < |runs| ==> Band(line, Start(runs, k), runs[k], IsDark(k))
  }

  lemma LineHasRuns(line: Line)
    ensures HasRuns(line, Runs(line))
  {
    hide Runs, Expand, Alternating, IsDark;
    RunsDecompose(line);
    RunsAreBands(Runs(line));
  }

  /** The run in which a module lies. */
  lemma {:induction false} RunOf(runs: seq<nat>, n: nat, i: nat) returns (k: nat)
    requires n <= |runs| && i < Start(runs, n)
    ensures k < n && Start(runs, k) <= i < Start(runs, k) + runs[k]
  {
    if i < Start(runs, n - 1) {
      k := RunOf(runs, n - 1, i);
    } else {
      k := n - 1;
    }
  }

  lemma RunIs(line: Line, runs: seq<nat>, k: nat)
    requires HasRuns(line, runs) && k < |runs|
    ensures Band(line, Start(runs, k), runs[k], IsDark(k)) && (k > 0 ==> runs[k] > 0)
    ensures Start(runs, k + 1) == Start(runs, k) + runs[k] && IsDark(k + 1) == !IsDark(k)
    ensures |line| == Start(runs, |runs|)
  {
    hide Start, IsDark, Band;
    StartNext(runs, k);
    Turns(k);
  }

  lemma StartNext(runs: seq<nat>, k: nat)
    requires k < |runs|
    ensures Start(runs, k + 1) == Start(runs, k) + runs[k]
  {}

  lemma Turns(k: nat)
    ensures IsDark(k + 1) == !IsDark(k)
  {}

  /** A stretch that starts with a run is not longer than it. */
  lemma PartOfRun(line: Line, runs: seq<nat>, k: nat, length: nat)
    requires HasRuns(line, runs) && k < |runs|
    requires Band(line, Start(runs, k), length, IsDark(k))
    ensures runs[k] >= length
  {
    hide HasRuns, Start, IsDark;
    RunIs(line, runs, k);
    if runs[k] < length {
      var next := Start(runs, k + 1);
      BandHas(line, Start(runs, k), length, IsDark(k), next);
      RunIs(line, runs, k + 1);
      BandHas(line, next, runs[k + 1], IsDark(k + 1), next);
    }
  }

  /** One that is followed by another color is the run. */
  lemma WholeRun(line: Line, runs: seq<nat>, k: nat, length: nat)
    requires HasRuns(line, runs) && k < |runs| && length > 0
    requires Band(line, Start(runs, k), length, IsDark(k))
    requires Start(runs, k) + length < |line| && line[Start(runs, k) + length] != IsDark(k)
    ensures runs[k] == length && k + 1 < |runs| && Start(runs, k + 1) == Start(runs, k) + length
  {
    hide HasRuns, Start, IsDark;
    RunIs(line, runs, k);
    PartOfRun(line, runs, k, length);
  }

  /** A stretch that ends where run k starts is not longer than the run before it. */
  lemma EndOfRun(line: Line, runs: seq<nat>, k: nat, length: nat)
    requires HasRuns(line, runs) && 1 <= k < |runs|
    requires Band(line, Start(runs, k) - length, length, IsDark(k - 1))
    ensures runs[k - 1] >= length
  {
    hide HasRuns, Start, IsDark, Band;
    RunIs(line, runs, k - 1);
    if k == 1 {
      StartsAtZero(runs);
      BandFits(line, Start(runs, k) - length, length, IsDark(k - 1));
    } else if runs[k - 1] < length {
      RunIs(line, runs, k - 2);
      var i := Start(runs, k - 1) - 1;
      BandFits(line, Start(runs, k) - length, length, IsDark(k - 1));
      RunsAlternate(line, runs);
      RunBefore(runs, k - 1);
      BandHas(line, Start(runs, k) - length, length, IsDark(k - 1), i);
      BandHas(line, Start(runs, k - 2), runs[k - 2], IsDark(k - 2), i);
    }
  }

  lemma RunBefore(runs: seq<nat>, k: nat)
    requires Alternating(runs) && 1 <= k <= |runs| && Start(runs, k) > 0
    ensures runs[k - 1] > 0
  {
    if k == 1 {
      assert Start(runs, 0) == 0;
    }
  }

  lemma RunsAlternate(line: Line, runs: seq<nat>)
    requires HasRuns(line, runs)
    ensures Alternating(runs)
  {}

  lemma StartsAtZero(runs: seq<nat>)
    ensures Start(runs, 0) == 0
  {}

  lemma BandFits(line: Line, from: int, length: nat, color: bool)
    requires Band(line, from, length, color)
    ensures 0 <= from && from + length <= |line|
  {}

  lemma BandHas(line: Line, from: int, length: nat, color: bool, i: int)
    requires Band(line, from, length, color) && from <= i < from + length
    ensures 0 <= i < |line| && line[i] == color
  {}

  // ----- The pictures -----

  const PICTURE: string := "....#.###.#."
  const MIRRORED: string := ".#.###.#...."

  /** A picture, how far each of its modules is stretched, and where it stands. */
  datatype Finder = Finder(at: int, unit: nat, mirrored: bool)

  ghost predicate Stands(line: Line, f: Finder) {
    var picture := if f.mirrored then MIRRORED else PICTURE;
    f.unit > 0 && forall u :: 0 <= u < |picture| ==> Band(line, f.at + u * f.unit, f.unit, picture[u] == '#')
  }

  ghost function Standing(line: Line): set<Finder> {
    set at, unit, mirrored | 0 <= at < |line| && 0 < unit <= |line| && Stands(line, Finder(at, unit, mirrored)) :: Finder(at, unit, mirrored)
  }

  /** Dark, light, dark, light, dark in units 1:1:3:1:1, with so much light before and after. */
  ghost predicate Bands(line: Line, q: int, n: nat, before: nat, after: nat) {
    Band(line, q - before, before, false) && Band(line, q, n, true) && Band(line, q + n, n, false)
    && Band(line, q + 2 * n, 3 * n, true) && Band(line, q + 5 * n, n, false) && Band(line, q + 6 * n, n, true)
    && Band(line, q + 7 * n, after, false)
  }

  lemma Pictures(k: nat)
    requires k < 12
    ensures |PICTURE| == 12 && (PICTURE[k] == '#' <==> k in {4, 6, 7, 8, 10})
    ensures |MIRRORED| == 12 && (MIRRORED[k] == '#' <==> k in {1, 3, 4, 5, 7})
  {
    assert k == 0 || k == 1 || k == 2 || k == 3 || k == 4 || k == 5 || k == 6 || k == 7 || k == 8 || k == 9 || k == 10 || k == 11;
  }

  lemma Joined(line: Line, from: int, m: nat, n: nat, color: bool)
    ensures Band(line, from, m + n, color) <==> Band(line, from, m, color) && Band(line, from + m, n, color)
  {}

  lemma PictureBands(line: Line, f: Finder)
    ensures !f.mirrored ==> (Stands(line, f) <==> f.unit > 0 && Bands(line, f.at + 4 * f.unit, f.unit, 4 * f.unit, f.unit))
    ensures f.mirrored ==> (Stands(line, f) <==> f.unit > 0 && Bands(line, f.at + f.unit, f.unit, f.unit, 4 * f.unit))
  {
    hide Band;
    var n := f.unit;
    var picture := if f.mirrored then MIRRORED else PICTURE;
    Pictures(0);
    if Stands(line, f) {
      forall u | 0 <= u < 12 ensures UnitStands(line, f, u) {
        UnitIs(line, f, u);
      }
      UnitsJoined(line, f);
    } else if n > 0 && (if f.mirrored then Bands(line, f.at + n, n, n, 4 * n) else Bands(line, f.at + 4 * n, n, 4 * n, n)) {
      UnitsSplit(line, f);
      forall u | 0 <= u < 12 ensures Band(line, f.at + u * n, n, picture[u] == '#') {
        UnitIs(line, f, u);
      }
    }
  }

  /** Unit u of the picture, by its number. */
  ghost predicate UnitStands(line: Line, f: Finder, u: nat) {
    Band(line, f.at + u * f.unit, f.unit, if f.mirrored then u in {1, 3, 4, 5, 7} else u in {4, 6, 7, 8, 10})
  }

  lemma UnitIs(line: Line, f: Finder, u: nat)
    requires u < 12
    ensures var picture := if f.mirrored then MIRRORED else PICTURE;
      |picture| == 12 && (UnitStands(line, f, u) <==> Band(line, f.at + u * f.unit, f.unit, picture[u] == '#'))
  {
    Pictures(u);
  }

  lemma UnitsJoined(line: Line, f: Finder)
    requires f.unit > 0 && forall u :: 0 <= u < 12 ==> UnitStands(line, f, u)
    ensures !f.mirrored ==> Bands(line, f.at + 4 * f.unit, f.unit, 4 * f.unit, f.unit)
    ensures f.mirrored ==> Bands(line, f.at + f.unit, f.unit, f.unit, 4 * f.unit)
  {
    hide Band;
    var n, at := f.unit, f.at;
    assert UnitStands(line, f, 0) && UnitStands(line, f, 1) && UnitStands(line, f, 2) && UnitStands(line, f, 3)
        && UnitStands(line, f, 4) && UnitStands(line, f, 5) && UnitStands(line, f, 6) && UnitStands(line, f, 7)
        && UnitStands(line, f, 8) && UnitStands(line, f, 9) && UnitStands(line, f, 10) && UnitStands(line, f, 11);
    if f.mirrored {
      Three(line, at + 3 * n, n, true);
      Four(line, at + 8 * n, n, false);
    } else {
      Four(line, at, n, false);
      Three(line, at + 6 * n, n, true);
    }
  }

  lemma UnitsSplit(line: Line, f: Finder)
    requires f.unit > 0
    requires if f.mirrored then Bands(line, f.at + f.unit, f.unit, f.unit, 4 * f.unit)
      else Bands(line, f.at + 4 * f.unit, f.unit, 4 * f.unit, f.unit)
    ensures forall u :: 0 <= u < 12 ==> UnitStands(line, f, u)
  {
    hide Band;
    var n, at := f.unit, f.at;
    if f.mirrored {
      Three(line, at + 3 * n, n, true);
      Four(line, at + 8 * n, n, false);
    } else {
      Four(line, at, n, false);
      Three(line, at + 6 * n, n, true);
    }
    forall u | 0 <= u < 12 ensures UnitStands(line, f, u) {
      if u == 0 {} else if u == 1 {} else if u == 2 {} else if u == 3 {} else if u == 4 {} else if u == 5 {}
      else if u == 6 {} else if u == 7 {} else if u == 8 {} else if u == 9 {} else if u == 10 {} else {}
    }
  }

  lemma Three(line: Line, from: int, n: nat, color: bool)
    ensures Band(line, from, 3 * n, color) <==>
      Band(line, from, n, color) && Band(line, from + n, n, color) && Band(line, from + 2 * n, n, color)
  {
    hide Band;
    Joined(line, from, n, n, color);
    Joined(line, from, 2 * n, n, color);
    assert n + n == 2 * n && 2 * n + n == 3 * n;
  }

  lemma Four(line: Line, from: int, n: nat, color: bool)
    ensures Band(line, from, 4 * n, color) <==>
      Band(line, from, n, color) && Band(line, from + n, n, color) && Band(line, from + 2 * n, n, color)
      && Band(line, from + 3 * n, n, color)
  {
    hide Band;
    Three(line, from, n, color);
    Joined(line, from, 3 * n, n, color);
    assert 3 * n + n == 4 * n;
  }

  // ----- Every pattern once -----

  /** Where the first dark module of the pattern lies. */
  function FirstDark(f: Finder): int {
    f.at + (if f.mirrored then f.unit else 4 * f.unit)
  }

  /** The patterns whose last light run is run k. */
  ghost function AtRun(runs: seq<nat>, k: nat): set<Finder>
    requires 6 <= k < |runs|
  {
    set f: Finder | f in {Finder(Start(runs, k - 5) - 4 * runs[k - 5], runs[k - 5], false), Finder(Start(runs, k - 5) - runs[k - 5], runs[k - 5], true)}
      && Around(runs, k, f)
  }

  /** The runs up to k are those of the pattern. */
  predicate Around(runs: seq<nat>, k: nat, f: Finder)
    requires 6 <= k < |runs|
  {
    var n := f.unit;
    n > 0 && runs[k - 5] == n && runs[k - 4] == n && runs[k - 3] == 3 * n && runs[k - 2] == n && runs[k - 1] == n
    && (if f.mirrored then runs[k - 6] >= n && runs[k] >= 4 * n else runs[k - 6] >= 4 * n && runs[k] >= n)
  }

  ghost predicate Listed(runs: seq<nat>, k: nat, f: Finder) {
    6 <= k < |runs| && !IsDark(k) && FirstDark(f) == Start(runs, k - 5) && Around(runs, k, f)
  }

  lemma AtRunSize(runs: seq<nat>, k: nat)
    requires 6 <= k < |runs|
    ensures |AtRun(runs, k)| == FindersAt(runs, k)
    ensures !IsDark(k) ==> forall f :: f in AtRun(runs, k) <==> Listed(runs, k, f)
  {
    hide Start;
    var n := runs[k - 5];
    var f, g := Finder(Start(runs, k - 5) - 4 * n, n, false), Finder(Start(runs, k - 5) - n, n, true);
    if Around(runs, k, f) && Around(runs, k, g) {
      assert AtRun(runs, k) == {f, g};
    } else if Around(runs, k, f) {
      assert AtRun(runs, k) == {f};
    } else if Around(runs, k, g) {
      assert AtRun(runs, k) == {g};
    } else {
      assert AtRun(runs, k) == {};
    }
  }

  ghost function Places(runs: seq<nat>): set<Finder> {
    if runs == [] then {}
    else
      var k := |runs| - 1;
      Places(runs[..k]) + (if k >= 6 && !IsDark(k) then AtRun(runs, k) else {})
  }

  lemma {:induction false} PlacesListed(runs: seq<nat>)
    ensures forall f :: f in Places(runs) <==> exists k :: Listed(runs, k, f)
  {
    hide IsDark, AtRun, Start, Listed;
    if runs == [] {
      NothingListed();
    } else {
      var last := |runs| - 1;
      PlacesListed(runs[..last]);
      if last >= 6 {
        AtRunSize(runs, last);
      }
      forall f ensures f in Places(runs) <==> exists k :: Listed(runs, k, f) {
        forall k: nat ensures Listed(runs[..last], k, f) <==> Listed(runs, k, f) && k != last {
          ListedPrefix(runs, k, f);
        }
        ListedLast(runs, f);
      }
    }
  }

  lemma NothingListed()
    ensures forall k, f :: !Listed([], k, f)
  {}

  lemma ListedPrefix(runs: seq<nat>, k: nat, f: Finder)
    requires runs != []
    ensures Listed(runs[..|runs| - 1], k, f) <==> Listed(runs, k, f) && k != |runs| - 1
    ensures Listed(runs[..|runs| - 1], k, f) ==> k < |runs| - 1
  {
    if 6 <= k < |runs| - 1 {
      StartPrefix(runs, |runs| - 1, k - 5);
    }
  }

  lemma ListedLast(runs: seq<nat>, f: Finder)
    requires runs != []
    ensures Listed(runs, |runs| - 1, f) ==> |runs| - 1 >= 6 && !IsDark(|runs| - 1)
  {}

  lemma {:induction false} PlacesCount(runs: seq<nat>)
    requires Alternating(runs)
    ensures |Places(runs)| == Finders(runs)
  {
    hide IsDark, AtRun, Start, Listed, FindersAt;
    var last := |runs| - 1;
    var front := runs[..last];
    if last == 0 {
      assert front == [];
    } else {
      PlacesCount(front);
      PlacesListed(front);
      if last >= 6 && !IsDark(last) {
        AtRunSize(runs, last);
        forall f | f in Places(front) ensures f !in AtRun(runs, last) {
          var k :| Listed(front, k, f);
          ListedPrefix(runs, k, f);
          ListedOnce(runs, k, last, f);
        }
        assert Places(front) !! AtRun(runs, last);
      }
    }
  }

  lemma ListedOnce(runs: seq<nat>, j: nat, k: nat, f: Finder)
    requires Alternating(runs) && j < k && Listed(runs, j, f)
    ensures !Listed(runs, k, f)
  {
    hide Start;
    if Listed(runs, k, f) {
      StartsGrow(runs, j - 5, k - 5);
    }
  }

  // ----- What stands in the line is listed -----

  lemma ListedStands(line: Line, runs: seq<nat>, k: nat, f: Finder)
    requires HasRuns(line, runs) && Listed(runs, k, f)
    ensures Stands(line, f)
  {
    hide HasRuns, Start, Stands, IsDark, Band;
    PictureBands(line, f);
    RunIs(line, runs, k - 6);
    RunIs(line, runs, k - 5);
    RunIs(line, runs, k - 4);
    RunIs(line, runs, k - 3);
    RunIs(line, runs, k - 2);
    RunIs(line, runs, k - 1);
    RunIs(line, runs, k);
    var n, q := f.unit, Start(runs, k - 5);
    var before, after := if f.mirrored then n else 4 * n, if f.mirrored then 4 * n else n;
    BandEnd(line, Start(runs, k - 6), runs[k - 6], before, false);
    BandStart(line, Start(runs, k), runs[k], after, false);
  }

  lemma BandEnd(line: Line, from: int, length: nat, part: nat, color: bool)
    requires Band(line, from, length, color) && part <= length
    ensures Band(line, from + length - part, part, color)
  {}

  lemma BandStart(line: Line, from: int, length: nat, part: nat, color: bool)
    requires Band(line, from, length, color) && part <= length
    ensures Band(line, from, part, color)
  {}

  /** A dark module behind a light one starts a run. */
  lemma DarkStarts(line: Line, runs: seq<nat>, q: nat) returns (j: nat)
    requires HasRuns(line, runs) && 0 < q < |line| && line[q] && !line[q - 1]
    ensures 1 <= j < |runs| && IsDark(j) && Start(runs, j) == q
  {
    hide HasRuns, Start, Band;
    LineEnds(line, runs);
    j := RunOf(runs, |runs|, q);
    RunIs(line, runs, j);
    BandHas(line, Start(runs, j), runs[j], IsDark(j), q);
    if Start(runs, j) < q {
      BandHas(line, Start(runs, j), runs[j], IsDark(j), q - 1);
    }
  }

  lemma LineEnds(line: Line, runs: seq<nat>)
    requires HasRuns(line, runs)
    ensures |line| == Start(runs, |runs|)
  {}

  lemma StandsListed(line: Line, runs: seq<nat>, f: Finder) returns (k: nat)
    requires HasRuns(line, runs) && Stands(line, f)
    ensures Listed(runs, k, f)
  {
    hide HasRuns, Start, Stands, Band;
    PictureBands(line, f);
    var n, q := f.unit, FirstDark(f);
    var before, after := if f.mirrored then n else 4 * n, if f.mirrored then 4 * n else n;
    BandFits(line, q - before, before, false);
    BandHas(line, q - before, before, false, q - 1);
    BandHas(line, q, n, true, q);
    var j := DarkStarts(line, runs, q);
    EndOfRun(line, runs, j, before);
    FiveRuns(line, runs, j, q, n, after);
    k := j + 5;
  }

  lemma FiveRuns(line: Line, runs: seq<nat>, j: nat, q: nat, n: nat, after: nat)
    requires HasRuns(line, runs) && n > 0 && after > 0 && 1 <= j < |runs| && IsDark(j) && Start(runs, j) == q
    requires Band(line, q, n, true) && Band(line, q + n, n, false) && Band(line, q + 2 * n, 3 * n, true)
    requires Band(line, q + 5 * n, n, false) && Band(line, q + 6 * n, n, true) && Band(line, q + 7 * n, after, false)
    ensures j + 5 < |runs| && runs[j] == runs[j + 1] == runs[j + 3] == runs[j + 4] == n && runs[j + 2] == 3 * n
    ensures runs[j + 5] >= after
  {
    hide HasRuns, Start, IsDark, Band;
    Turns(j);
    NextBand(line, runs, j, n, n);
    Turns(j + 1);
    NextBand(line, runs, j + 1, n, 3 * n);
    Turns(j + 2);
    NextBand(line, runs, j + 2, 3 * n, n);
    Turns(j + 3);
    NextBand(line, runs, j + 3, n, n);
    Turns(j + 4);
    NextBand(line, runs, j + 4, n, after);
    PartOfRun(line, runs, j + 5, after);
  }

  /** A stretch from the start of a run on and one of the other color behind it. */
  lemma NextBand(line: Line, runs: seq<nat>, k: nat, length: nat, next: nat)
    requires HasRuns(line, runs) && k < |runs| && length > 0 && next > 0
    requires Band(line, Start(runs, k), length, IsDark(k)) && Band(line, Start(runs, k) + length, next, !IsDark(k))
    ensures runs[k] == length && k + 1 < |runs| && Start(runs, k + 1) == Start(runs, k) + length
  {
    hide HasRuns, Start, IsDark, Band;
    BandHas(line, Start(runs, k) + length, next, !IsDark(k), Start(runs, k) + length);
    WholeRun(line, runs, k, length);
  }

  /** The runs count every picture that stands in the line, of any unit and at any place, once. */
  lemma FindersCounted(line: Line)
    ensures Finders(Runs(line)) == |Standing(line)|
  {
    hide Runs, Finders, Alternating, Stands, Listed, Places, HasRuns;
    var runs := Runs(line);
    RunsDecompose(line);
    LineHasRuns(line);
    PlacesCount(runs);
    PlacesListed(runs);
    forall f ensures f in Places(runs) <==> f in Standing(line) {
      if f in Places(runs) {
        var k :| Listed(runs, k, f);
        ListedStands(line, runs, k, f);
        StandsInside(line, f);
      }
      if f in Standing(line) {
        var k := StandsListed(line, runs, f);
      }
    }
    assert Places(runs) == Standing(line);
  }

  lemma StandsInside(line: Line, f: Finder)
    requires Stands(line, f)
    ensures 0 <= f.at < |line| && 0 < f.unit <= |line|
  {
    UnitIs(line, f, 0);
    assert Band(line, f.at + 0 * f.unit, f.unit, (if f.mirrored then MIRRORED else PICTURE)[0] == '#');
  }

  // ----- Rows of five -----

  /** The five modules up to place i have one color. */
  ghost predicate Five(line: Line, i: int) {
    4 <= i < |line| && line[i - 4] == line[i - 3] == line[i - 2] == line[i - 1] == line[i]
  }

  /** They are the first five of their run. */
  ghost predicate FirstFive(line: Line, i: int) {
    Five(line, i) && (i > 4 ==> line[i - 5] != line[i])
  }

  ghost function Fives(line: Line): set<int> {
    set i | 0 <= i < |line| && Five(line, i)
  }

  ghost function FirstFives(line: Line): set<int> {
    set i | 0 <= i < |line| && FirstFive(line, i)
  }

  /** The last run reaches as far back as its color. */
  lemma LastRun(line: Line, runs: seq<nat>, m: nat)
    requires HasRuns(line, runs) && m > 0
    ensures var last := |runs| - 1;
      runs[last] >= m <==> Band(line, |line| - m, m, IsDark(last))
  {
    hide HasRuns, Start, IsDark, Band;
    RunsAlternate(line, runs);
    var last := |runs| - 1;
    RunIs(line, runs, last);
    if runs[last] >= m {
      BandEnd(line, Start(runs, last), runs[last], m, IsDark(last));
    } else if Band(line, |line| - m, m, IsDark(last)) {
      BandFits(line, |line| - m, m, IsDark(last));
      if last == 0 {
        StartsAtZero(runs);
      } else {
        RunIs(line, runs, last - 1);
        RunBefore(runs, last);
        var i := Start(runs, last) - 1;
        BandHas(line, |line| - m, m, IsDark(last), i);
        BandHas(line, Start(runs, last - 1), runs[last - 1], IsDark(last - 1), i);
      }
    }
  }

  /** Each five modules of one color in a row cost a point, and the first five of a run two more. */
  lemma {:induction false} FivesCounted(line: Line)
    ensures RunsScore(Runs(line)) == |Fives(line)| + 2 * |FirstFives(line)|
  {
    hide Runs, RunsScore, RunScore, IsDark, HasRuns;
    if line == [] {
      EmptyRuns();
      ScoreAppend([], 0);
      assert Fives(line) == {} && FirstFives(line) == {};
      NoScore();
    } else {
      LineSplit(line);
      var front, i := line[..|line| - 1], |line| - 1;
      FivesCounted(front);
      LineHasRuns(line);
      FivesNext(line);
      ScoreNext(front, line[i]);
      LastFive(line, Runs(line));
    }
  }

  lemma NoScore()
    ensures RunsScore([]) == 0 && RunScore(0) == 0
  {}

  lemma FivesNext(line: Line)
    requires line != []
    ensures var i := |line| - 1;
      |Fives(line)| == |Fives(line[..i])| + (if Five(line, i) then 1 else 0)
      && |FirstFives(line)| == |FirstFives(line[..i])| + (if FirstFive(line, i) then 1 else 0)
  {
    var i := |line| - 1;
    assert Fives(line) == Fives(line[..i]) + (if Five(line, i) then {i} else {});
    assert FirstFives(line) == FirstFives(line[..i]) + (if FirstFive(line, i) then {i} else {});
  }

  /** What a module adds depends on the run that it ends. */
  lemma ScoreNext(front: Line, color: bool)
    ensures var n := Runs(front + [color])[|Runs(front + [color])| - 1];
      n > 0 && RunsScore(Runs(front + [color])) == RunsScore(Runs(front)) + (if n > 5 then 1 else if n == 5 then 3 else 0)
  {
    hide Runs, RunsScore, Finders;
    RunsAppend(front, color);
    var runs := Runs(front);
    var last := |runs| - 1;
    if color == IsDark(last) {
      LineSplit(runs);
      ScoreAppend(runs[..last], runs[last]);
      ScoreAppend(runs[..last], runs[last] + 1);
    } else {
      ScoreAppend(runs, 1);
    }
  }

  lemma LastFive(line: Line, runs: seq<nat>)
    requires HasRuns(line, runs) && line != [] && runs != [] && runs[|runs| - 1] > 0
    ensures var i, n := |line| - 1, runs[|runs| - 1];
      (Five(line, i) <==> n >= 5) && (FirstFive(line, i) <==> n == 5)
  {
    hide HasRuns, IsDark, Runs;
    LastRun(line, runs, 1);
    LastRun(line, runs, 5);
    LastRun(line, runs, 6);
    var i, color := |line| - 1, IsDark(|runs| - 1);
    BandHas(line, i, 1, color, i);
    FiveIsBand(line, i, color);
    SixIsBand(line, i, color);
  }

  lemma FiveIsBand(line: Line, i: nat, color: bool)
    requires i == |line| - 1 && line[i] == color
    ensures Five(line, i) <==> Band(line, i - 4, 5, color)
  {}

  lemma SixIsBand(line: Line, i: nat, color: bool)
    requires i == |line| - 1 && line[i] == color
    ensures Five(line, i) && !FirstFive(line, i) <==> Band(line, i - 5, 6, color)
  {}

  // ----- The whole symbol -----

  /** The points of a line between two stretches of light as long as the symbol is wide. */
  ghost function LinePoints(line: Line, size: nat): nat {
    |Fives(line)| + 2 * |FirstFives(line)| + 40 * |Standing(Light(size) + line + Light(size))|
  }

  function Light(n: nat): Line {
    seq(n, _ => false)
  }

  /** Line i of the symbol: the rows and then the columns. */
  ghost function LineOf(g: Grid, size: nat, i: nat): Line
    requires Square(g, size) && i < 2 * size
  {
    if i < size then seq(size, x requires 0 <= x < size => g[i][x]) else seq(size, y requires 0 <= y < size => g[y][i - size])
  }

  ghost function Points(g: Grid, size: nat, n: nat): nat
    requires Square(g, size) && n <= 2 * size
  {
    if n == 0 then 0 else Points(g, size, n - 1) + LinePoints(LineOf(g, size, n - 1), size)
  }

  lemma LineScored(line: Line, size: nat)
    ensures LineScore(line, size) == LinePoints(line, size)
  {
    hide Runs, Finders, RunsScore, Standing, Fives, FirstFives;
    FivesCounted(line);
    FindersCounted(Padded(line, size));
    assert Padded(line, size) == Light(size) + line + Light(size);
  }

  lemma {:induction false} LinesScored(g: Grid, size: nat, n: nat)
    requires Square(g, size) && n <= size
    ensures Points(g, size, n) == RowsScore(g, size, n)
    ensures Points(g, size, size + n) == Points(g, size, size) + ColumnsScore(g, size, n)
  {
    hide LineScore, LinePoints;
    if n > 0 {
      LinesScored(g, size, n - 1);
      LineScored(LineOf(g, size, n - 1), size);
      LineScored(LineOf(g, size, size + n - 1), size);
      assert LineOf(g, size, n - 1) == g[n - 1];
      assert LineOf(g, size, size + n - 1) == Column(g, n - 1);
    }
  }

  /** The blocks of four modules of one color, by their top left corners. */
  ghost function Squares(g: Grid, size: nat): set<(int, int)>
    requires Square(g, size)
  {
    set x, y | 0 <= x < size - 1 && 0 <= y < size - 1
      && g[y][x] == g[y][x + 1] && g[y][x] == g[y + 1][x] && g[y][x] == g[y + 1][x + 1] :: (x, y)
  }

  ghost function DarkModules(g: Grid, size: nat): set<(int, int)>
    requires Square(g, size)
  {
    set x, y | 0 <= x < size && 0 <= y < size && g[y][x] :: (x, y)
  }

  /** The score in points, read off the modules: k is the least number of 5% steps by which the dark share is off one half. */
  lemma PenaltyShown(g: Grid, size: nat) returns (k: nat)
    requires Square(g, size) && size % 2 == 1
    ensures PenaltyScore(g, size) == Points(g, size, 2 * size) + 3 * |Squares(g, size)| + 10 * k
    ensures var dark, all := |DarkModules(g, size)|, size * size;
      (45 - 5 * k) * all <= 100 * dark <= (55 + 5 * k) * all
      && (k > 0 ==> !((50 - 5 * k) * all <= 100 * dark <= (50 + 5 * k) * all))
  {
    hide Points, RowsScore, ColumnsScore, BalanceSteps;
    OddSquare(size);
    DarkBound(g, size);
    k := BalanceSteps(|Dark(g, size, 0, size)|, size * size);
    LinesScored(g, size, size);
    assert Squares(g, size) == Blocks(g, size, 0, size);
    assert DarkModules(g, size) == Dark(g, size, 0, size);
    if k > 0 {
      assert !Balanced(|Dark(g, size, 0, size)|, size * size, k - 1);
    }
  }
}
