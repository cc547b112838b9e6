/**
  The penalty score of a symbol (section 7.8.3 of ISO/IEC 18004:2015).

  The program scores each line in one streaming pass with a window of the last seven runs.
  Here that pass is proved equal to a score read off the run-length decomposition of the line.
 */
module QrPenalty {
  import opened FiniteSets
  import opened QrGrid

  const PENALTY_N1: nat := 3
  const PENALTY_N2: nat := 3
  const PENALTY_N3: nat := 40
  const PENALTY_N4: nat := 10

  type Line = seq<bool>

  // ----- Run-length decomposition -----

  function Repeat(color: bool, n: nat): Line {
    seq(n, _ => color)
  }

  /** Light and dark runs take turns; run 0 is light. */
  predicate IsDark(k: nat) {
    k % 2 == 1
  }

  /** The line made of these runs: light, dark, light, ... */
  function Expand(runs: seq<nat>): Line {
    if runs == [] then []
    else Expand(runs[..|runs| - 1]) + Repeat(IsDark(|runs| - 1), runs[|runs| - 1])
  }

  /** Another module either makes the last run longer or starts a new one. */
  function Extend(runs: seq<nat>, color: bool): (longer: seq<nat>)
    requires |runs| > 0
    ensures |longer| > 0
  {
    var last := |runs| - 1;
    if color == IsDark(last) then runs[..last] + [runs[last] + 1] else runs + [1]
  }

  /** The runs of a line, starting with a light run that may be empty. */
  function Runs(line: Line): (runs: seq<nat>)
    ensures |runs| > 0
  {
    if line == [] then [0] else Extend(Runs(line[..|line| - 1]), line[|line| - 1])
  }

  ghost predicate Alternating(runs: seq<nat>) {
    |runs| > 0 && forall k :: 1 <= k < |runs| ==> runs[k] > 0
  }

  lemma ExpandAppend(runs: seq<nat>, n: nat)
    ensures Expand(runs + [n]) == Expand(runs) + Repeat(IsDark(|runs|), n)
  {
    assert (runs + [n])[..|runs|] == runs;
  }

  lemma RunsAppend(line: Line, color: bool)
    ensures Runs(line + [color]) == Extend(Runs(line), color)
  {
    hide Extend;
    assert (line + [color])[..|line|] == line;
  }

  lemma RepeatMore(color: bool, n: nat)
    ensures Repeat(color, n + 1) == Repeat(color, n) + [color]
  {}

  lemma LineSplit<T>(line: seq<T>)
    requires line != []
    ensures line == line[..|line| - 1] + [line[|line| - 1]]
  {}

  /** Runs is a decomposition of the line into maximal runs ... */
  lemma {:induction false} RunsDecompose(line: Line)
    ensures Expand(Runs(line)) == line && Alternating(Runs(line))
  {
    hide Expand, Runs;
    if line == [] {
      EmptyRuns();
    } else {
      LineSplit(line);
      var front, color := line[..|line| - 1], line[|line| - 1];
      RunsDecompose(front);
      RunsAppend(front, color);
      var runs := Runs(front);
      var last := |runs| - 1;
      LineSplit(runs);
      ExpandAppend(runs[..last], runs[last]);
      ExpandAppend(runs[..last], runs[last] + 1);
      RepeatMore(color, runs[last]);
      ExpandAppend(runs, 1);
      RepeatMore(color, 0);
      assert Repeat(color, 0) == [];
    }
  }

  lemma EmptyRuns()
    ensures Runs([]) == [0] && Expand([0]) == []
  {
    ExpandAppend([], 0);
  }

  lemma ExtendSame(front: seq<nat>, n: nat)
    requires n > 0
    ensures Extend(front + [n - 1], IsDark(|front|)) == front + [n]
  {
    hide IsDark;
    assert (front + [n - 1])[..|front|] == front;
  }

  lemma ExtendNew(front: seq<nat>)
    requires front != []
    ensures Extend(front, IsDark(|front|)) == front + [1]
  {}

  /** ... and the only one. */
  lemma {:induction false} DecompositionUnique(runs: seq<nat>)
    requires Alternating(runs)
    ensures Runs(Expand(runs)) == runs
    decreases |runs|, runs[|runs| - 1]
  {
    hide Expand, Runs, Extend, IsDark;
    var last := |runs| - 1;
    var front, n := runs[..last], runs[last];
    var color := IsDark(last);
    LineSplit(runs);
    ExpandAppend(front, n);
    if n == 0 {
      EmptyRuns();
    } else {
      ExpandAppend(front, n - 1);
      RepeatMore(color, n - 1);
      var shorter := Expand(front) + Repeat(color, n - 1);
      assert Expand(runs) == shorter + [color];
      RunsAppend(shorter, color);
      if n == 1 && last > 0 {
        assert shorter == Expand(front);
        DecompositionUnique(front);
        ExtendNew(front);
      } else {
        DecompositionUnique(front + [n - 1]);
        ExtendSame(front, n);
      }
    }
  }

  // ----- The score of one line -----

  /** A maximal run of five or more costs 3, and 1 for each further module. */
  function RunScore(length: nat): nat {
    if length >= 5 then length - 2 else 0
  }

  function RunsScore(runs: seq<nat>): nat {
    if runs == [] then 0 else RunsScore(runs[..|runs| - 1]) + RunScore(runs[|runs| - 1])
  }

  /**
    The finder-like patterns centred on the five runs before run k: dark, light, dark, light, dark
    in the ratio 1:1:3:1:1, with four units of light on one side and one on the other.
   */
  function FindersAt(runs: seq<nat>, k: nat): nat
    requires 6 <= k < |runs|
  {
    var n := runs[k - 5];
    if n > 0 && runs[k - 4] == n && runs[k - 3] == 3 * n && runs[k - 2] == n && runs[k - 1] == n then
      (if runs[k - 6] >= 4 * n && runs[k] >= n then 1 else 0)
      + (if runs[k] >= 4 * n && runs[k - 6] >= n then 1 else 0)
    else 0
  }

  /** All finder-like patterns; light runs stand at the even places. */
  function Finders(runs: seq<nat>): nat {
    if runs == [] then 0
    else
      var k := |runs| - 1;
      Finders(runs[..k]) + (if k >= 6 && !IsDark(k) then FindersAt(runs, k) else 0)
  }

  /** The line with `border` light modules added on each side. */
  function Padded(line: Line, border: nat): Line {
    Repeat(false, border) + line + Repeat(false, border)
  }

  /** The score of a line of a symbol of the given size. */
  function LineScore(line: Line, size: nat): nat {
    RunsScore(Runs(line)) + Finders(Runs(Padded(line, size))) * PENALTY_N3
  }

  // ----- The streaming pass -----

  /** The seven latest of the given runs, newest first, with zeros where there are none. */
  function History(runs: seq<nat>): seq<nat> {
    seq(7, i requires 0 <= i < 7 => if i < |runs| then runs[|runs| - 1 - i] else 0)
  }

  /** The runs after the light border has been added on the left. */
  function LeftPadded(runs: seq<nat>, border: nat): seq<nat>
    requires |runs| > 0
  {
    runs[0 := runs[0] + border]
  }

  method AddHistory(currentRunLength: nat, history: array<nat>, size: nat)
    requires history.Length == 7
    modifies history
    ensures history[..] == [if old(history[0]) == 0 then currentRunLength + size else currentRunLength] + old(history[..6])
  {
    var length := currentRunLength;
    if history[0] == 0 {
      length := length + size;
    }
    var i := 6;
    while i > 0
      invariant 0 <= i <= 6
      invariant forall k :: 0 <= k <= i ==> history[k] == old(history[k])
      invariant forall k :: i < k < 7 ==> history[k] == old(history[k - 1])
    {
      history[i] := history[i - 1];
      i := i - 1;
    }
    history[0] := length;
  }

  method CountPatterns(history: array<nat>) returns (count: nat)
    requires history.Length == 7
    ensures forall runs :: history[..] == History(runs) && (forall k :: 0 <= k < |runs| ==> runs[k] > 0) ==>
      count == if |runs| > 6 then FindersAt(runs, |runs| - 1) else 0
  {
    var n := history[1];
    var core := n > 0 && history[2] == n && history[3] == n * 3 && history[4] == n && history[5] == n;
    count := (if core && history[0] >= n * 4 && history[6] >= n then 1 else 0)
      + (if core && history[6] >= n * 4 && history[0] >= n then 1 else 0);
    ghost var h := history[..];
    forall runs | h == History(runs) && (forall k :: 0 <= k < |runs| ==> runs[k] > 0)
      ensures count == if |runs| > 6 then FindersAt(runs, |runs| - 1) else 0
    {
      assert h[0] == History(runs)[0] && h[1] == History(runs)[1] && h[2] == History(runs)[2];
      assert h[3] == History(runs)[3] && h[4] == History(runs)[4];
      assert h[5] == History(runs)[5] && h[6] == History(runs)[6];
    }
  }

  // ----- Borders -----

  lemma {:induction false} RunsLeftPadded(line: Line, border: nat)
    ensures Runs(Repeat(false, border) + line) == LeftPadded(Runs(line), border)
  {
    hide Expand, Runs;
    EmptyRuns();
    if line == [] {
      assert Repeat(false, border) + line == Repeat(false, border);
      RunsOfLight(border);
    } else {
      LineSplit(line);
      var front, color := line[..|line| - 1], line[|line| - 1];
      RunsLeftPadded(front, border);
      assert Repeat(false, border) + line == (Repeat(false, border) + front) + [color];
      RunsAppend(Repeat(false, border) + front, color);
      RunsAppend(front, color);
    }
  }

  lemma {:induction false} RunsOfLight(n: nat)
    ensures Runs(Repeat(false, n)) == [n]
  {
    hide Expand, Runs;
    if n == 0 {
      EmptyRuns();
      assert Repeat(false, 0) == [];
    } else {
      RunsOfLight(n - 1);
      RepeatMore(false, n - 1);
      RunsAppend(Repeat(false, n - 1), false);
    }
  }

  /** The runs after a light border has been added on the right. */
  function RightPadded(runs: seq<nat>, border: nat): seq<nat>
    requires |runs| > 0
  {
    var last := |runs| - 1;
    if IsDark(last) then runs + [border] else runs[..last] + [runs[last] + border]
  }

  lemma {:induction false} RunsRightPadded(line: Line, border: nat)
    requires border > 0
    ensures Runs(line + Repeat(false, border)) == RightPadded(Runs(line), border)
  {
    hide Expand, Runs;
    RepeatMore(false, border - 1);
    var front := line + Repeat(false, border - 1);
    assert line + Repeat(false, border) == front + [false];
    RunsAppend(front, false);
    if border == 1 {
      assert front == line;
    } else {
      RunsRightPadded(line, border - 1);
    }
  }

  lemma RunsPadded(line: Line, border: nat)
    requires border > 0
    ensures Runs(Padded(line, border)) == RightPadded(LeftPadded(Runs(line), border), border)
  {
    hide Expand, Runs;
    RunsLeftPadded(line, border);
    RunsRightPadded(Repeat(false, border) + line, border);
  }

  // ----- One run more -----

  lemma ScoreAppend(runs: seq<nat>, n: nat)
    ensures RunsScore(runs + [n]) == RunsScore(runs) + RunScore(n)
    ensures Finders(runs + [n]) == Finders(runs) +
      (if |runs| >= 6 && !IsDark(|runs|) then FindersAt(runs + [n], |runs|) else 0)
  {
    assert (runs + [n])[..|runs|] == runs;
  }

  ghost predicate AllPositive(runs: seq<nat>) {
    forall k :: 0 <= k < |runs| ==> runs[k] > 0
  }

  lemma HistoryAppend(runs: seq<nat>, n: nat)
    ensures [n] + History(runs)[..6] == History(runs + [n])
  {}

  /** Adding a run that ended to the history; the first one takes the left border. */
  method EndRun(ghost done: seq<nat>, length: nat, history: array<nat>, size: nat)
    requires history.Length == 7 && size > 0
    requires history[..] == History(done) && AllPositive(done) && (done != [] ==> length > 0)
    modifies history
    ensures var run := if done == [] then length + size else length;
      history[..] == History(done + [run]) && AllPositive(done + [run])
  {
    ghost var run := if done == [] then length + size else length;
    assert history[0] == History(done)[0];
    assert history[..6] == History(done)[..6];
    AddHistory(length, history, size);
    HistoryAppend(done, run);
  }

  /** The runs that are complete after a prefix of the line, with the left border. */
  function Done(prefix: Line, size: nat): seq<nat> {
    var runs := Runs(prefix);
    LeftPadded(runs, size)[..|runs| - 1]
  }

  /** The score of a prefix, its last run being still open. */
  function PrefixScore(prefix: Line, size: nat): nat {
    RunsScore(Runs(prefix)) + Finders(Done(prefix, size)) * PENALTY_N3
  }

  lemma SameColor(prefix: Line, color: bool, size: nat)
    requires color == IsDark(|Runs(prefix)| - 1)
    ensures var runs, line := Runs(prefix), prefix + [color];
      var last := |runs| - 1;
      Runs(line) == runs[..last] + [runs[last] + 1] && Done(line, size) == Done(prefix, size)
      && PrefixScore(line, size) == PrefixScore(prefix, size) - RunScore(runs[last]) + RunScore(runs[last] + 1)
  {
    hide Expand, Runs, Finders, FindersAt, RunsScore;
    RunsAppend(prefix, color);
    var runs := Runs(prefix);
    var last := |runs| - 1;
    LineSplit(runs);
    ScoreAppend(runs[..last], runs[last]);
    ScoreAppend(runs[..last], runs[last] + 1);
  }

  /** The run that ends when the color changes. */
  function EndedRun(prefix: Line, size: nat): nat {
    var runs := Runs(prefix);
    if |runs| == 1 then runs[0] + size else runs[|runs| - 1]
  }

  lemma NewColor(prefix: Line, color: bool, size: nat)
    requires color != IsDark(|Runs(prefix)| - 1)
    ensures var runs, line, done := Runs(prefix), prefix + [color], Done(prefix, size) + [EndedRun(prefix, size)];
      Runs(line) == runs + [1] && Done(line, size) == done
      && PrefixScore(line, size) == PrefixScore(prefix, size) +
           (if color && |done| > 6 then FindersAt(done, |done| - 1) else 0) * PENALTY_N3
  {
    hide Expand, Runs, Finders, FindersAt, RunsScore;
    RunsAppend(prefix, color);
    ScoreAppend(Runs(prefix), 1);
    ScoreAppend(Done(prefix, size), EndedRun(prefix, size));
    assert Done(prefix + [color], size) == LeftPadded(Runs(prefix), size);
    LineSplit(LeftPadded(Runs(prefix), size));
  }

  /** The variables of the pass after a prefix of the line. */
  ghost predicate Streaming(prefix: Line, size: nat, runColor: bool, runX: nat, history: seq<nat>) {
    var runs := Runs(prefix);
    Alternating(runs) && runColor == IsDark(|runs| - 1) && runX == runs[|runs| - 1]
    && history == History(Done(prefix, size)) && AllPositive(Done(prefix, size))
  }

  method ScoreLine(line: Line, size: nat) returns (result: nat)
    requires size > 0
    ensures result == LineScore(line, size)
  {
    hide Runs, History, Streaming, PrefixScore, LineScore, AllPositive;
    result := 0;
    var runColor := false;
    var runX: nat := 0;
    var history := new nat[7](_ => 0);
    Initially(history[..], size);
    for x := 0 to |line|
      invariant Streaming(line[..x], size, runColor, runX, history[..])
      invariant result == PrefixScore(line[..x], size)
    {
      assert line[..x + 1] == line[..x] + [line[x]];
      if line[x] == runColor {
        ContinueRun(line[..x], size, runColor, runX, history[..]);
        runX := runX + 1;
        if runX == 5 {
          result := result + PENALTY_N1;
        } else if runX > 5 {
          result := result + 1;
        }
      } else {
        var count := ChangeColor(line[..x], runColor, runX, history, size);
        result := result + count * PENALTY_N3;
        runColor := line[x];
        runX := 1;
      }
    }
    assert line[..|line|] == line;
    var count := TerminateAndCount(line, runColor, runX, history, size);
    result := result + count * PENALTY_N3;
  }

  lemma ContinueRun(prefix: Line, size: nat, runColor: bool, runX: nat, history: seq<nat>)
    requires Streaming(prefix, size, runColor, runX, history)
    ensures Streaming(prefix + [runColor], size, runColor, runX + 1, history)
    ensures PrefixScore(prefix + [runColor], size) == PrefixScore(prefix, size) +
      (if runX + 1 == 5 then PENALTY_N1 else if runX + 1 > 5 then 1 else 0)
  {
    hide Expand, Runs, Done, History, PrefixScore;
    SameColor(prefix, runColor, size);
  }

  /** A run ends: it enters the history, and a light run may complete finder patterns. */
  method ChangeColor(ghost prefix: Line, runColor: bool, runX: nat, history: array<nat>, size: nat)
    returns (count: nat)
    requires history.Length == 7 && size > 0
    requires Streaming(prefix, size, runColor, runX, history[..])
    modifies history
    ensures Streaming(prefix + [!runColor], size, !runColor, 1, history[..])
    ensures PrefixScore(prefix + [!runColor], size) == PrefixScore(prefix, size) + count * PENALTY_N3
  {
    hide Expand, Runs, Done, History, PrefixScore, EndedRun, FindersAt;
    ghost var done := Done(prefix, size);
    NewColor(prefix, !runColor, size);
    Ended(prefix, size);
    EndRun(done, runX, history, size);
    count := 0;
    if !runColor {
      count := CountPatterns(history);
    }
  }

  lemma Ended(prefix: Line, size: nat)
    ensures (Done(prefix, size) == [] <==> |Runs(prefix)| == 1)
    ensures EndedRun(prefix, size) == Runs(prefix)[|Runs(prefix)| - 1] + (if Done(prefix, size) == [] then size else 0)
  {}

  lemma Initially(zeros: seq<nat>, size: nat)
    requires |zeros| == 7 && forall k :: 0 <= k < 7 ==> zeros[k] == 0
    ensures Streaming([], size, false, 0, zeros) && PrefixScore([], size) == 0
  {
    EmptyRuns();
    ScoreAppend([], 0);
  }

  /** The final run and the right border complete the padded line; the count is what they add. */
  method TerminateAndCount(ghost line: Line, currentRunColor: bool, currentRunLength: nat,
                           history: array<nat>, size: nat) returns (count: nat)
    requires history.Length == 7 && size > 0
    requires Streaming(line, size, currentRunColor, currentRunLength, history[..])
    modifies history
    ensures PrefixScore(line, size) + count * PENALTY_N3 == LineScore(line, size)
  {
    hide Expand, Runs, Finders, FindersAt, History, RunsScore, EndedRun, Done, PrefixScore, LineScore;
    ghost var done := Done(line, size);
    Ended(line, size);
    var length := currentRunLength;
    if currentRunColor {
      EndRun(done, length, history, size);
      done := done + [EndedRun(line, size)];
      length := 0;
    }
    length := length + size;
    EndRun(done, length, history, size);
    done := done + [if done == [] then length + size else length];
    Completed(line, size, done);
    count := CountPatterns(history);
  }

  lemma Completed(line: Line, size: nat, all: seq<nat>)
    requires size > 0
    requires all ==
      if IsDark(|Runs(line)| - 1) then Done(line, size) + [EndedRun(line, size)] + [size]
      else Done(line, size) + [EndedRun(line, size) + size]
    ensures LineScore(line, size) == PrefixScore(line, size) +
      (if |all| > 6 then FindersAt(all, |all| - 1) else 0) * PENALTY_N3
  {
    hide Expand, Runs, Finders, FindersAt, RunsScore;
    RunsPadded(line, size);
    assert all == Runs(Padded(line, size));
    var done, run := Done(line, size), EndedRun(line, size);
    if IsDark(|Runs(line)| - 1) {
      ScoreAppend(done, run);
      ScoreAppend(done + [run], size);
    } else {
      ScoreAppend(done, run + size);
    }
  }

  // ----- The score of a symbol -----

  ghost function RowsScore(g: Grid, size: nat, n: nat): nat
    requires Square(g, size) && n <= size
  {
    if n == 0 then 0 else RowsScore(g, size, n - 1) + LineScore(g[n - 1], size)
  }

  ghost function ColumnsScore(g: Grid, size: nat, n: nat): nat
    requires Square(g, size) && n <= size
  {
    if n == 0 then 0 else ColumnsScore(g, size, n - 1) + LineScore(Column(g, n - 1), size)
  }

  /** (x, y) comes before (x', y') in reading order. */
  predicate Before(x: int, y: int, x': int, y': int) {
    y < y' || (y == y' && x < x')
  }

  /** The top left corners before (x', y') of 2x2 blocks of one color. */
  ghost function Blocks(g: Grid, size: nat, x': int, y': int): set<(int, int)>
    requires Square(g, size)
  {
    set x, y | 0 <= y < size - 1 && 0 <= x < size - 1 && Before(x, y, x', y')
               && SameColorBlock(g, size, x, y) :: (x, y)
  }

  /** The dark modules before (x', y'). */
  ghost function Dark(g: Grid, size: nat, x': int, y': int): set<(int, int)>
    requires Square(g, size)
  {
    set x, y | 0 <= y < size && 0 <= x < size && Before(x, y, x', y') && g[y][x] :: (x, y)
  }

  /** The 2x2 block with top left corner (x, y) has one color. */
  ghost predicate SameColorBlock(g: Grid, size: nat, x: nat, y: nat)
    requires Square(g, size) && x + 1 < size && y + 1 < size
  {
    g[y][x] == g[y][x + 1] == g[y + 1][x] == g[y + 1][x + 1]
  }

  lemma BlocksNext(g: Grid, size: nat, x: nat, y: nat)
    requires Square(g, size) && x + 1 < size && y + 1 < size
    ensures |Blocks(g, size, x + 1, y)| == |Blocks(g, size, x, y)| + (if SameColorBlock(g, size, x, y) then 1 else 0)
  {
    if SameColorBlock(g, size, x, y) {
      assert Blocks(g, size, x + 1, y) == Blocks(g, size, x, y) + {(x, y)};
    } else {
      assert Blocks(g, size, x + 1, y) == Blocks(g, size, x, y);
    }
  }

  lemma BlocksNextRow(g: Grid, size: nat, y: nat)
    requires Square(g, size) && y < size
    ensures Blocks(g, size, 0, y + 1) == Blocks(g, size, size - 1, y)
    ensures y == size - 1 ==> Blocks(g, size, 0, y + 1) == Blocks(g, size, 0, y)
    ensures Blocks(g, size, 0, 0) == {}
  {}

  lemma DarkNext(g: Grid, size: nat, x: nat, y: nat)
    requires Square(g, size) && x < size && y < size
    ensures |Dark(g, size, x + 1, y)| == |Dark(g, size, x, y)| + (if g[y][x] then 1 else 0)
  {
    if g[y][x] {
      assert Dark(g, size, x + 1, y) == Dark(g, size, x, y) + {(x, y)};
    } else {
      assert Dark(g, size, x + 1, y) == Dark(g, size, x, y);
    }
  }

  lemma DarkNextRow(g: Grid, size: nat, y: nat)
    requires Square(g, size) && y < size
    ensures Dark(g, size, 0, y + 1) == Dark(g, size, size, y)
    ensures Dark(g, size, 0, 0) == {}
  {}

  /** (45 - 5k)% <= dark / total <= (55 + 5k)%. */
  predicate Balanced(dark: int, total: int, k: int) {
    (45 - 5 * k) * total <= 100 * dark <= (55 + 5 * k) * total
  }

  /** The least k for which the shares of dark and light are balanced up to k steps of 5%. */
  function BalanceSteps(dark: nat, total: nat): (k: nat)
    requires dark <= total && total % 2 == 1
    ensures Balanced(dark, total, k) && k <= 9
    ensures forall j: nat :: Balanced(dark, total, j) ==> k <= j
  {
    var off := if 20 * dark >= 10 * total then 20 * dark - 10 * total else 10 * total - 20 * dark;
    BalanceBounds(off, total);
    var k := (off + total - 1) / total - 1;
    LeastBalance(dark, total, off, k);
    k
  }

  lemma Monotone(a: int, b: int, total: nat)
    requires a <= b
    ensures a * total <= b * total
  {}

  lemma BalanceBounds(off: nat, total: nat)
    requires 0 < total && 0 < off <= 10 * total
    ensures var q := (off + total - 1) / total; 1 <= q <= 10 && (q - 1) * total < off <= q * total
  {
    var q := (off + total - 1) / total;
    assert off + total - 1 == q * total + (off + total - 1) % total;
    assert (q - 1) * total == q * total - total;
    if q < 1 {
      Monotone(q, 0, total);
    }
    if q > 10 {
      Monotone(11, q, total);
    }
  }

  /** The distance of dark / total from one half, in units of 5%, decides Balanced. */
  lemma BalanceDistance(dark: nat, total: nat, k: int)
    ensures Balanced(dark, total, k) <==> -(k + 1) * total <= 20 * dark - 10 * total <= (k + 1) * total
  {
    var t := k * total;
    assert (45 - 5 * k) * total == 45 * total - 5 * t;
    assert (55 + 5 * k) * total == 55 * total + 5 * t;
    assert (k + 1) * total == t + total;
    assert -(k + 1) * total == -t - total;
  }

  lemma LeastBalance(dark: nat, total: nat, off: nat, k: nat)
    requires off == if 20 * dark >= 10 * total then 20 * dark - 10 * total else 10 * total - 20 * dark
    requires k * total < off <= (k + 1) * total
    ensures Balanced(dark, total, k)
    ensures forall j: nat :: Balanced(dark, total, j) ==> k <= j
  {
    hide Balanced;
    BalanceDistance(dark, total, k);
    forall j: nat | Balanced(dark, total, j)
      ensures k <= j
    {
      BalanceDistance(dark, total, j);
      if j < k {
        Monotone(j + 1, k, total);
      }
    }
  }

  lemma DarkBound(g: Grid, size: nat)
    requires Square(g, size)
    ensures |Dark(g, size, 0, size)| <= size * size
  {
    CellCount(size, size);
    SubsetSize(Dark(g, size, 0, size), AllCells(size, size));
  }

  ghost function RowCells(size: nat, y: int): set<(int, int)> {
    set x {:trigger (x, y)} | 0 <= x < size :: (x, y)
  }

  ghost function AllCells(size: nat, rows: nat): set<(int, int)> {
    set x, y | 0 <= y < rows && 0 <= x < size :: (x, y)
  }

  lemma {:induction false} CellCount(size: nat, rows: nat)
    ensures |AllCells(size, rows)| == rows * size
  {
    if rows == 0 {
      assert AllCells(size, 0) == {};
    } else {
      CellCount(size, rows - 1);
      RowCount(size, rows - 1);
      assert AllCells(size, rows) == AllCells(size, rows - 1) + RowCells(size, rows - 1);
      assert rows * size == (rows - 1) * size + size;
    }
  }

  lemma {:induction false} RowCount(size: nat, y: int)
    ensures |RowCells(size, y)| == size
  {
    if size > 0 {
      RowCount(size - 1, y);
      assert RowCells(size, y) == RowCells(size - 1, y) + {(size - 1, y)};
    }
  }

  /** The penalty score of a symbol of odd size. */
  ghost function PenaltyScore(g: Grid, size: nat): nat
    requires Square(g, size) && size % 2 == 1
  {
    OddSquare(size);
    DarkBound(g, size);
    RowsScore(g, size, size) + ColumnsScore(g, size, size)
    + |Blocks(g, size, 0, size)| * PENALTY_N2
    + BalanceSteps(|Dark(g, size, 0, size)|, size * size) * PENALTY_N4
  }

  lemma OddSquare(size: nat)
    requires size % 2 == 1
    ensures (size * size) % 2 == 1
  {
    var k := size / 2;
    assert size * size == 2 * (2 * k * k + 2 * k) + 1;
  }

  // ----- An upper bound -----

  /** A run scores less than its length, and every other run can end finder-like patterns. */
  lemma {:induction false} ScoreBound(runs: seq<nat>)
    requires runs == [] || Alternating(runs)
    ensures runs != [] ==> RunsScore(runs) + |runs| <= |Expand(runs)| + 1
    ensures Finders(runs) <= if |runs| >= 6 then |runs| / 2 * 2 + (if IsDark(|runs|) then 2 else 0) - 6 else 0
  {
    if runs != [] {
      ScoreBound(runs[..|runs| - 1]);
    }
  }

  lemma {:induction false} RunCount(line: Line)
    ensures |Runs(line)| <= |line| + 1
  {
    if line != [] {
      RunCount(line[..|line| - 1]);
    }
  }

  lemma PaddedCount(line: Line, border: nat)
    requires border > 0
    ensures |Runs(Padded(line, border))| <= |Runs(line)| + 1
  {
    hide Runs;
    RunsPadded(line, border);
  }

  lemma LineBound(line: Line, size: nat)
    requires size > 0 && |line| >= 4
    ensures LineScore(line, size) <= 40 * |line| - 120
  {
    hide Expand, Runs, Finders, RunsScore, Alternating;
    RunsDecompose(line);
    ScoreBound(Runs(line));
    RunCount(line);
    PaddedCount(line, size);
    RunsDecompose(Padded(line, size));
    ScoreBound(Runs(Padded(line, size)));
  }

  lemma {:induction false} LinesBound(g: Grid, size: nat, n: nat)
    requires Square(g, size) && size >= 4 && n <= size
    ensures RowsScore(g, size, n) <= n * (40 * size - 120)
    ensures ColumnsScore(g, size, n) <= n * (40 * size - 120)
  {
    hide LineScore;
    if n > 0 {
      LinesBound(g, size, n - 1);
      LineBound(g[n - 1], size);
      LineBound(Column(g, n - 1), size);
      assert n * (40 * size - 120) == (n - 1) * (40 * size - 120) + (40 * size - 120);
    }
  }

  /** The bound that the program asserts. */
  lemma PenaltyBound(g: Grid, size: nat)
    requires Square(g, size) && size % 2 == 1 && 21 <= size <= 177
    ensures PenaltyScore(g, size) <= 2568888
  {
    hide LineScore, RowsScore, ColumnsScore, Blocks, Dark;
    LinesBound(g, size, size);
    Monotone(size, 177, 40 * size - 120);
    BlockBound(g, size);
    Monotone(size, 177, size);
    OddSquare(size);
    DarkBound(g, size);
  }

  lemma BlockBound(g: Grid, size: nat)
    requires Square(g, size)
    ensures |Blocks(g, size, 0, size)| <= size * size
  {
    CellCount(size, size);
    SubsetSize(Blocks(g, size, 0, size), AllCells(size, size));
  }
}
