/**
 * Day 1, "Sonar Sweep": counting depth increases, directly and over
 * three-measurement sliding windows. The same three kernels appear in
 * sol.py and in day1/sol.py; this one module models both copies.
 */
module Depth {
  import opened Common

  /** Position j holds a value greater than the one `lag` places earlier. */
  predicate IncreaseAt(s: seq<int>, lag: nat, j: int)
    requires lag <= j < |s|
  {
    s[j] > s[j - lag]
  }

  /** The positions counted by `LaggedIncreases`. */
  function IncreaseSet(s: seq<int>, lag: nat): set<int> {
    set j | lag <= j < |s| && IncreaseAt(s, lag, j)
  }

  /** Number of positions j (lag <= j) whose value exceeds the one `lag` places earlier. */
  function LaggedIncreases(s: seq<int>, lag: nat): (n: nat)
    ensures n <= if |s| <= lag then 0 else |s| - lag
  {
    if |s| <= lag then 0
    else LaggedIncreases(s[..|s| - 1], lag) + (if s[|s| - 1] > s[|s| - 1 - lag] then 1 else 0)
  }

  /** Number of adjacent increases: the specification of the counting loop. */
  function Increases(s: seq<int>): (n: nat) {
    LaggedIncreases(s, 1)
  }

  /** The counting function agrees with the plain set-of-indices reading of "number of increases". */
  lemma {:induction false} LaggedIncreasesIsCardinality(s: seq<int>, lag: nat)
    ensures LaggedIncreases(s, lag) == |IncreaseSet(s, lag)|
  {
    if |s| <= lag {
      assert IncreaseSet(s, lag) == {};
    } else {
      var t := s[..|s| - 1];
      LaggedIncreasesIsCardinality(t, lag);
      var before := IncreaseSet(t, lag);
      var after := IncreaseSet(s, lag);
      assert forall j :: lag <= j < |t| ==> (IncreaseAt(t, lag, j) <==> IncreaseAt(s, lag, j));
      if s[|s| - 1] > s[|s| - 1 - lag] {
        assert after == before + {|s| - 1};
        assert |s| - 1 !in before;
      } else {
        assert after == before;
      }
    }
  }

  /** `_count_incs`: one pass remembering the previous depth. */
  method CountIncs(lines: seq<int>) returns (increases: nat)
    ensures increases == |IncreaseSet(lines, 1)|
    ensures increases <= if |lines| == 0 then 0 else |lines| - 1
  {
    increases := 0;
    var previous: Option<int> := None;
    for k := 0 to |lines|
      invariant previous == if k == 0 then None else Some(lines[k - 1])
      invariant increases == Increases(lines[..k])
    {
      var current := lines[k];
      if previous.Some? {
        if current > previous.value {
          increases := increases + 1;
        }
      }
      previous := Some(current);
      assert lines[..k + 1][..k] == lines[..k];
    }
    assert lines[..|lines|] == lines;
    LaggedIncreasesIsCardinality(lines, 1);
  }

  /** Number of full windows of `size` consecutive values in a list of `n` values. */
  function WindowCount(n: nat, size: nat): (count: nat) {
    if size == 0 then n else if n < size then 0 else n - size + 1
  }

  /** The list of windows `_build_windows` produces, by recursion over the list. */
  function Windows(lines: seq<int>, size: nat): (ws: seq<seq<int>>)
    ensures |ws| == WindowCount(|lines|, size)
    ensures forall i :: 0 <= i < |ws| ==> i + size <= |lines| && ws[i] == lines[i..i + size]
  {
    if lines == [] || |lines| < size then []
    else [lines[..size]] + Windows(lines[1..], size)
  }

  /**
   * `_build_windows`: for each start index, the window of the next `size`
   * values; the first start whose window would run past the end stops the loop.
   */
  method BuildWindows(lines: seq<int>, size: nat) returns (windows: seq<seq<int>>)
    ensures |windows| == WindowCount(|lines|, size)
    ensures forall i :: 0 <= i < |windows| ==> |windows[i]| == size && windows[i] == lines[i..i + size]
    ensures windows == Windows(lines, size)
  {
    windows := [];
    var index := 0;
    while index < |lines|
      invariant 0 <= index <= |lines|
      invariant index <= WindowCount(|lines|, size)
      invariant |windows| == index
      invariant forall i :: 0 <= i < index ==> windows[i] == lines[i..i + size]
    {
      if index + size > |lines| {
        break;
      }
      windows := windows + [lines[index..index + size]];
      index := index + 1;
    }
    assert |windows| == WindowCount(|lines|, size);
  }

  /** The sum `_compact_windows` takes of one window. */
  function Sum(s: seq<int>): (total: int) {
    if s == [] then 0 else s[0] + Sum(s[1..])
  }

  /** `_compact_windows`: each window replaced by its sum. */
  function CompactWindows(windows: seq<seq<int>>): (sums: seq<int>)
    ensures |sums| == |windows|
    ensures forall i :: 0 <= i < |windows| ==> sums[i] == Sum(windows[i])
  {
    if windows == [] then [] else [Sum(windows[0])] + CompactWindows(windows[1..])
  }

  /**
   * Two lists whose consecutive differences agree, with `c` shorter by two and
   * shifted by three, have the same number of increases at lag one and three.
   */
  lemma {:induction false} ShiftedIncreases(c: seq<int>, s: seq<int>)
    requires |s| >= 2 && |c| == |s| - 2
    requires forall i :: 1 <= i < |c| ==> c[i] - c[i - 1] == s[i + 2] - s[i - 1]
    ensures LaggedIncreases(c, 1) == LaggedIncreases(s, 3)
  {
    if |c| > 1 {
      ShiftedIncreases(c[..|c| - 1], s[..|s| - 1]);
    }
  }

  lemma WindowSum(lines: seq<int>, i: nat)
    requires i + 3 <= |lines|
    ensures Sum(lines[i..i + 3]) == lines[i] + lines[i + 1] + lines[i + 2]
  {
    var w := lines[i..i + 3];
    assert w[1..][1..][1..] == [];
    assert Sum(w[1..][1..]) == w[2];
  }

  /**
   * Part 2 (`sol2`, `Day1.part2`): counting increases of the three-wide
   * window sums is counting the j with lines[j] > lines[j - 3].
   */
  lemma Part2Pipeline(lines: seq<int>)
    ensures Increases(CompactWindows(Windows(lines, 3))) == |IncreaseSet(lines, 3)|
  {
    var ws := Windows(lines, 3);
    var c := CompactWindows(ws);
    LaggedIncreasesIsCardinality(lines, 3);
    if |lines| < 3 {
      assert c == [];
    } else {
      assert |c| == |lines| - 2;
      forall i | 1 <= i < |c|
        ensures c[i] - c[i - 1] == lines[i + 2] - lines[i - 1]
      {
        assert c[i] == Sum(ws[i]) && ws[i] == lines[i..i + 3];
        assert c[i - 1] == Sum(ws[i - 1]) && ws[i - 1] == lines[i - 1..i + 2];
        WindowSum(lines, i - 1);
        WindowSum(lines, i);
      }
      ShiftedIncreases(c, lines);
    }
  }

  /** `Day1.part2` / `sol2`: windows of three, their sums, then the increase count. */
  method Part2(lines: seq<int>) returns (count: nat)
    ensures count == |IncreaseSet(lines, 3)|
  {
    var windows := BuildWindows(lines, 3);
    var sums := CompactWindows(windows);
    count := CountIncs(sums);
    LaggedIncreasesIsCardinality(sums, 1);
    Part2Pipeline(lines);
  }
}
