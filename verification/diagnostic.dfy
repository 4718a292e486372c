/**
 * Day 3, "Binary Diagnostic": per-column majority and minority bits of a
 * list of equal-width bit rows (gamma and epsilon rates), and the column by
 * column narrowing that picks the oxygen generator and CO2 scrubber rows.
 * The '0'/'1' strings the solver builds are modelled as sequences of bits.
 */
module Diagnostic {
  import opened Common

  type Bit = b: int | 0 <= b <= 1
  type Row = seq<Bit>

  datatype DiagnosticError =
    | UnexpectedTotal   // `most_least` met a column with no clear majority
    | RanOutOfLines     // narrowing left no row
    | RanOutOfWidth     // narrowing used every column and more than one row is left
    | EmptyLiteral      // `int("", 2)` on a zero-width report

  /** Which of the two bit strings the narrowing follows. */
  datatype Selector = MostCommon | LeastCommon

  /** Every row has `width` bits. */
  predicate Uniform(lines: seq<Row>, width: nat) {
    forall r :: r in lines ==> |r| == width
  }

  /** No row appears twice. */
  predicate Distinct(lines: seq<Row>) {
    forall i, j :: 0 <= i < j < |lines| ==> lines[i] != lines[j]
  }

  /** Number of ones in column `col`. */
  function ColumnTotal(lines: seq<Row>, col: nat): (ones: nat)
    requires forall r :: r in lines ==> col < |r|
    ensures ones <= |lines|
  {
    if lines == [] then 0 else lines[0][col] + ColumnTotal(lines[1..], col)
  }

  /** The bit-wise complement of a row. */
  function Complement(bits: Row): (c: Row)
    ensures |c| == |bits|
  {
    seq(|bits|, i requires 0 <= i < |bits| => 1 - bits[i])
  }

  // ---------------------------------------------------------------------
  // Gamma and epsilon (part 1)
  // ---------------------------------------------------------------------

  /**
   * The column rule `most_least` applies as written: the total of ones is
   * compared with half the row count under integer division, and equality
   * raises.
   */
  function VerdictAsWritten(ones: nat, n: nat): (v: Option<Bit>)
    requires ones <= n
    ensures n % 2 == 0 ==> (v == None <==> ones == n - ones)
  {
    if ones > n / 2 then Some(1) else if ones < n / 2 then Some(0) else None
  }

  /**
   * The intended column rule: the bit held by strictly more rows, and no
   * verdict on an exact tie.
   */
  function Verdict(ones: nat, n: nat): (v: Option<Bit>)
    requires ones <= n
    ensures v == Some(1) <==> ones > n - ones
    ensures v == Some(0) <==> ones < n - ones
    ensures v == None <==> ones == n - ones
  {
    if 2 * ones > n then Some(1) else if 2 * ones < n then Some(0) else None
  }

  /** On an even number of rows both rules agree. */
  lemma VerdictsAgreeOnEvenCounts(ones: nat, n: nat)
    requires ones <= n && n % 2 == 0
    ensures VerdictAsWritten(ones, n) == Verdict(ones, n)
  {
  }

  /**
   * On an odd number of rows the rule as written rejects a column in which
   * the ones are a clear minority.
   */
  lemma AsWrittenRejectsClearMinority(n: nat)
    requires n % 2 == 1
    ensures VerdictAsWritten(n / 2, n) == None
    ensures Verdict(n / 2, n) == Some(0)
  {
  }

  /** Five one-bit rows, two of them ones: the smallest report that shows the difference. */
  lemma FiveRowExample()
    ensures ColumnTotal([[1], [1], [0], [0], [0]], 0) == 2
    ensures VerdictAsWritten(2, 5) == None && Verdict(2, 5) == Some(0)
  {
    assert [[1], [1], [0], [0], [0]][1..] == [[1], [0], [0], [0]];
    assert [[1], [0], [0], [0]][1..] == [[0], [0], [0]];
    assert [[0], [0], [0]][1..] == [[0], [0]];
    assert [[0], [0]][1..] == [[0]];
  }

  /** `most_least` exactly as written, tie test by integer division. */
  method MostLeastAsWritten(lines: seq<Row>) returns (r: Result<(Row, Row), DiagnosticError>)
    requires |lines| > 0 && Uniform(lines, |lines[0]|)
    ensures r.Err? <==> exists c :: 0 <= c < |lines[0]| && ColumnTotal(lines, c) == |lines| / 2
    ensures r.Err? <==> exists c :: 0 <= c < |lines[0]| && VerdictAsWritten(ColumnTotal(lines, c), |lines|) == None
    ensures r.Err? ==> r.error == UnexpectedTotal
    ensures r.Ok? ==> r.value == (MajorityBits(lines), Complement(MajorityBits(lines)))
    ensures r.Ok? ==> forall c :: 0 <= c < |lines[0]| ==>
              VerdictAsWritten(ColumnTotal(lines, c), |lines|) == Some(r.value.0[c])
  {
    var width := |lines[0]|;
    var most, least := [], [];
    for col := 0 to width
      invariant most == MajorityBits(lines)[..col] && least == Complement(most)
      invariant forall c :: 0 <= c < col ==> ColumnTotal(lines, c) != |lines| / 2
      invariant forall c :: 0 <= c < col ==> VerdictAsWritten(ColumnTotal(lines, c), |lines|) == Some(most[c])
    {
      var tot := ColumnTotal(lines, col);
      if tot > |lines| / 2 {
        most, least := most + [1], least + [0];
      } else if tot < |lines| / 2 {
        most, least := most + [0], least + [1];
      } else {
        assert ColumnTotal(lines, col) == |lines| / 2;
        assert VerdictAsWritten(ColumnTotal(lines, col), |lines|) == None;
        return Err(UnexpectedTotal);
      }
    }
    assert most == MajorityBits(lines);
    return Ok((most, least));
  }

  /** The gamma bits: in each column, 1 when ones are the strict majority. */
  function MajorityBits(lines: seq<Row>): (gamma: Row)
    requires |lines| > 0 && Uniform(lines, |lines[0]|)
    ensures |gamma| == |lines[0]|
    ensures forall c :: 0 <= c < |lines[0]| ==>
              (gamma[c] == 1 <==> ColumnTotal(lines, c) > |lines| - ColumnTotal(lines, c))
  {
    seq(|lines[0]|, c requires 0 <= c < |lines[0]| => if 2 * ColumnTotal(lines, c) > |lines| then 1 else 0)
  }

  /**
   * `most_least` with the tie test corrected: fails exactly when some column
   * is an exact tie; otherwise the most common bit of each column and its
   * complement.
   */
  method MostLeast(lines: seq<Row>) returns (r: Result<(Row, Row), DiagnosticError>)
    requires |lines| > 0 && Uniform(lines, |lines[0]|)
    ensures r.Err? <==> exists c :: 0 <= c < |lines[0]| && Verdict(ColumnTotal(lines, c), |lines|) == None
    ensures r.Err? ==> r.error == UnexpectedTotal
    ensures r.Ok? ==> r.value == (MajorityBits(lines), Complement(MajorityBits(lines)))
    ensures r.Ok? ==> forall c :: 0 <= c < |lines[0]| ==>
              Verdict(ColumnTotal(lines, c), |lines|) == Some(r.value.0[c])
  {
    var width := |lines[0]|;
    var most, least := [], [];
    for col := 0 to width
      invariant most == MajorityBits(lines)[..col] && least == Complement(most)
      invariant forall c :: 0 <= c < col ==> Verdict(ColumnTotal(lines, c), |lines|).Some?
    {
      var tot := ColumnTotal(lines, col);
      if 2 * tot > |lines| {
        most, least := most + [1], least + [0];
      } else if 2 * tot < |lines| {
        most, least := most + [0], least + [1];
      } else {
        assert Verdict(ColumnTotal(lines, col), |lines|) == None;
        return Err(UnexpectedTotal);
      }
    }
    assert most == MajorityBits(lines);
    return Ok((most, least));
  }

  /** `int(s, 2)` on a string of '0'/'1' characters, most significant first. */
  function BitsToNat(bits: Row): (v: nat)
    ensures v < Pow2(|bits|)
  {
    if bits == [] then 0 else 2 * BitsToNat(bits[..|bits| - 1]) + bits[|bits| - 1]
  }

  function Pow2(k: nat): (p: nat)
    ensures p > 0
  {
    if k == 0 then 1 else 2 * Pow2(k - 1)
  }

  /** `int(s, 2)` rejects the empty string. */
  function ParseBinary(bits: Row): (v: Option<nat>)
    ensures v.Some? <==> bits != []
    ensures v.Some? ==> v.value < Pow2(|bits|)
  {
    if bits == [] then None else Some(BitsToNat(bits))
  }

  /** A number and its bit-wise complement add up to the all-ones number. */
  lemma {:induction false} ComplementSum(bits: Row)
    ensures BitsToNat(bits) + BitsToNat(Complement(bits)) == Pow2(|bits|) - 1
  {
    if bits != [] {
      var init := bits[..|bits| - 1];
      assert Complement(bits)[..|bits| - 1] == Complement(init);
      ComplementSum(init);
    }
  }

  /**
   * `Day3.part1`: the power consumption, gamma times epsilon, where epsilon
   * reads the complement of gamma's bits (so, by `ComplementSum`,
   * epsilon == 2^width - 1 - gamma).
   */
  method Part1(lines: seq<Row>) returns (r: Result<nat, DiagnosticError>)
    requires |lines| > 0 && Uniform(lines, |lines[0]|)
    ensures r == Err(UnexpectedTotal) <==> exists c :: 0 <= c < |lines[0]| && Verdict(ColumnTotal(lines, c), |lines|) == None
    ensures r == Err(EmptyLiteral) <==> |lines[0]| == 0
    ensures r.Ok? ==> r.value == BitsToNat(MajorityBits(lines)) * BitsToNat(Complement(MajorityBits(lines)))
    ensures r.Err? ==> r.error in {UnexpectedTotal, EmptyLiteral}
  {
    var mostLeast := MostLeast(lines);
    if mostLeast.Err? {
      return Err(mostLeast.error);
    }
    var mostCommon, leastCommon := mostLeast.value.0, mostLeast.value.1;
    assert mostCommon == MajorityBits(lines);
    var gamma := ParseBinary(mostCommon);
    var epsilon := ParseBinary(leastCommon);
    if gamma.None? || epsilon.None? {
      return Err(EmptyLiteral);
    }
    return Ok(gamma.value * epsilon.value);
  }

  // ---------------------------------------------------------------------
  // Oxygen generator and CO2 scrubber ratings (part 2)
  // ---------------------------------------------------------------------

  /**
   * The bit `part2_common` puts in column `col`: the most common bit, 1 on
   * a tie; or its complement, the least common bit, 0 on a tie.
   */
  function SelectedBit(lines: seq<Row>, col: nat, sel: Selector): (b: Bit)
    requires forall r :: r in lines ==> col < |r|
    ensures sel == MostCommon ==> (b == 1 <==> ColumnTotal(lines, col) >= |lines| - ColumnTotal(lines, col))
    ensures sel == LeastCommon ==> (b == 1 <==> ColumnTotal(lines, col) < |lines| - ColumnTotal(lines, col))
  {
    var ones := ColumnTotal(lines, col);
    var mostCommon := if 2 * ones >= |lines| then 1 else 0;
    if sel == MostCommon then mostCommon else 1 - mostCommon
  }

  /**
   * `part2_common`: the most and the least common bit of every column, the
   * comparison with half the row count in exact (true) division, so that
   * an exact half goes to "1" and "0".
   */
  method Part2Common(lines: seq<Row>) returns (mostCommon: Row, leastCommon: Row)
    requires |lines| > 0 && Uniform(lines, |lines[0]|)
    ensures |mostCommon| == |leastCommon| == |lines[0]|
    ensures leastCommon == Complement(mostCommon)
    ensures forall c :: 0 <= c < |lines[0]| ==>
              mostCommon[c] == SelectedBit(lines, c, MostCommon) && leastCommon[c] == SelectedBit(lines, c, LeastCommon)
  {
    var width := |lines[0]|;
    mostCommon, leastCommon := [], [];
    for col := 0 to width
      invariant |mostCommon| == col && leastCommon == Complement(mostCommon)
      invariant forall c :: 0 <= c < col ==> mostCommon[c] == SelectedBit(lines, c, MostCommon)
    {
      var tot := ColumnTotal(lines, col);
      // Python's `tot > len(lines) / 2` compares with a float; doubling keeps it exact.
      if 2 * tot > |lines| {
        mostCommon, leastCommon := mostCommon + [1], leastCommon + [0];
      } else if 2 * tot < |lines| {
        mostCommon, leastCommon := mostCommon + [0], leastCommon + [1];
      } else {
        mostCommon, leastCommon := mostCommon + [1], leastCommon + [0];
      }
    }
  }

  /** `a` occurs in `b` in order, possibly with gaps. */
  predicate Subsequence(a: seq<Row>, b: seq<Row>) {
    if a == [] then true
    else if b == [] then false
    else if a[0] == b[0] then Subsequence(a[1..], b[1..])
    else Subsequence(a, b[1..])
  }

  /** The rows whose bit at `idx` is `b`, in their original order. */
  function KeepMatching(lines: seq<Row>, idx: nat, b: Bit): (kept: seq<Row>)
    requires forall r :: r in lines ==> idx < |r|
    ensures forall r :: r in kept <==> r in lines && r[idx] == b
    ensures Subsequence(kept, lines)
    ensures |kept| == if b == 1 then ColumnTotal(lines, idx) else |lines| - ColumnTotal(lines, idx)
    ensures Distinct(lines) ==> Distinct(kept)
  {
    if lines == [] then []
    else
      var rest := KeepMatching(lines[1..], idx, b);
      if lines[0][idx] == b then [lines[0]] + rest else rest
  }

  /**
   * `filter`: the rows whose bit at `idx` matches the selected bit string
   * of the current rows.
   */
  method Filter(lines: seq<Row>, idx: nat, sel: Selector) returns (kept: seq<Row>)
    requires |lines| > 0 && Uniform(lines, |lines[0]|) && idx < |lines[0]|
    ensures kept == KeepMatching(lines, idx, SelectedBit(lines, idx, sel))
    ensures forall r :: r in kept <==> r in lines && r[idx] == SelectedBit(lines, idx, sel)
  {
    var mostCommon, leastCommon := Part2Common(lines);
    var pattern := if sel == MostCommon then mostCommon else leastCommon;
    kept := KeepMatching(lines, idx, pattern[idx]);
  }

  /**
   * Following the most common bit keeps at least half of the rows, and
   * following the least common bit keeps at most half.
   */
  lemma SelectionShare(lines: seq<Row>, idx: nat)
    requires forall r :: r in lines ==> idx < |r|
    ensures 2 * |KeepMatching(lines, idx, SelectedBit(lines, idx, MostCommon))| >= |lines|
    ensures 2 * |KeepMatching(lines, idx, SelectedBit(lines, idx, LeastCommon))| <= |lines|
  {
  }

  /** Rows of `width` bits that all agree on those bits repeat a row once there are two. */
  lemma SamePrefixRepeats(rows: seq<Row>, width: nat, prefix: Row)
    requires Uniform(rows, width)
    requires forall r :: r in rows ==> r[..width] == prefix
    ensures |rows| >= 2 ==> !Distinct(rows)
  {
    forall r | r in rows
      ensures r == prefix
    {
      assert r[..width] == r;
    }
    if |rows| >= 2 {
      assert rows[0] in rows && rows[1] in rows;
    }
  }

  /** The rows of `lines` that begin with the bits `p`, in their original order. */
  function WithPrefix(lines: seq<Row>, p: Row): (rows: seq<Row>)
    ensures forall r :: r in rows ==> r in lines && |p| <= |r| && r[..|p|] == p
  {
    if lines == [] then []
    else
      var rest := WithPrefix(lines[1..], p);
      if |p| <= |lines[0]| && lines[0][..|p|] == p then [lines[0]] + rest else rest
  }

  /** Selecting rows by prefix keeps distinct rows distinct. */
  lemma {:induction false} WithPrefixDistinct(lines: seq<Row>, p: Row)
    requires Distinct(lines)
    ensures Distinct(WithPrefix(lines, p))
  {
    if lines != [] {
      assert Distinct(lines[1..]);
      WithPrefixDistinct(lines[1..], p);
      assert lines[0] !in lines[1..];
    }
  }

  /** Every row begins with the empty prefix. */
  lemma {:induction false} WithEmptyPrefix(lines: seq<Row>)
    ensures WithPrefix(lines, []) == lines
  {
    if lines != [] {
      WithEmptyPrefix(lines[1..]);
    }
  }

  /** Keeping the rows with bit `b` at column `|p|` extends the prefix `p` by `b`. */
  lemma {:induction false} WithPrefixStep(lines: seq<Row>, p: Row, b: Bit)
    requires forall r :: r in lines ==> |p| < |r|
    ensures KeepMatching(WithPrefix(lines, p), |p|, b) == WithPrefix(lines, p + [b])
  {
    if lines != [] {
      var r, rest := lines[0], WithPrefix(lines[1..], p);
      WithPrefixStep(lines[1..], p, b);
      var extended := p + [b];
      assert r[..|extended|] == r[..|p|] + [r[|p|]];
      if r[..|p|] == p {
        assert WithPrefix(lines, p) == [r] + rest;
        if r[|p|] == b {
          assert r[..|extended|] == extended;
          assert KeepMatching([r] + rest, |p|, b) == [r] + KeepMatching(rest, |p|, b);
        } else {
          assert r[..|extended|][|p|] != extended[|p|];
          assert KeepMatching([r] + rest, |p|, b) == KeepMatching(rest, |p|, b);
        }
      } else {
        assert r[..|extended|][..|p|] == r[..|p|];
        assert extended[..|p|] == p;
      }
    }
  }

  /**
   * The bits the narrowing has fixed after `k` columns: column j holds the
   * selected bit of the rows that survived the first j columns.
   */
  ghost function Pattern(lines: seq<Row>, width: nat, sel: Selector, k: nat): (p: Row)
    requires Uniform(lines, width) && k <= width
    ensures |p| == k
  {
    if k == 0 then []
    else
      var before := Pattern(lines, width, sel, k - 1);
      before + [SelectedBit(WithPrefix(lines, before), k - 1, sel)]
  }

  /** The rows left after narrowing on the first `k` columns. */
  ghost function Survivors(lines: seq<Row>, width: nat, sel: Selector, k: nat): (rows: seq<Row>)
    requires Uniform(lines, width) && k <= width
  {
    WithPrefix(lines, Pattern(lines, width, sel, k))
  }

  /** More than one row survived step `j`. */
  ghost predicate Crowded(lines: seq<Row>, width: nat, sel: Selector, j: nat)
    requires Uniform(lines, width) && j <= width
  {
    |Survivors(lines, width, sel, j)| >= 2
  }

  /** More than one row survived each of the steps 1 .. k - 1. */
  ghost predicate Undecided(lines: seq<Row>, width: nat, sel: Selector, k: nat)
    requires Uniform(lines, width)
  {
    forall j :: 1 <= j < k && j <= width ==> Crowded(lines, width, sel, j)
  }

  /** Step `k` is the first to leave at most one row, and it leaves exactly `row`. */
  ghost predicate DecidesOn(lines: seq<Row>, width: nat, sel: Selector, k: nat, row: Row)
    requires Uniform(lines, width)
  {
    1 <= k <= width && Survivors(lines, width, sel, k) == [row] && Undecided(lines, width, sel, k)
  }

  /** Step `k` is the first to leave at most one row, and it leaves none. */
  ghost predicate EmptiesAt(lines: seq<Row>, width: nat, sel: Selector, k: nat)
    requires Uniform(lines, width)
  {
    1 <= k <= width && Survivors(lines, width, sel, k) == [] && Undecided(lines, width, sel, k)
  }

  /** `row` is the rating: the first step that leaves at most one row leaves exactly `row`. */
  ghost predicate IsRating(lines: seq<Row>, width: nat, sel: Selector, row: Row)
    requires Uniform(lines, width)
  {
    exists k :: DecidesOn(lines, width, sel, k, row)
  }

  /** The first step that leaves at most one row leaves none. */
  ghost predicate RunsOutOfLines(lines: seq<Row>, width: nat, sel: Selector)
    requires Uniform(lines, width)
  {
    exists k :: EmptiesAt(lines, width, sel, k)
  }

  /** Every step leaves more than one row (vacuously so on zero width). */
  ghost predicate RunsOutOfWidth(lines: seq<Row>, width: nat, sel: Selector)
    requires Uniform(lines, width)
  {
    Undecided(lines, width, sel, width + 1)
  }

  /** There is one first step that leaves at most one row, if any. */
  lemma DecisiveStepUnique(lines: seq<Row>, width: nat, sel: Selector, k1: nat, k2: nat)
    requires Uniform(lines, width)
    requires 1 <= k1 <= width && |Survivors(lines, width, sel, k1)| <= 1 && Undecided(lines, width, sel, k1)
    requires 1 <= k2 <= width && |Survivors(lines, width, sel, k2)| <= 1 && Undecided(lines, width, sel, k2)
    ensures k1 == k2
  {
    assert !Crowded(lines, width, sel, k1) && !Crowded(lines, width, sel, k2);
  }

  /** The rating is unique. */
  lemma RatingUnique(lines: seq<Row>, width: nat, sel: Selector, a: Row, b: Row)
    requires Uniform(lines, width)
    requires IsRating(lines, width, sel, a) && IsRating(lines, width, sel, b)
    ensures a == b
  {
    var ka :| DecidesOn(lines, width, sel, ka, a);
    var kb :| DecidesOn(lines, width, sel, kb, b);
    DecisiveStepUnique(lines, width, sel, ka, kb);
  }

  /** A narrowing that finds a rating neither runs out of lines nor of width. */
  lemma RatingExcludesFailures(lines: seq<Row>, width: nat, sel: Selector, a: Row)
    requires Uniform(lines, width) && IsRating(lines, width, sel, a)
    ensures !RunsOutOfLines(lines, width, sel) && !RunsOutOfWidth(lines, width, sel)
  {
    var ka :| DecidesOn(lines, width, sel, ka, a);
    forall k | 1 <= k <= width
      ensures !EmptiesAt(lines, width, sel, k)
    {
      if EmptiesAt(lines, width, sel, k) {
        DecisiveStepUnique(lines, width, sel, ka, k);
      }
    }
    assert !Crowded(lines, width, sel, ka);
  }

  /** A narrowing that runs out of lines does not also run out of width. */
  lemma FailuresExclusive(lines: seq<Row>, width: nat, sel: Selector)
    requires Uniform(lines, width) && RunsOutOfLines(lines, width, sel)
    ensures !RunsOutOfWidth(lines, width, sel)
  {
    var k :| EmptiesAt(lines, width, sel, k);
    assert !Crowded(lines, width, sel, k);
  }

  /** One narrowing step: `Filter` on the survivors of k columns gives the survivors of k + 1. */
  lemma NarrowStep(lines: seq<Row>, width: nat, sel: Selector, k: nat)
    requires Uniform(lines, width) && k < width
    ensures KeepMatching(Survivors(lines, width, sel, k), k, SelectedBit(Survivors(lines, width, sel, k), k, sel))
            == Survivors(lines, width, sel, k + 1)
  {
    var p := Pattern(lines, width, sel, k);
    WithPrefixStep(lines, p, SelectedBit(WithPrefix(lines, p), k, sel));
  }

  /** A step leaving two or more rows keeps the narrowing undecided one step further. */
  lemma StillUndecided(lines: seq<Row>, width: nat, sel: Selector, k: nat)
    requires Uniform(lines, width) && 1 <= k <= width
    requires Undecided(lines, width, sel, k) && |Survivors(lines, width, sel, k)| >= 2
    ensures Undecided(lines, width, sel, k + 1)
  {
  }

  /**
   * The outcome of narrowing from step `k` on: the first later step that
   * leaves one row gives that row, one that leaves none runs out of lines,
   * and running past the last column runs out of width.
   */
  ghost function RatingFrom(lines: seq<Row>, width: nat, sel: Selector, k: nat): (outcome: Result<Row, DiagnosticError>)
    requires Uniform(lines, width) && k <= width
    decreases width - k
  {
    if k == width then Err(RanOutOfWidth)
    else
      var next := Survivors(lines, width, sel, k + 1);
      if |next| == 1 then Ok(next[0])
      else if next == [] then Err(RanOutOfLines)
      else RatingFrom(lines, width, sel, k + 1)
  }

  /** The outcome of narrowing a whole report. */
  ghost function Rating(lines: seq<Row>, sel: Selector): (outcome: Result<Row, DiagnosticError>)
    requires |lines| > 0 && Uniform(lines, |lines[0]|)
  {
    RatingFrom(lines, |lines[0]|, sel, 0)
  }

  /** `r` is the outcome the three predicates above describe. */
  ghost predicate Describes(lines: seq<Row>, width: nat, sel: Selector, r: Result<Row, DiagnosticError>)
    requires Uniform(lines, width)
  {
    match r
    case Ok(row) => IsRating(lines, width, sel, row)
    case Err(e) =>
      (e == RanOutOfLines && RunsOutOfLines(lines, width, sel)) ||
      (e == RanOutOfWidth && RunsOutOfWidth(lines, width, sel))
  }

  /**
   * After `k` undecided steps, running past the last column or a next step
   * that leaves at most one row decides the outcome.
   */
  lemma Decisive(lines: seq<Row>, width: nat, sel: Selector, k: nat)
    requires Uniform(lines, width) && k <= width && Undecided(lines, width, sel, k + 1)
    ensures k == width || |Survivors(lines, width, sel, k + 1)| <= 1 ==>
              Describes(lines, width, sel, RatingFrom(lines, width, sel, k))
  {
    if k < width {
      var next := Survivors(lines, width, sel, k + 1);
      if |next| == 1 {
        assert next == [next[0]];
        assert DecidesOn(lines, width, sel, k + 1, next[0]);
      } else if next == [] {
        assert EmptiesAt(lines, width, sel, k + 1);
      }
    }
  }

  /** Each outcome of `RatingFrom`, reached after undecided steps only, is the one the predicates describe. */
  lemma {:induction false} RatingFromMeaning(lines: seq<Row>, width: nat, sel: Selector, k: nat)
    requires Uniform(lines, width) && k <= width && Undecided(lines, width, sel, k + 1)
    ensures Describes(lines, width, sel, RatingFrom(lines, width, sel, k))
    decreases width - k, 1
  {
    Decisive(lines, width, sel, k);
    PassesOn(lines, width, sel, k);
  }

  /** After `k` undecided steps, a next step that leaves two or more rows passes the decision on. */
  lemma {:induction false} PassesOn(lines: seq<Row>, width: nat, sel: Selector, k: nat)
    requires Uniform(lines, width) && k <= width && Undecided(lines, width, sel, k + 1)
    ensures k < width && |Survivors(lines, width, sel, k + 1)| >= 2 ==>
              Describes(lines, width, sel, RatingFrom(lines, width, sel, k))
    decreases width - k, 0
  {
    if k < width && |Survivors(lines, width, sel, k + 1)| >= 2 {
      assert Crowded(lines, width, sel, k + 1);
      assert RatingFrom(lines, width, sel, k) == RatingFrom(lines, width, sel, k + 1);
      StillUndecided(lines, width, sel, k + 1);
      RatingFromMeaning(lines, width, sel, k + 1);
    }
  }

  /**
   * The rating of a report is a row exactly when a first decisive step
   * leaves one row, and fails with "run out of lines" or "run out of width"
   * exactly when that step leaves none or there is no decisive step.
   */
  lemma RatingCharacterised(lines: seq<Row>, sel: Selector)
    requires |lines| > 0 && Uniform(lines, |lines[0]|)
    ensures Rating(lines, sel).Ok? <==> exists row :: IsRating(lines, |lines[0]|, sel, row)
    ensures Rating(lines, sel).Ok? ==> IsRating(lines, |lines[0]|, sel, Rating(lines, sel).value)
    ensures Rating(lines, sel) == Err(RanOutOfLines) <==> RunsOutOfLines(lines, |lines[0]|, sel)
    ensures Rating(lines, sel) == Err(RanOutOfWidth) <==> RunsOutOfWidth(lines, |lines[0]|, sel)
    ensures Rating(lines, sel).Err? ==> Rating(lines, sel).error in {RanOutOfLines, RanOutOfWidth}
    ensures Rating(lines, sel).Ok? ==> Rating(lines, sel).value in lines
  {
    var width := |lines[0]|;
    RatingFromMeaning(lines, width, sel, 0);
    match Rating(lines, sel)
    case Ok(row) =>
      RatingExcludesFailures(lines, width, sel, row);
      var k :| DecidesOn(lines, width, sel, k, row);
      assert row in Survivors(lines, width, sel, k);
    case Err(e) =>
      if a :| IsRating(lines, width, sel, a) {
        RatingExcludesFailures(lines, width, sel, a);
      }
      if RunsOutOfLines(lines, width, sel) {
        FailuresExclusive(lines, width, sel);
      }
  }

  /** A narrowing that runs out of columns, on rows of at least one bit, has met a repeated row. */
  lemma ExhaustedRowsRepeat(lines: seq<Row>, width: nat, sel: Selector)
    requires Uniform(lines, width) && width > 0 && RunsOutOfWidth(lines, width, sel)
    ensures !Distinct(lines)
  {
    assert Crowded(lines, width, sel, width);
    if Distinct(lines) {
      WithPrefixDistinct(lines, Pattern(lines, width, sel, width));
    }
    SamePrefixRepeats(Survivors(lines, width, sel, width), width, Pattern(lines, width, sel, width));
  }

  /** Before any step taken while undecided, at least one row is left. */
  lemma RowsBeforeStep(lines: seq<Row>, width: nat, sel: Selector, j: nat)
    requires |lines| > 0 && Uniform(lines, width) && j < width && Undecided(lines, width, sel, j + 1)
    ensures |Survivors(lines, width, sel, j)| > 0
  {
    if j == 0 {
      WithEmptyPrefix(lines);
    } else {
      assert Crowded(lines, width, sel, j);
    }
  }

  /** Following the most common bit, a step taken while undecided keeps at least one row. */
  lemma MostCommonStepKeeps(lines: seq<Row>, width: nat, j: nat)
    requires |lines| > 0 && Uniform(lines, width) && j < width && Undecided(lines, width, MostCommon, j + 1)
    ensures |Survivors(lines, width, MostCommon, j + 1)| > 0
  {
    RowsBeforeStep(lines, width, MostCommon, j);
    NarrowStep(lines, width, MostCommon, j);
    SelectionShare(Survivors(lines, width, MostCommon, j), j);
  }

  /** Following the most common bit never runs out of lines. */
  lemma MostCommonNeverEmpties(lines: seq<Row>, width: nat)
    requires |lines| > 0 && Uniform(lines, width)
    ensures !RunsOutOfLines(lines, width, MostCommon)
  {
    forall k | 1 <= k <= width && Undecided(lines, width, MostCommon, k)
      ensures !EmptiesAt(lines, width, MostCommon, k)
    {
      var j := k - 1;
      assert j + 1 == k;
      MostCommonStepKeeps(lines, width, j);
    }
  }

  /**
   * `filter_loop`: narrows the rows column by column until one is left.
   * It returns exactly the rating, fails with "run out of lines" exactly
   * when the first decisive step leaves no row, and with "ran out of width"
   * exactly when no step is decisive. The row found is one of the input
   * rows; following the most common bit never runs out of rows, and on
   * distinct rows of non-zero width the columns never run out.
   */
  method FilterLoop(lines: seq<Row>, sel: Selector) returns (r: Result<Row, DiagnosticError>)
    requires |lines| > 0 && Uniform(lines, |lines[0]|)
    ensures r == Rating(lines, sel)
    ensures r.Ok? <==> exists row :: IsRating(lines, |lines[0]|, sel, row)
    ensures r.Ok? ==> IsRating(lines, |lines[0]|, sel, r.value)
    ensures r == Err(RanOutOfLines) <==> RunsOutOfLines(lines, |lines[0]|, sel)
    ensures r == Err(RanOutOfWidth) <==> RunsOutOfWidth(lines, |lines[0]|, sel)
    ensures r.Err? ==> r.error in {RanOutOfLines, RanOutOfWidth}
    ensures r.Ok? ==> r.value in lines
    ensures sel == MostCommon ==> r != Err(RanOutOfLines)
    ensures Distinct(lines) && |lines[0]| > 0 ==> r != Err(RanOutOfWidth)
  {
    var width := |lines[0]|;
    var rows := lines;
    WithEmptyPrefix(lines);
    r := Err(RanOutOfWidth);
    for idx := 0 to width
      invariant rows == Survivors(lines, width, sel, idx)
      invariant RatingFrom(lines, width, sel, idx) == Rating(lines, sel)
      invariant |rows| > 0 && Uniform(rows, width)
    {
      NarrowStep(lines, width, sel, idx);
      rows := Filter(rows, idx, sel);
      if |rows| == 1 {
        r := Ok(rows[0]);
        break;
      } else if |rows| == 0 {
        r := Err(RanOutOfLines);
        break;
      }
    }
    RatingCharacterised(lines, sel);
    if sel == MostCommon {
      MostCommonNeverEmpties(lines, width);
    }
    if r == Err(RanOutOfWidth) && width > 0 {
      ExhaustedRowsRepeat(lines, width, sel);
    }
  }

  lemma {:induction false} Pow2Add(a: nat, b: nat)
    ensures Pow2(a + b) == Pow2(a) * Pow2(b)
    decreases b
  {
    if b > 0 {
      Pow2Add(a, b - 1);
      assert Pow2(a) * Pow2(b) == 2 * (Pow2(a) * Pow2(b - 1));
    }
  }

  lemma ProductBelow(x: nat, y: nat, xBound: nat, yBound: nat)
    requires x < xBound && y < yBound
    ensures x * y < xBound * yBound
  {
    assert x * y <= x * yBound;
    assert x * yBound < xBound * yBound;
  }

  /**
   * `int(o2, 2) * int(co2, 2)`: the life support rating read from the two
   * rating rows. It fits in as many bits as the two rows have together.
   */
  function LifeSupport(oxygen: Row, scrubber: Row): (v: nat)
    ensures v < Pow2(|oxygen| + |scrubber|)
  {
    Pow2Add(|oxygen|, |scrubber|);
    ProductBelow(BitsToNat(oxygen), BitsToNat(scrubber), Pow2(|oxygen|), Pow2(|scrubber|));
    BitsToNat(oxygen) * BitsToNat(scrubber)
  }

  /**
   * `Day3.part2`: the life support rating, oxygen generator rating times CO2
   * scrubber rating. The oxygen narrowing runs first, so its failure is the
   * one reported.
   */
  method Part2(lines: seq<Row>) returns (r: Result<nat, DiagnosticError>)
    requires |lines| > 0 && Uniform(lines, |lines[0]|)
    ensures r.Ok? <==> Rating(lines, MostCommon).Ok? && Rating(lines, LeastCommon).Ok?
    ensures r.Ok? ==> r.value == LifeSupport(Rating(lines, MostCommon).value, Rating(lines, LeastCommon).value)
    ensures r.Ok? ==> IsRating(lines, |lines[0]|, MostCommon, Rating(lines, MostCommon).value) &&
                      IsRating(lines, |lines[0]|, LeastCommon, Rating(lines, LeastCommon).value)
    ensures Rating(lines, MostCommon).Err? ==> r == Err(Rating(lines, MostCommon).error)
    ensures Rating(lines, MostCommon).Ok? && Rating(lines, LeastCommon).Err? ==> r == Err(Rating(lines, LeastCommon).error)
    ensures r.Err? ==> r.error in {RanOutOfLines, RanOutOfWidth}
    ensures Distinct(lines) && |lines[0]| > 0 ==> r.Ok? || r == Err(RanOutOfLines)
  {
    var o2 := FilterLoop(lines, MostCommon);
    if o2.Err? {
      return Err(o2.error);
    }
    var co2 := FilterLoop(lines, LeastCommon);
    if co2.Err? {
      return Err(co2.error);
    }
    r := Ok(LifeSupport(o2.value, co2.value));
    RatingCharacterised(lines, MostCommon);
    RatingCharacterised(lines, LeastCommon);
  }
}
