/** Run-length bookkeeping shared by every line extractor.

    A line (a column, a white column or a diagonal of the recurrence matrix)
    is a sequence of cells; a cell is `true` when it belongs to the kind of
    line being counted. A sweep visits the cells in order and keeps one
    counter, the carryover: the length of the run still in progress. A cell
    outside the kind ends that run, which is then recorded in the frequency
    distribution. */
module Runs {

  /** The state of one line sweep: the lengths of the runs already ended, in
      the order they ended, and the carryover (the run still in progress). */
  datatype Sweep = Sweep(runs: seq<nat>, carry: nat)

  /** One cell of a sweep. */
  function Step(carry: nat, inRun: bool): Sweep
  {
    if inRun then Sweep([], carry + 1)
    else if carry > 0 then Sweep([carry], 0)
    else Sweep([], 0)
  }

  /** Sweeps the cells of `s` in order, starting from the carryover `carry`. */
  function Scan(s: seq<bool>, carry: nat): (r: Sweep)
    ensures r.carry <= carry + |s|
    decreases |s|
  {
    if s == [] then Sweep([], carry)
    else
      var prev := Scan(s[..|s| - 1], carry);
      var last := Step(prev.carry, s[|s| - 1]);
      Sweep(prev.runs + last.runs, last.carry)
  }

  /** The end-of-line flush: a carryover that is still positive is a run. */
  function Flush(sw: Sweep): seq<nat>
  {
    sw.runs + (if sw.carry > 0 then [sw.carry] else [])
  }

  /** What the extractors record for a whole line swept from a zero carryover. */
  function LineRuns(s: seq<bool>): seq<nat>
  {
    Flush(Scan(s, 0))
  }

  // ---------------------------------------------------------------------------
  // The reference definition: maximal runs, left to right.

  /** The number of cells in the leading run of `s`. */
  function LeadingRun(s: seq<bool>): (k: nat)
    ensures k <= |s|
    ensures forall i | 0 <= i < k :: s[i]
    ensures k < |s| ==> !s[k]
  {
    if s == [] || !s[0] then 0 else 1 + LeadingRun(s[1..])
  }

  /** The lengths of the maximal runs of `true` cells in `s`, left to right. */
  function MaximalRuns(s: seq<bool>): (r: seq<nat>)
    decreases |s|
  {
    if s == [] then []
    else if !s[0] then MaximalRuns(s[1..])
    else
      var k := LeadingRun(s);
      [k] + MaximalRuns(s[k..])
  }

  /** A maximal run of `len` cells starts at `i`. */
  ghost predicate IsMaximalRun(s: seq<bool>, i: int, len: int)
  {
    && 1 <= len && 0 <= i && i + len <= |s|
    && (forall k | i <= k < i + len :: s[k])
    && (i == 0 || !s[i - 1])
    && (i + len == |s| || !s[i + len])
  }

  /** How many maximal runs of exactly `len` cells start before position `j`. */
  ghost function RunsStartingBefore(s: seq<bool>, len: int, j: nat): nat
  {
    if j == 0 then 0
    else RunsStartingBefore(s, len, j - 1) + (if IsMaximalRun(s, j - 1, len) then 1 else 0)
  }

  /** How many maximal runs of exactly `len` cells the line holds. */
  ghost function CountMaximalRuns(s: seq<bool>, len: int): nat
  {
    RunsStartingBefore(s, len, |s|)
  }

  function Trues(c: nat): (s: seq<bool>)
  {
    seq(c, _ => true)
  }

  /** Every maximal run is at least one cell and at most the whole line. */
  lemma {:induction false} MaximalRunsBounded(s: seq<bool>)
    ensures forall k | 0 <= k < |MaximalRuns(s)| :: 1 <= MaximalRuns(s)[k] <= |s|
    decreases |s|
  {
    if s != [] {
      if !s[0] {
        MaximalRunsBounded(s[1..]);
      } else {
        var k := LeadingRun(s);
        MaximalRunsBounded(s[k..]);
        assert MaximalRuns(s) == [k] + MaximalRuns(s[k..]);
      }
    }
  }

  // ---------------------------------------------------------------------------
  // Sweeps compose: a line cut anywhere and resumed from the saved carryover
  // gives the same runs and the same final carryover.

  lemma ScanSnoc(s: seq<bool>, b: bool, carry: nat)
    ensures Scan(s + [b], carry)
         == Sweep(Scan(s, carry).runs + Step(Scan(s, carry).carry, b).runs,
                  Step(Scan(s, carry).carry, b).carry)
  {
    assert (s + [b])[..|s + [b]| - 1] == s;
  }

  /** Splitting a line at any cell and resuming from the carryover saved there
      yields exactly the runs and the carryover of one uninterrupted sweep. */
  lemma {:induction false} ScanSplit(s: seq<bool>, t: seq<bool>, carry: nat)
    ensures Scan(s + t, carry)
         == Sweep(Scan(s, carry).runs + Scan(t, Scan(s, carry).carry).runs,
                  Scan(t, Scan(s, carry).carry).carry)
    decreases |t|
  {
    var mid := Scan(s, carry);
    if t == [] {
      assert s + t == s;
    } else {
      var t', b := t[..|t| - 1], t[|t| - 1];
      assert t == t' + [b];
      assert s + t == (s + t') + [b];
      ScanSplit(s, t', carry);
      ScanSnoc(s + t', b, carry);
      ScanSnoc(t', b, mid.carry);
    }
  }

  lemma ScanCons(b: bool, t: seq<bool>, carry: nat)
    ensures Scan([b] + t, carry)
         == Sweep(Step(carry, b).runs + Scan(t, Step(carry, b).carry).runs,
                  Scan(t, Step(carry, b).carry).carry)
  {
    ScanSplit([b], t, carry);
    assert [b][..0] == [];
  }

  // ---------------------------------------------------------------------------
  // The sweep records exactly the maximal runs.

  lemma LeadingRunOfTrues(c: nat, t: seq<bool>)
    requires t == [] || !t[0]
    ensures LeadingRun(Trues(c) + t) == c
  {
    var u := Trues(c) + t;
    assert forall i | 0 <= i < c :: u[i];
    assert c < |u| ==> !u[c];
  }

  lemma MaximalRunsOfTrues(c: nat)
    ensures MaximalRuns(Trues(c)) == if c > 0 then [c] else []
  {
    if c > 0 {
      LeadingRunOfTrues(c, []);
      assert Trues(c) + [] == Trues(c);
      assert Trues(c)[c..] == [];
    }
  }

  lemma MaximalRunsAfterTrues(c: nat, s: seq<bool>)
    requires s != [] && !s[0]
    ensures MaximalRuns(Trues(c) + s) == (if c > 0 then [c] else []) + MaximalRuns(s[1..])
  {
    var u := Trues(c) + s;
    assert MaximalRuns(s) == MaximalRuns(s[1..]);
    if c == 0 {
      assert u == s;
    } else {
      LeadingRunOfTrues(c, s);
      assert u[c..] == s;
    }
  }

  lemma FlushAfter(prefix: seq<nat>, sw: Sweep)
    ensures Flush(Sweep(prefix + sw.runs, sw.carry)) == prefix + Flush(sw)
  {
  }

  /** A sweep started with carryover `c` records the maximal runs of the line
      preceded by `c` cells of the kind. */
  lemma {:induction false} SweepRecordsMaximalRuns(s: seq<bool>, c: nat)
    ensures Flush(Scan(s, c)) == MaximalRuns(Trues(c) + s)
    decreases |s|
  {
    if s == [] {
      assert Trues(c) + s == Trues(c);
      MaximalRunsOfTrues(c);
    } else {
      var b, t := s[0], s[1..];
      assert s == [b] + t;
      ScanCons(b, t, c);
      if b {
        SweepRecordsMaximalRuns(t, c + 1);
        assert Trues(c + 1) + t == Trues(c) + s;
      } else {
        SweepRecordsMaximalRuns(t, 0);
        assert Trues(0) + t == t;
        FlushAfter(Step(c, false).runs, Scan(t, 0));
        MaximalRunsAfterTrues(c, s);
      }
    }
  }

  /** The runs a line extractor records for a whole line are its maximal runs. */
  lemma LineRunsAreMaximalRuns(s: seq<bool>)
    ensures LineRuns(s) == MaximalRuns(s)
  {
    SweepRecordsMaximalRuns(s, 0);
    assert Trues(0) + s == s;
  }

  // ---------------------------------------------------------------------------
  // Maximal runs counted by their start positions.

  lemma ShiftedRun(s: seq<bool>, off: nat, i: nat, len: int)
    requires off <= |s| && 1 <= i
    ensures IsMaximalRun(s, off + i, len) <==> IsMaximalRun(s[off..], i, len)
  {
    var t := s[off..];
    if IsMaximalRun(t, i, len) {
      forall k | off + i <= k < off + i + len ensures s[k] {
        assert t[k - off] == s[k];
      }
    }
    if IsMaximalRun(s, off + i, len) {
      forall k | i <= k < i + len ensures t[k] {
        assert t[k] == s[k + off];
      }
    }
  }

  lemma {:induction false} CountShift(s: seq<bool>, off: nat, len: int, j: nat)
    requires off + j <= |s|
    requires forall i | 0 <= i < j :: IsMaximalRun(s, off + i, len) <==> IsMaximalRun(s[off..], i, len)
    ensures RunsStartingBefore(s, len, off + j)
         == RunsStartingBefore(s, len, off) + RunsStartingBefore(s[off..], len, j)
  {
    if j > 0 {
      CountShift(s, off, len, j - 1);
    }
  }

  lemma {:induction false} LeadingRunStarts(s: seq<bool>, len: int, j: nat)
    requires s != [] && s[0]
    requires j <= LeadingRun(s)
    ensures RunsStartingBefore(s, len, j) == if j >= 1 && len == LeadingRun(s) then 1 else 0
  {
    var k := LeadingRun(s);
    if j > 0 {
      LeadingRunStarts(s, len, j - 1);
      if j == 1 {
        assert forall i | 0 <= i < k :: s[i];
        assert k < |s| ==> !s[k];
        assert 0 <= len < k ==> s[len];
        assert IsMaximalRun(s, 0, len) <==> len == k;
      } else {
        assert s[j - 2];
        assert !IsMaximalRun(s, j - 1, len);
      }
    }
  }

  /** Cutting a line at a position where no run can straddle the cut splits
      the count of maximal runs. */
  lemma CountAfterCut(s: seq<bool>, k: nat, len: int)
    requires 1 <= k <= |s|
    requires !s[k - 1] || k == |s| || !s[k]
    ensures CountMaximalRuns(s, len) == RunsStartingBefore(s, len, k) + CountMaximalRuns(s[k..], len)
  {
    var t := s[k..];
    forall i | 0 <= i < |t| ensures IsMaximalRun(s, k + i, len) <==> IsMaximalRun(t, i, len) {
      if i >= 1 {
        ShiftedRun(s, k, i, len);
      } else if !s[k - 1] {
        assert t[0] == s[k];
        if IsMaximalRun(t, 0, len) {
          forall j | k <= j < k + len ensures s[j] {
            assert s[j] == t[j - k];
          }
        }
        if IsMaximalRun(s, k, len) {
          forall j | 0 <= j < len ensures t[j] {
            assert t[j] == s[j + k];
          }
        }
      } else {
        assert !t[0];
      }
    }
    CountShift(s, k, len, |t|);
  }

  /** Bucket `len` of the recorded runs is the number of maximal runs of
      exactly `len` cells. */
  lemma {:induction false} MaximalRunsCount(s: seq<bool>, len: int)
    requires len >= 1
    ensures multiset(MaximalRuns(s))[len] == CountMaximalRuns(s, len)
    decreases |s|
  {
    if s == [] {
    } else if !s[0] {
      MaximalRunsCount(s[1..], len);
      CountAfterCut(s, 1, len);
      assert !IsMaximalRun(s, 0, len);
    } else {
      var k := LeadingRun(s);
      var t := s[k..];
      MaximalRunsCount(t, len);
      CountAfterCut(s, k, len);
      LeadingRunStarts(s, len, k);
      assert MaximalRuns(s) == [k] + MaximalRuns(t);
    }
  }

  /** The end-to-end statement for one line: the number of runs of exactly
      `len` cells that the sweep and its flush record is the number of maximal
      runs of that length. */
  lemma LineRunsCount(s: seq<bool>, len: int)
    requires len >= 1
    ensures multiset(LineRuns(s))[len] == CountMaximalRuns(s, len)
  {
    LineRunsAreMaximalRuns(s);
    MaximalRunsCount(s, len);
  }

  /** A line without a cell of the kind holds no run. */
  lemma {:induction false} NoCellNoRun(s: seq<bool>)
    requires forall i | 0 <= i < |s| :: !s[i]
    ensures Scan(s, 0) == Sweep([], 0)
    ensures MaximalRuns(s) == []
    decreases |s|
  {
    if s != [] {
      NoCellNoRun(s[..|s| - 1]);
      NoCellNoRun(s[1..]);
    }
  }

  // ---------------------------------------------------------------------------
  // Conservation: every cell of the kind lies in exactly one recorded run.

  function Sum(s: seq<nat>): nat
  {
    if s == [] then 0 else Sum(s[..|s| - 1]) + s[|s| - 1]
  }

  function CountTrue(s: seq<bool>): nat
  {
    if s == [] then 0 else CountTrue(s[..|s| - 1]) + (if s[|s| - 1] then 1 else 0)
  }

  lemma {:induction false} SumAppend(a: seq<nat>, b: seq<nat>)
    ensures Sum(a + b) == Sum(a) + Sum(b)
    decreases |b|
  {
    if b == [] {
      assert a + b == a;
    } else {
      assert (a + b)[..|a + b| - 1] == a + b[..|b| - 1];
      SumAppend(a, b[..|b| - 1]);
    }
  }

  lemma {:induction false} ScanConserves(s: seq<bool>, carry: nat)
    ensures Sum(Scan(s, carry).runs) + Scan(s, carry).carry == carry + CountTrue(s)
    decreases |s|
  {
    if s != [] {
      var prev := Scan(s[..|s| - 1], carry);
      ScanConserves(s[..|s| - 1], carry);
      SumAppend(prev.runs, Step(prev.carry, s[|s| - 1]).runs);
      assert Sum([prev.carry]) == prev.carry;
    }
  }

  /** The recorded runs of a line add up to its number of cells of the kind. */
  lemma LineRunsConserve(s: seq<bool>)
    ensures Sum(LineRuns(s)) == CountTrue(s)
    ensures Sum(MaximalRuns(s)) == CountTrue(s)
  {
    var sw := Scan(s, 0);
    ScanConserves(s, 0);
    SumAppend(sw.runs, if sw.carry > 0 then [sw.carry] else []);
    assert Sum([sw.carry]) == sw.carry;
    LineRunsAreMaximalRuns(s);
  }

  lemma {:induction false} CountTrueAppend(a: seq<bool>, b: seq<bool>)
    ensures CountTrue(a + b) == CountTrue(a) + CountTrue(b)
    decreases |b|
  {
    if b == [] {
      assert a + b == a;
    } else {
      assert (a + b)[..|a + b| - 1] == a + b[..|b| - 1];
      CountTrueAppend(a, b[..|b| - 1]);
    }
  }

  /** Every cell is either of the kind or of the complementary kind. */
  lemma {:induction false} CountComplement(s: seq<bool>, t: seq<bool>)
    requires |s| == |t|
    requires forall i | 0 <= i < |s| :: t[i] == !s[i]
    ensures CountTrue(s) + CountTrue(t) == |s|
    decreases |s|
  {
    if s != [] {
      CountComplement(s[..|s| - 1], t[..|t| - 1]);
    }
  }

  // ---------------------------------------------------------------------------
  // Frequency distributions.

  /** The frequency distribution of `size` buckets: bucket `i` holds the number
      of runs of length `i + 1`. */
  function Histogram(m: multiset<nat>, size: nat): (h: seq<nat>)
  {
    seq(size, i => m[i + 1])
  }

  /** The number of cells that the runs of a distribution cover: the sum over
      the buckets of `(i + 1) * h[i]`. */
  function WeightedSum(h: seq<nat>): nat
  {
    if h == [] then 0 else WeightedSum(h[..|h| - 1]) + |h| * h[|h| - 1]
  }

  lemma {:induction false} WeightedSumBump(h: seq<nat>, h': seq<nat>, j: nat)
    requires |h| == |h'| && j < |h|
    requires h'[j] == h[j] + 1
    requires forall i | 0 <= i < |h| && i != j :: h'[i] == h[i]
    ensures WeightedSum(h') == WeightedSum(h) + j + 1
    decreases |h|
  {
    var n := |h|;
    if j < n - 1 {
      WeightedSumBump(h[..n - 1], h'[..n - 1], j);
    } else {
      assert h[..n - 1] == h'[..n - 1];
    }
  }

  /** A distribution that counts every run covers as many cells as the runs. */
  lemma {:induction false} WeightedSumOfHistogram(runs: seq<nat>, size: nat)
    requires forall k | 0 <= k < |runs| :: 1 <= runs[k] <= size
    ensures WeightedSum(Histogram(multiset(runs), size)) == Sum(runs)
    decreases |runs|
  {
    if runs == [] {
      var h := Histogram(multiset(runs), size);
      ZeroWeightedSum(h);
    } else {
      var init, r := runs[..|runs| - 1], runs[|runs| - 1];
      assert runs == init + [r];
      WeightedSumOfHistogram(init, size);
      WeightedSumBump(Histogram(multiset(init), size), Histogram(multiset(runs), size), r - 1);
    }
  }

  lemma {:induction false} ZeroWeightedSum(h: seq<nat>)
    requires forall i | 0 <= i < |h| :: h[i] == 0
    ensures WeightedSum(h) == 0
    decreases |h|
  {
    if h != [] {
      ZeroWeightedSum(h[..|h| - 1]);
    }
  }

  /** Flushing a buffer of line lengths into a distribution, one line per
      positive entry and nothing for a zero entry, adds the sum of the
      buffer to the points the distribution covers. */
  lemma {:induction false} WeightedSumOfFlush(h: seq<nat>, lengths: seq<nat>, h': seq<nat>)
    requires |h'| == |h|
    requires forall k | 0 <= k < |lengths| :: lengths[k] <= |h|
    requires forall len | 1 <= len <= |h| :: h'[len - 1] == h[len - 1] + multiset(lengths)[len]
    ensures WeightedSum(h') == WeightedSum(h) + Sum(lengths)
    decreases |lengths|
  {
    if lengths == [] {
      forall i | 0 <= i < |h|
        ensures h'[i] == h[i]
      {
        var len := i + 1;
        assert h'[len - 1] == h[len - 1] + multiset(lengths)[len];
      }
      assert h' == h;
    } else {
      var init, r := lengths[..|lengths| - 1], lengths[|lengths| - 1];
      assert lengths == init + [r];
      var m := multiset(init);
      var mid: seq<nat> := seq(|h|, i requires 0 <= i < |h| => h[i] + m[i + 1]);
      WeightedSumOfFlush(h, init, mid);
      assert multiset(lengths) == m + multiset{r};
      forall i | 0 <= i < |h|
        ensures h'[i] == mid[i] + (if i + 1 == r then 1 else 0)
      {
        var len := i + 1;
        assert h'[len - 1] == h[len - 1] + multiset(lengths)[len];
      }
      if r == 0 {
        assert h' == mid;
      } else {
        WeightedSumBump(mid, h', r - 1);
      }
    }
  }

  // ---------------------------------------------------------------------------
  // Families of lines: all columns, all diagonals, ... A family is swept one
  // cell at a time, in any order of its lines; `parts[i]` holds the cells of
  // line `i` swept so far.

  /** The maximal runs of the lines of a family, line after line. */
  function AllMaximalRuns(lines: seq<seq<bool>>): seq<nat>
  {
    if lines == [] then [] else AllMaximalRuns(lines[..|lines| - 1]) + MaximalRuns(lines[|lines| - 1])
  }

  /** The first `done` cells of a line, all of it if it is shorter. */
  function Visited(line: seq<bool>, done: nat): (v: seq<bool>)
    ensures |v| <= |line| && |v| <= done
  {
    line[..if done <= |line| then done else |line|]
  }

  /** The runs ended so far on the lines of a family. */
  function EndedRuns(parts: seq<seq<bool>>): seq<nat>
  {
    if parts == [] then [] else EndedRuns(parts[..|parts| - 1]) + Scan(parts[|parts| - 1], 0).runs
  }

  /** The carryovers of the lines of a family. */
  function Carries(parts: seq<seq<bool>>): (r: seq<nat>)
    ensures |r| == |parts|
  {
    if parts == [] then [] else Carries(parts[..|parts| - 1]) + [Scan(parts[|parts| - 1], 0).carry]
  }

  lemma {:induction false} CarriesAre(parts: seq<seq<bool>>, carry: seq<nat>)
    requires |carry| == |parts|
    requires forall i | 0 <= i < |parts| :: carry[i] == Scan(parts[i], 0).carry
    ensures carry == Carries(parts)
  {
    if parts != [] {
      var c := |parts| - 1;
      CarriesAre(parts[..c], carry[..c]);
      assert carry == carry[..c] + [carry[c]];
    }
  }

  /** Sweeping one more cell `b` of line `i0` adds to the ended runs exactly
      the run that cell ends, if any. */
  lemma {:induction false} EndedRunsAdvance(parts: seq<seq<bool>>, i0: nat, b: bool)
    requires i0 < |parts|
    ensures multiset(EndedRuns(parts[i0 := parts[i0] + [b]]))
         == multiset(EndedRuns(parts)) + multiset(Step(Scan(parts[i0], 0).carry, b).runs)
  {
    var c := |parts| - 1;
    var parts' := parts[i0 := parts[i0] + [b]];
    var added := Step(Scan(parts[i0], 0).carry, b).runs;
    assert EndedRuns(parts') == EndedRuns(parts'[..c]) + Scan(parts'[c], 0).runs;
    assert EndedRuns(parts) == EndedRuns(parts[..c]) + Scan(parts[c], 0).runs;
    if c == i0 {
      assert parts'[..c] == parts[..c];
      ScanSnoc(parts[i0], b, 0);
      assert Scan(parts'[c], 0).runs == Scan(parts[c], 0).runs + added;
    } else {
      assert parts'[..c] == parts[..c][i0 := parts[i0] + [b]];
      assert parts'[c] == parts[c];
      EndedRunsAdvance(parts[..c], i0, b);
    }
  }

  /** Before the sweep no run has ended on any line. */
  lemma {:induction false} NothingEnded(parts: seq<seq<bool>>)
    requires forall i | 0 <= i < |parts| :: parts[i] == []
    ensures EndedRuns(parts) == []
  {
    if parts != [] {
      NothingEnded(parts[..|parts| - 1]);
    }
  }

  /** Once every line has been swept in full, the ended runs of length `len`
      together with the carryovers of length `len` are the maximal runs of
      length `len`. */
  lemma {:induction false} FlushedRunsCount(lines: seq<seq<bool>>, len: nat)
    requires len >= 1
    ensures multiset(EndedRuns(lines))[len] + multiset(Carries(lines))[len] == multiset(AllMaximalRuns(lines))[len]
  {
    if lines != [] {
      var c := |lines| - 1;
      FlushedRunsCount(lines[..c], len);
      FlushedLineCount(lines[c], len);
      CountsAdd(EndedRuns(lines[..c]), Carries(lines[..c]), AllMaximalRuns(lines[..c]),
                Scan(lines[c], 0).runs, [Scan(lines[c], 0).carry], MaximalRuns(lines[c]), len);
    }
  }

  /** Counts of one value that add up in two pairs of sequences add up in
      their concatenations. */
  lemma CountsAdd(a: seq<nat>, b: seq<nat>, c: seq<nat>, a': seq<nat>, b': seq<nat>, c': seq<nat>, len: nat)
    requires multiset(a)[len] + multiset(b)[len] == multiset(c)[len]
    requires multiset(a')[len] + multiset(b')[len] == multiset(c')[len]
    ensures multiset(a + a')[len] + multiset(b + b')[len] == multiset(c + c')[len]
  {
  }

  /** For one line: the ended runs of length `len` and the carryover, if it
      has length `len`, are its maximal runs of length `len`. */
  lemma FlushedLineCount(line: seq<bool>, len: int)
    requires len >= 1
    ensures multiset(Scan(line, 0).runs)[len] + multiset([Scan(line, 0).carry])[len]
         == multiset(MaximalRuns(line))[len]
  {
    LineRunsAreMaximalRuns(line);
  }

  /** All maximal runs of a family of lines, as a frequency distribution, cover
      as many cells as the lines hold cells of the kind. */
  lemma AllMaximalRunsConserve(lines: seq<seq<bool>>, size: nat)
    requires forall i | 0 <= i < |lines| :: |lines[i]| <= size
    ensures WeightedSum(Histogram(multiset(AllMaximalRuns(lines)), size)) == CountAll(lines)
  {
    AllMaximalRunsBounded(lines, size);
    WeightedSumOfHistogram(AllMaximalRuns(lines), size);
    SumOfAllMaximalRuns(lines);
  }

  lemma {:induction false} AllMaximalRunsBounded(lines: seq<seq<bool>>, size: nat)
    requires forall i | 0 <= i < |lines| :: |lines[i]| <= size
    ensures forall k | 0 <= k < |AllMaximalRuns(lines)| :: 1 <= AllMaximalRuns(lines)[k] <= size
  {
    if lines != [] {
      AllMaximalRunsBounded(lines[..|lines| - 1], size);
      MaximalRunsBounded(lines[|lines| - 1]);
    }
  }

  lemma {:induction false} SumOfAllMaximalRuns(lines: seq<seq<bool>>)
    ensures Sum(AllMaximalRuns(lines)) == CountAll(lines)
  {
    if lines != [] {
      var c := |lines| - 1;
      SumOfAllMaximalRuns(lines[..c]);
      SumAppend(AllMaximalRuns(lines[..c]), MaximalRuns(lines[c]));
      LineRunsConserve(lines[c]);
    }
  }

  /** The number of cells of the kind on the lines of a family. */
  function CountAll(lines: seq<seq<bool>>): nat
  {
    if lines == [] then 0 else CountAll(lines[..|lines| - 1]) + CountTrue(lines[|lines| - 1])
  }

  /** Counting a family line by line: the sum of the per-line counts. */
  lemma {:induction false} CountAllIsSum(lines: seq<seq<bool>>)
    ensures CountAll(lines) == Sum(seq(|lines|, i requires 0 <= i < |lines| => CountTrue(lines[i])))
  {
    if lines != [] {
      var c := |lines| - 1;
      CountAllIsSum(lines[..c]);
      var counts := seq(|lines|, i requires 0 <= i < |lines| => CountTrue(lines[i]));
      assert counts[..c] == seq(c, i requires 0 <= i < c => CountTrue(lines[..c][i]));
    }
  }

  /** Two families of `size`-cell lines that complement each other cell by
      cell hold `size` cells per line between them. */
  lemma {:induction false} CountAllComplement(lines: seq<seq<bool>>, others: seq<seq<bool>>, size: nat)
    requires |others| == |lines|
    requires forall i | 0 <= i < |lines| :: |lines[i]| == size && |others[i]| == size
    requires forall i, k | 0 <= i < |lines| && 0 <= k < size :: others[i][k] == !lines[i][k]
    ensures CountAll(lines) + CountAll(others) == |lines| * size
  {
    if lines != [] {
      var c := |lines| - 1;
      CountAllComplement(lines[..c], others[..c], size);
      CountComplement(lines[c], others[c]);
    }
  }

  /** The number of maximal runs of exactly `len` cells on the lines of a
      family. */
  ghost function CountAllMaximalRuns(lines: seq<seq<bool>>, len: int): nat
  {
    if lines == [] then 0 else CountAllMaximalRuns(lines[..|lines| - 1], len) + CountMaximalRuns(lines[|lines| - 1], len)
  }

  /** Bucket `len - 1` of the distribution of a family counts its maximal runs
      of exactly `len` cells. */
  lemma {:induction false} AllMaximalRunsCount(lines: seq<seq<bool>>, len: int)
    requires len >= 1
    ensures multiset(AllMaximalRuns(lines))[len] == CountAllMaximalRuns(lines, len)
  {
    if lines != [] {
      var c := |lines| - 1;
      AllMaximalRunsCount(lines[..c], len);
      MaximalRunsCount(lines[c], len);
    }
  }
}
