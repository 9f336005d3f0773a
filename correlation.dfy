/** The strong-correlation insight shared by app.py, pages/5_Korelasi.py and
    pages/6_EDA.py: a scan of the correlation matrix in row-major order for the
    pairs of different columns with a large coefficient, and the `seen`-set pass
    that writes each pair once. The coefficients themselves come from
    `DataFrame.corr()` and are inputs here. */
module Correlation {
  import opened Wrappers
  import opened Frames
  import opened Numbers

  /** `corr()`: the column labels and the coefficient for every ordered pair of
      columns; `None` stands for NaN (a constant column, too few rows). */
  datatype Matrix = Matrix(names: seq<string>, r: seq<seq<Option<real>>>)

  predicate Square(m: Matrix) {
    |m.r| == |m.names| && forall i :: 0 <= i < |m.r| ==> |m.r[i]| == |m.names|
  }

  /** `corr.loc[i, j]` is one number only when the labels are unique. */
  predicate DistinctNames(names: seq<string>) {
    forall a, b :: 0 <= a < b < |names| ==> names[a] != names[b]
  }

  predicate Symmetric(m: Matrix)
    requires Square(m)
  {
    forall i, j :: 0 <= i < |m.names| && 0 <= j < |m.names| ==> m.r[i][j] == m.r[j][i]
  }

  /** `abs(r) >= 0.5`, or `abs(r) > 0.5` when `strict`; NaN compares false. */
  predicate Strong(v: Option<real>, strict: bool) {
    v.Some? && (if strict then Abs(v.value) > 0.5 else Abs(v.value) >= 0.5)
  }

  /** One candidate `(i, j, corr.loc[i, j])`. */
  datatype Pair = Pair(a: string, b: string, r: real)

  lemma {:induction false} RowCol(i: nat, j: nat, n: nat)
    requires i < n && j < n
    ensures i * n + j < n * n
    ensures (i * n + j) / n == i && (i * n + j) % n == j
  {
    var p := i * n + j;
    var q := p / n;
    var r := p % n;
    assert q * n + r == p;
    assert (q - i) * n == j - r;
    if q > i {
      MulAtLeast(q - i, n);
    } else if q < i {
      MulAtLeast(i - q, n);
    }
    MulAtLeast(n - i, n);
  }

  lemma MulAtLeast(d: int, n: nat)
    requires d >= 1
    ensures d * n >= n
  {
  }

  lemma DivBelow(p: nat, n: nat)
    requires p < n * n
    ensures n > 0 && p / n < n && p % n < n
  {
    var q := p / n;
    if q >= n {
      MulAtLeast(q - n + 1, n);
    }
  }

  /** Every ordered pair of columns, in the order the nested loop meets them:
      position `i * n + j` holds `(names[i], names[j])` (a NaN coefficient shows
      as 0 and is never kept). */
  function Grid(m: Matrix): (g: seq<Pair>)
    requires Square(m)
    ensures |g| == |m.names| * |m.names|
  {
    var n := |m.names|;
    seq(n * n, p requires 0 <= p < n * n =>
      DivBelow(p, n);
      Pair(m.names[p / n], m.names[p % n], m.r[p / n][p % n].GetOr(0.0)))
  }

  /** Where the test `i != j and abs(corr.loc[i, j]) >= 0.5` holds. */
  function Hits(m: Matrix, strict: bool): (h: seq<bool>)
    requires Square(m)
    ensures |h| == |m.names| * |m.names|
  {
    var n := |m.names|;
    seq(n * n, p requires 0 <= p < n * n =>
      DivBelow(p, n);
      m.names[p / n] != m.names[p % n] && Strong(m.r[p / n][p % n], strict))
  }

  /** The candidate list: the row-major enumeration of the ordered pairs, kept
      where the test holds. */
  function StrongPairs(m: Matrix, strict: bool): (ps: seq<Pair>)
    requires Square(m)
    ensures |ps| == Trues(Hits(m, strict)) && |ps| <= |m.names| * |m.names|
  {
    KeepTrues(Grid(m), Hits(m, strict));
    Keep(Grid(m), Hits(m, strict))
  }

  lemma GridAt(m: Matrix, strict: bool, i: nat, j: nat)
    requires Square(m) && i < |m.names| && j < |m.names|
    ensures i * |m.names| + j < |m.names| * |m.names|
    ensures Grid(m)[i * |m.names| + j] == Pair(m.names[i], m.names[j], m.r[i][j].GetOr(0.0))
    ensures Hits(m, strict)[i * |m.names| + j] == (m.names[i] != m.names[j] && Strong(m.r[i][j], strict))
  {
    RowCol(i, j, |m.names|);
  }

  /** The inner loop has met row `i` in full. */
  lemma RowDone(i: nat, n: nat)
    requires i < n
    ensures (i + 1) * n == i * n + n && i * n + n <= n * n
  {
    MulAtLeast(n - i, n);
  }

  /** One step of the nested loop, at row `i` and column `j` (`base` is
      `i * n`): the pair is appended exactly when the test holds. */
  lemma ScanStep(m: Matrix, i: nat, j: nat, base: nat)
    requires Square(m) && i < |m.names| && j < |m.names| && base == i * |m.names|
    ensures base + j < |m.names| * |m.names|
    ensures Keep(Grid(m)[..base + j + 1], Hits(m, false)[..base + j + 1]) ==
      Keep(Grid(m)[..base + j], Hits(m, false)[..base + j]) +
      (if m.names[i] != m.names[j] && m.r[i][j].Some? && Abs(m.r[i][j].value) >= 0.5
       then [Pair(m.names[i], m.names[j], m.r[i][j].value)] else [])
  {
    GridAt(m, false, i, j);
    KeepPrefixStep(Grid(m), Hits(m, false), base + j);
  }

  /** The inner loop over row `i` (`base` is `i * n`): it extends the pairs met
      so far by the row's pairs that pass the test. */
  method ScanRow(m: Matrix, i: nat, base: nat, before: seq<Pair>) returns (pairs: seq<Pair>)
    requires Square(m) && i < |m.names| && base == i * |m.names|
    requires base + |m.names| <= |m.names| * |m.names|
    requires before == Keep(Grid(m)[..base], Hits(m, false)[..base])
    ensures pairs == Keep(Grid(m)[..base + |m.names|], Hits(m, false)[..base + |m.names|])
  {
    pairs := before;
    for j := 0 to |m.names|
      invariant pairs == Keep(Grid(m)[..base + j], Hits(m, false)[..base + j])
    {
      var v := m.r[i][j];
      ScanStep(m, i, j, base);
      if m.names[i] != m.names[j] && v.Some? && Abs(v.value) >= 0.5 {
        pairs := pairs + [Pair(m.names[i], m.names[j], v.value)];
      }
    }
  }

  /** app.py and pages/5_Korelasi.py: the nested loop appending every pair of
      different labels with `abs(r) >= 0.5`, in row-major order. */
  method ScanStrong(m: Matrix) returns (pairs: seq<Pair>)
    requires Square(m) && DistinctNames(m.names)
    ensures pairs == StrongPairs(m, false)
  {
    var n := |m.names|;
    pairs := [];
    for i := 0 to n
      invariant i * n <= n * n
      invariant pairs == Keep(Grid(m)[..i * n], Hits(m, false)[..i * n])
    {
      RowDone(i, n);
      pairs := ScanRow(m, i, i * n, pairs);
    }
    assert Grid(m)[..n * n] == Grid(m) && Hits(m, false)[..n * n] == Hits(m, false);
  }

  /** The candidate with `(names[i], names[j])` and coefficient `r`. */
  predicate IsCandidate(m: Matrix, strict: bool, x: Pair)
    requires Square(m)
  {
    exists i, j :: 0 <= i < |m.names| && 0 <= j < |m.names| && CandidateAt(m, strict, x, i, j)
  }

  predicate CandidateAt(m: Matrix, strict: bool, x: Pair, i: nat, j: nat)
    requires Square(m) && i < |m.names| && j < |m.names|
  {
    m.names[i] != m.names[j] && Strong(m.r[i][j], strict) &&
    x == Pair(m.names[i], m.names[j], m.r[i][j].value)
  }

  lemma Split(p: nat, n: nat) returns (i: nat, j: nat)
    requires p < n * n
    ensures i < n && j < n && p == i * n + j
  {
    DivBelow(p, n);
    i, j := p / n, p % n;
  }

  /** The row and column of position `p` of the enumeration. */
  lemma RowColOf(m: Matrix, strict: bool, p: nat) returns (i: nat, j: nat)
    requires Square(m) && p < |m.names| * |m.names|
    ensures i < |m.names| && j < |m.names| && p == i * |m.names| + j
    ensures Grid(m)[p] == Pair(m.names[i], m.names[j], m.r[i][j].GetOr(0.0))
    ensures Hits(m, strict)[p] == (m.names[i] != m.names[j] && Strong(m.r[i][j], strict))
  {
    i, j := Split(p, |m.names|);
    GridAt(m, strict, i, j);
  }

  /** Every listed pair is a candidate. */
  lemma StrongPairsSound(m: Matrix, strict: bool, x: Pair)
    requires Square(m) && x in StrongPairs(m, strict)
    ensures IsCandidate(m, strict, x)
  {
    KeepMember(Grid(m), Hits(m, strict), x);
    var p :| 0 <= p < |Grid(m)| && Hits(m, strict)[p] && Grid(m)[p] == x;
    var i, j := RowColOf(m, strict, p);
    assert CandidateAt(m, strict, x, i, j);
  }

  /** Every candidate is listed. */
  lemma StrongPairsComplete(m: Matrix, strict: bool, x: Pair, i: nat, j: nat)
    requires Square(m) && i < |m.names| && j < |m.names| && CandidateAt(m, strict, x, i, j)
    ensures x in StrongPairs(m, strict)
  {
    GridAt(m, strict, i, j);
    var p := i * |m.names| + j;
    KeepMember(Grid(m), Hits(m, strict), x);
    assert Hits(m, strict)[p] && Grid(m)[p] == x;
  }

  /** A pair is a candidate iff it is `(names[i], names[j], r)` for two different
      labels whose coefficient `r` passes the threshold. */
  lemma StrongPairsMembers(m: Matrix, strict: bool, x: Pair)
    requires Square(m)
    ensures x in StrongPairs(m, strict) <==> IsCandidate(m, strict, x)
  {
    if x in StrongPairs(m, strict) {
      StrongPairsSound(m, strict, x);
    }
    if IsCandidate(m, strict, x) {
      var i, j :| 0 <= i < |m.names| && 0 <= j < |m.names| && CandidateAt(m, strict, x, i, j);
      StrongPairsComplete(m, strict, x, i, j);
    }
  }

  /** No candidate pairs a column with itself. */
  lemma NoDiagonal(m: Matrix, strict: bool)
    requires Square(m)
    ensures forall x :: x in StrongPairs(m, strict) ==> x.a != x.b
  {
    forall x | x in StrongPairs(m, strict)
      ensures x.a != x.b
    {
      StrongPairsMembers(m, strict, x);
      var i, j :| 0 <= i < |m.names| && 0 <= j < |m.names| && CandidateAt(m, strict, x, i, j);
    }
  }

  /** pages/6_EDA.py: every candidate under `> 0.5` is one under `>= 0.5`, and
      on a symmetric matrix the strict list holds each pair in both orientations. */
  lemma EdaListBothWays(m: Matrix, x: Pair)
    requires Square(m) && Symmetric(m)
    ensures x in StrongPairs(m, true) ==> x in StrongPairs(m, false)
    ensures x in StrongPairs(m, true) <==> Pair(x.b, x.a, x.r) in StrongPairs(m, true)
  {
    var y := Pair(x.b, x.a, x.r);
    StrongPairsMembers(m, true, x);
    StrongPairsMembers(m, false, x);
    StrongPairsMembers(m, true, y);
    if x in StrongPairs(m, true) {
      var i, j :| 0 <= i < |m.names| && 0 <= j < |m.names| && CandidateAt(m, true, x, i, j);
      assert CandidateAt(m, false, x, i, j);
      assert CandidateAt(m, true, y, j, i);
    }
    if y in StrongPairs(m, true) {
      var i, j :| 0 <= i < |m.names| && 0 <= j < |m.names| && CandidateAt(m, true, y, i, j);
      assert CandidateAt(m, true, x, j, i);
    }
  }

  // ---------------------------------------------------------------------------
  // Writing each pair once
  // ---------------------------------------------------------------------------

  /** "positif" iff r > 0; zero and NaN read "negatif". */
  datatype Direction = Positif | Negatif

  function Arah(r: real): (d: Direction)
    ensures d == Positif <==> r > 0.0
  {
    if r > 0.0 then Positif else Negatif
  }

  /** One line of the insight: the pair, its coefficient and its direction. */
  datatype Line = Line(a: string, b: string, r: real, arah: Direction)

  function LineOf(p: Pair): Line {
    Line(p.a, p.b, p.r, Arah(p.r))
  }

  function Lines(ps: seq<Pair>): (ls: seq<Line>)
    ensures |ls| == |ps| && forall k :: 0 <= k < |ps| ==> ls[k] == LineOf(ps[k])
  {
    seq(|ps|, k requires 0 <= k < |ps| => LineOf(ps[k]))
  }

  /** `(b, a)` reverses the pair `(a, b)`. */
  predicate Reverses(p: Pair, q: Pair) {
    p.a == q.b && p.b == q.a
  }

  /** Which candidates are written: those with no earlier candidate reversing them. */
  function FirstMet(ps: seq<Pair>): (f: seq<bool>)
    ensures |f| == |ps|
    ensures forall k :: 0 <= k < |ps| ==> (f[k] <==> forall t :: 0 <= t < k ==> !Reverses(ps[t], ps[k]))
  {
    seq(|ps|, k requires 0 <= k < |ps| => forall t :: 0 <= t < k ==> !Reverses(ps[t], ps[k]))
  }

  /** The labels of the candidates before position `k`. */
  function SeenUpTo(ps: seq<Pair>, k: nat): set<(string, string)>
    requires k <= |ps|
  {
    set t | 0 <= t < k :: (ps[t].a, ps[t].b)
  }

  /** The reverse of candidate `k` is among the labels met before it iff the
      candidate is not written. */
  lemma SeenReverse(ps: seq<Pair>, k: nat)
    requires k < |ps|
    ensures (ps[k].b, ps[k].a) in SeenUpTo(ps, k) <==> !FirstMet(ps)[k]
  {
    if (ps[k].b, ps[k].a) in SeenUpTo(ps, k) {
      var t :| 0 <= t < k && (ps[t].a, ps[t].b) == (ps[k].b, ps[k].a);
      assert Reverses(ps[t], ps[k]);
    }
    if !FirstMet(ps)[k] {
      var t :| 0 <= t < k && Reverses(ps[t], ps[k]);
      assert (ps[t].a, ps[t].b) in SeenUpTo(ps, k);
    }
  }

  lemma SeenStep(ps: seq<Pair>, k: nat)
    requires k < |ps|
    ensures SeenUpTo(ps, k + 1) == SeenUpTo(ps, k) + {(ps[k].a, ps[k].b)}
  {
  }

  /** The `seen` loop: a candidate is written unless its reverse was met before,
      and every candidate is added to `seen`, written or not. */
  method Report(ps: seq<Pair>) returns (lines: seq<Line>)
    ensures lines == Keep(Lines(ps), FirstMet(ps))
  {
    var seen: set<(string, string)> := {};
    lines := [];
    for k := 0 to |ps|
      invariant seen == SeenUpTo(ps, k)
      invariant lines == Keep(Lines(ps)[..k], FirstMet(ps)[..k])
    {
      var p := ps[k];
      SeenReverse(ps, k);
      KeepPrefixStep(Lines(ps), FirstMet(ps), k);
      if (p.b, p.a) !in seen {
        lines := lines + [Line(p.a, p.b, p.r, Arah(p.r))];
      }
      seen := seen + {(p.a, p.b)};
      SeenStep(ps, k);
    }
    assert Lines(ps)[..|ps|] == Lines(ps) && FirstMet(ps)[..|ps|] == FirstMet(ps);
  }

  /** No two candidates carry the same ordered pair of labels. */
  predicate DistinctPairs(ps: seq<Pair>) {
    forall s, t :: 0 <= s < t < |ps| ==> (ps[s].a, ps[s].b) != (ps[t].a, ps[t].b)
  }

  /** Each written line repeats neither an earlier line nor its reverse: every
      unordered pair is written at most once. */
  lemma WrittenOnce(ps: seq<Pair>)
    requires DistinctPairs(ps)
    ensures var ls := Keep(Lines(ps), FirstMet(ps));
      forall x, y :: 0 <= x < y < |ls| ==>
        (ls[x].a, ls[x].b) != (ls[y].a, ls[y].b) && (ls[x].a, ls[x].b) != (ls[y].b, ls[y].a)
  {
    var ls := Keep(Lines(ps), FirstMet(ps));
    forall x, y | 0 <= x < y < |ls|
      ensures (ls[x].a, ls[x].b) != (ls[y].a, ls[y].b) && (ls[x].a, ls[x].b) != (ls[y].b, ls[y].a)
    {
      WrittenPair(ps, x, y);
    }
  }

  lemma WrittenPair(ps: seq<Pair>, x: nat, y: nat)
    requires DistinctPairs(ps) && x < y < |Keep(Lines(ps), FirstMet(ps))|
    ensures var ls := Keep(Lines(ps), FirstMet(ps));
      (ls[x].a, ls[x].b) != (ls[y].a, ls[y].b) && (ls[x].a, ls[x].b) != (ls[y].b, ls[y].a)
  {
    var f := FirstMet(ps);
    var s := KeptSource(Lines(ps), f, x);
    var t := KeptSource(Lines(ps), f, y);
    SourcesOrdered(f, s, t, x, y);
    LaterLineNew(ps, s, t);
  }

  /** Kept elements come from their sources in the same order. */
  lemma SourcesOrdered(f: seq<bool>, s: nat, t: nat, x: nat, y: nat)
    requires s < |f| && t < |f| && f[s] && f[t] && Trues(f[..s]) == x && Trues(f[..t]) == y && x < y
    ensures s < t
  {
    if t < s {
      TruesGrow(f, t, s);
    }
  }

  /** A later written candidate neither repeats nor reverses an earlier one. */
  lemma LaterLineNew(ps: seq<Pair>, s: nat, t: nat)
    requires DistinctPairs(ps) && s < t < |ps| && FirstMet(ps)[t]
    ensures (LineOf(ps[s]).a, LineOf(ps[s]).b) != (LineOf(ps[t]).a, LineOf(ps[t]).b)
    ensures (LineOf(ps[s]).a, LineOf(ps[s]).b) != (LineOf(ps[t]).b, LineOf(ps[t]).a)
  {
    assert !Reverses(ps[s], ps[t]);
  }

  /** A candidate is written iff no earlier candidate reverses it. */
  lemma WrittenIff(ps: seq<Pair>, k: nat)
    requires DistinctPairs(ps) && k < |ps|
    ensures LineOf(ps[k]) in Keep(Lines(ps), FirstMet(ps)) <==> FirstMet(ps)[k]
  {
    KeepMember(Lines(ps), FirstMet(ps), LineOf(ps[k]));
  }

  /** Of a candidate and its reverse met later, the first is written and the
      second never is. */
  lemma FirstOrientation(ps: seq<Pair>, k1: nat, k2: nat)
    requires DistinctPairs(ps) && k1 < k2 < |ps| && Reverses(ps[k1], ps[k2])
    ensures var ls := Keep(Lines(ps), FirstMet(ps));
      LineOf(ps[k1]) in ls && forall l :: l in ls ==> (l.a, l.b) != (ps[k2].a, ps[k2].b)
  {
    var f := FirstMet(ps);
    forall t | 0 <= t < k1
      ensures !Reverses(ps[t], ps[k1])
    {
      if Reverses(ps[t], ps[k1]) {
        assert false;
      }
    }
    WrittenIff(ps, k1);
    forall l | l in Keep(Lines(ps), f)
      ensures (l.a, l.b) != (ps[k2].a, ps[k2].b)
    {
      KeepMember(Lines(ps), f, l);
      var t :| 0 <= t < |ps| && f[t] && Lines(ps)[t] == l;
      if (l.a, l.b) == (ps[k2].a, ps[k2].b) {
        assert false;
      }
    }
  }

  /** On a symmetric matrix the pair `(i, j)` with `i < j` and its reverse are
      both candidates, the former first. */
  lemma BothOrientations(m: Matrix, i: nat, j: nat) returns (k1: nat, k2: nat)
    requires Square(m) && Symmetric(m)
    requires i < j < |m.names| && m.names[i] != m.names[j] && Strong(m.r[i][j], false)
    ensures k1 < k2 < |StrongPairs(m, false)|
    ensures StrongPairs(m, false)[k1] == Pair(m.names[i], m.names[j], m.r[i][j].value)
    ensures StrongPairs(m, false)[k2] == Pair(m.names[j], m.names[i], m.r[i][j].value)
  {
    var n := |m.names|;
    var g, h := Grid(m), Hits(m, false);
    GridAt(m, false, i, j);
    GridAt(m, false, j, i);
    var p1, p2 := i * n + j, j * n + i;
    assert p1 < p2 by {
      MulAtLeast(j - i, n);
      assert j * n - i * n == (j - i) * n;
    }
    KeepAt(g, h, p1);
    KeepAt(g, h, p2);
    TruesGrow(h, p1, p2);
    k1, k2 := Trues(h[..p1]), Trues(h[..p2]);
  }

  /** app.py and pages/5_Korelasi.py on a symmetric matrix with unique labels:
      every strong pair of different columns is written, in the orientation met
      first (row `i`, column `j` with `i < j`), with its coefficient and the
      direction "positif" iff it is positive, and its reverse never is. */
  lemma ReportedOnce(m: Matrix, i: nat, j: nat)
    requires Square(m) && Symmetric(m) && DistinctNames(m.names)
    requires i < j < |m.names| && Strong(m.r[i][j], false)
    ensures var ls := Keep(Lines(StrongPairs(m, false)), FirstMet(StrongPairs(m, false)));
      Line(m.names[i], m.names[j], m.r[i][j].value, Arah(m.r[i][j].value)) in ls &&
      forall l :: l in ls ==> (l.a, l.b) != (m.names[j], m.names[i])
  {
    var k1, k2 := BothOrientations(m, i, j);
    PairsDistinct(m);
    FirstOrientation(StrongPairs(m, false), k1, k2);
  }

  /** Different positions of the enumeration carry different ordered pairs when
      the labels are unique. */
  lemma GridDistinct(m: Matrix, s: nat, t: nat)
    requires Square(m) && DistinctNames(m.names)
    requires s < t < |m.names| * |m.names|
    ensures (Grid(m)[s].a, Grid(m)[s].b) != (Grid(m)[t].a, Grid(m)[t].b)
  {
    var i1, j1 := RowColOf(m, false, s);
    var i2, j2 := RowColOf(m, false, t);
    if i1 == i2 && j1 == j2 {
      assert false;
    }
  }

  /** With unique labels the candidate list holds each ordered pair once. */
  lemma PairsDistinct(m: Matrix)
    requires Square(m) && DistinctNames(m.names)
    ensures DistinctPairs(StrongPairs(m, false))
  {
    var g, h := Grid(m), Hits(m, false);
    var ps := StrongPairs(m, false);
    forall x, y | 0 <= x < y < |ps|
      ensures (ps[x].a, ps[x].b) != (ps[y].a, ps[y].b)
    {
      KeepFrom(g, h, x);
      KeepFrom(g, h, y);
      var s :| 0 <= s < |g| && h[s] && Trues(h[..s]) == x && ps[x] == g[s];
      var t :| 0 <= t < |g| && h[t] && Trues(h[..t]) == y && ps[y] == g[t];
      if t < s {
        TruesGrow(h, t, s);
        assert false;
      }
      if s == t {
        assert false;
      }
      GridDistinct(m, s, t);
    }
  }

  /** Every written line is a candidate with its direction. */
  lemma WrittenAreCandidates(m: Matrix, l: Line)
    requires Square(m)
    ensures l in Keep(Lines(StrongPairs(m, false)), FirstMet(StrongPairs(m, false))) ==>
      IsCandidate(m, false, Pair(l.a, l.b, l.r)) && (l.arah == Positif <==> l.r > 0.0)
  {
    var ps := StrongPairs(m, false);
    KeepMember(Lines(ps), FirstMet(ps), l);
    if l in Keep(Lines(ps), FirstMet(ps)) {
      var t :| 0 <= t < |ps| && FirstMet(ps)[t] && Lines(ps)[t] == l;
      assert ps[t] == Pair(l.a, l.b, l.r);
      StrongPairsMembers(m, false, ps[t]);
    }
  }

  /** The insight of app.py and pages/5_Korelasi.py: the scan, then the `seen`
      pass over its candidates. */
  method StrongInsight(m: Matrix) returns (lines: seq<Line>)
    requires Square(m) && DistinctNames(m.names)
    ensures lines == Keep(Lines(StrongPairs(m, false)), FirstMet(StrongPairs(m, false)))
  {
    var pairs := ScanStrong(m);
    lines := Report(pairs);
  }
}
