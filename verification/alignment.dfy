/** Character-level Needleman–Wunsch alignment of a document's flat text
    (the source) against a Wikipedia abstract (the reference).

    The score table is specified by the recursive `Score`, the choice made in
    each cell by `Arrow`, and the backtracking walk by `Backtrack`; the
    imperative `NeedlemanWunsch` fills two 2-D arrays and walks them, and is
    proved to produce exactly the walk of the specification. The walk yields
    two position maps (a missing correspondence is `None`) and an edit
    distance. */
module Alignment {
  import opened Wrappers

  const IndelScore: int := -10
  const SmallIndelScore: int := -1
  const MismatchScore: int := -1
  const MatchScore: int := 1

  /** The three moves a cell can come from, numbered as the arrows table
      numbers them. */
  const SkipSource: nat := 1
  const SkipReference: nat := 2
  const Diagonal: nat := 3

  function Max3(x: int, y: int, z: int): (r: int)
    ensures r >= x && r >= y && r >= z
    ensures r == x || r == y || r == z
  {
    if x >= y && x >= z then x else if y >= z then y else z
  }

  /** `np.argmax([x, y, z]) + 1`: the first of the three moves reaching the
      maximum. */
  function Argmax3(x: int, y: int, z: int): (r: nat)
    ensures r == SkipSource ==> x >= y && x >= z
    ensures r == SkipReference ==> x < y && y >= z
    ensures r == Diagonal ==> x < z && y < z
    ensures r == SkipSource || r == SkipReference || r == Diagonal
  {
    if x >= y && x >= z then SkipSource else if y >= z then SkipReference else Diagonal
  }

  /** Cost of skipping a source character while standing in reference
      column `j`: cheap only in the boundary columns (column 0 is never
      reached by the recurrence). */
  function SourceSkipCost(b: string, j: nat): int {
    if j == 0 || j == |b| then SmallIndelScore else IndelScore
  }

  function PairScore(a: string, b: string, i: nat, j: nat): int
    requires 1 <= i <= |a| && 1 <= j <= |b|
  {
    if a[i - 1] == b[j - 1] then MatchScore else MismatchScore
  }

  /** `F[i, j]`: the best score aligning `a[..i]` with `b[..j]`. */
  function Score(a: string, b: string, i: nat, j: nat): int
    requires i <= |a| && j <= |b|
    decreases i + j
  {
    if i == 0 then j * SmallIndelScore
    else if j == 0 then i * IndelScore
    else Max3(Score(a, b, i - 1, j) + SourceSkipCost(b, j),
              Score(a, b, i, j - 1) + IndelScore,
              Score(a, b, i - 1, j - 1) + PairScore(a, b, i, j))
  }

  /** `arrows[i, j]` for an inner cell. */
  function Arrow(a: string, b: string, i: nat, j: nat): nat
    requires 1 <= i <= |a| && 1 <= j <= |b|
  {
    Argmax3(Score(a, b, i - 1, j) + SourceSkipCost(b, j),
            Score(a, b, i, j - 1) + IndelScore,
            Score(a, b, i - 1, j - 1) + PairScore(a, b, i, j))
  }

  /** Position maps and distance accumulated by the backtracking walk. */
  datatype Walk = Walk(srcToRef: map<int, Option<int>>, refToSrc: map<int, Option<int>>, distance: nat)

  /** Whether skipping reference column `j` adds to the distance: skips of
      the first and last reference character are free. */
  function RefSkipPenalty(b: string, j: nat): nat {
    if 1 < j < |b| then 1 else 0
  }

  /** The backtracking walk from cell `(i, j)` with what it has accumulated so
      far: the main loop while both coordinates are positive, then the drain
      of the remaining source characters (each counted in the distance), then
      the drain of the remaining reference characters (free). */
  function Backtrack(a: string, b: string, i: nat, j: nat, w: Walk): Walk
    requires i <= |a| && j <= |b|
    decreases i + j
  {
    if i > 0 && j > 0 then
      var arrow := Arrow(a, b, i, j);
      if arrow == SkipSource then Backtrack(a, b, i - 1, j, SkipSourceWalk(i, w))
      else if arrow == SkipReference then Backtrack(a, b, i, j - 1, SkipReferenceWalk(j, w, RefSkipPenalty(b, j)))
      else Backtrack(a, b, i - 1, j - 1, DiagonalWalk(a, b, i, j, w))
    else if i > 0 then Backtrack(a, b, i - 1, j, SkipSourceWalk(i, w))
    else if j > 0 then Backtrack(a, b, i, j - 1, SkipReferenceWalk(j, w, 0))
    else w
  }

  /** The walk of the whole table. */
  function FullWalk(a: string, b: string): Walk {
    Backtrack(a, b, |a|, |b|, Walk(map[], map[], 0))
  }

  /** Exactly the positions `lo..hi-1` have an entry. */
  ghost predicate DefinedOn(m: map<int, Option<int>>, lo: int, hi: int) {
    forall k :: k in m <==> lo <= k < hi
  }

  /** Every mapped value lies in `lo..hi-1`. */
  ghost predicate ValuesIn(m: map<int, Option<int>>, lo: int, hi: int) {
    forall k :: k in m && m[k].Some? ==> lo <= m[k].value < hi
  }

  /** The two maps agree on every mapped pair. */
  ghost predicate Inverse(s2r: map<int, Option<int>>, r2s: map<int, Option<int>>) {
    && (forall s :: s in s2r && s2r[s].Some? ==> s2r[s].value in r2s && r2s[s2r[s].value] == Some(s))
    && (forall t :: t in r2s && r2s[t].Some? ==> r2s[t].value in s2r && s2r[r2s[t].value] == Some(t))
  }

  /** Mapped pairs are strictly increasing. */
  ghost predicate Increasing(m: map<int, Option<int>>) {
    forall x, y :: x in m && y in m && x < y && m[x].Some? && m[y].Some? ==> m[x].value < m[y].value
  }

  /** Number of reference columns in `j+1..|b|` whose skip is penalised. */
  function PenalisedColumnsAbove(m: nat, j: nat): nat {
    var lo := if j + 1 > 2 then j + 1 else 2;
    if m > lo then m - lo else 0
  }

  /** What the walk has established when it stands in cell `(i, j)`. */
  ghost predicate WalkInvariant(a: string, b: string, i: nat, j: nat, w: Walk)
    requires i <= |a| && j <= |b|
  {
    && DefinedOn(w.srcToRef, i, |a|)
    && DefinedOn(w.refToSrc, j, |b|)
    && ValuesIn(w.srcToRef, j, |b|)
    && ValuesIn(w.refToSrc, i, |a|)
    && Inverse(w.srcToRef, w.refToSrc)
    && Increasing(w.srcToRef)
    && w.distance <= (|a| - i) + PenalisedColumnsAbove(|b|, j)
  }

  /** The walk after a source skip, a reference skip charged `cost`, and a
      diagonal step from cell `(i, j)`. */
  function SkipSourceWalk(i: nat, w: Walk): Walk
    requires i > 0
  {
    w.(srcToRef := w.srcToRef[i - 1 := None], distance := w.distance + 1)
  }

  function SkipReferenceWalk(j: nat, w: Walk, cost: nat): Walk
    requires j > 0
  {
    w.(refToSrc := w.refToSrc[j - 1 := None], distance := w.distance + cost)
  }

  function DiagonalWalk(a: string, b: string, i: nat, j: nat, w: Walk): Walk
    requires 1 <= i <= |a| && 1 <= j <= |b|
  {
    Walk(w.srcToRef[i - 1 := Some(j - 1)], w.refToSrc[j - 1 := Some(i - 1)],
         w.distance + (if a[i - 1] != b[j - 1] then 1 else 0))
  }

  /** Each step of the walk keeps the invariant, so the finished walk has
      total, mutually inverse, increasing maps and a bounded distance. */
  lemma {:induction false} BacktrackKeepsInvariant(a: string, b: string, i: nat, j: nat, w: Walk)
    requires i <= |a| && j <= |b|
    requires WalkInvariant(a, b, i, j, w)
    ensures WalkInvariant(a, b, 0, 0, Backtrack(a, b, i, j, w))
    decreases i + j
  {
    if i == 0 && j == 0 {
      return;
    }
    // Whichever move the table prescribes, the invariant survives it, so the
    // proof does not need to know which one it is.
    BacktrackStep(a, b, i, j, w);
    if i > 0 {
      SkipSourceStep(a, b, i, j, w);
      BacktrackKeepsInvariant(a, b, i - 1, j, SkipSourceWalk(i, w));
    }
    if j > 0 {
      var cost := if i > 0 then RefSkipPenalty(b, j) else 0;
      SkipReferenceStep(a, b, i, j, w, cost);
      BacktrackKeepsInvariant(a, b, i, j - 1, SkipReferenceWalk(j, w, cost));
    }
    if i > 0 && j > 0 {
      DiagonalStep(a, b, i, j, w);
      BacktrackKeepsInvariant(a, b, i - 1, j - 1, DiagonalWalk(a, b, i, j, w));
    }
  }

  /** One step back from a cell other than the corner is one of the three
      moves; a reference skip in the first row is free. */
  lemma BacktrackStep(a: string, b: string, i: nat, j: nat, w: Walk)
    requires i <= |a| && j <= |b| && (i > 0 || j > 0)
    ensures
      || (i > 0 && Backtrack(a, b, i, j, w) == Backtrack(a, b, i - 1, j, SkipSourceWalk(i, w)))
      || (j > 0 && Backtrack(a, b, i, j, w) ==
            Backtrack(a, b, i, j - 1, SkipReferenceWalk(j, w, if i > 0 then RefSkipPenalty(b, j) else 0)))
      || (i > 0 && j > 0 && Backtrack(a, b, i, j, w) == Backtrack(a, b, i - 1, j - 1, DiagonalWalk(a, b, i, j, w)))
  {
  }

  lemma SkipSourceStep(a: string, b: string, i: nat, j: nat, w: Walk)
    requires 1 <= i <= |a| && j <= |b|
    requires WalkInvariant(a, b, i, j, w)
    ensures WalkInvariant(a, b, i - 1, j, SkipSourceWalk(i, w))
  {
  }

  lemma SkipReferenceStep(a: string, b: string, i: nat, j: nat, w: Walk, cost: nat)
    requires i <= |a| && 1 <= j <= |b|
    requires cost <= RefSkipPenalty(b, j)
    requires WalkInvariant(a, b, i, j, w)
    ensures WalkInvariant(a, b, i, j - 1, SkipReferenceWalk(j, w, cost))
  {
  }

  lemma DiagonalStep(a: string, b: string, i: nat, j: nat, w: Walk)
    requires 1 <= i <= |a| && 1 <= j <= |b|
    requires WalkInvariant(a, b, i, j, w)
    ensures WalkInvariant(a, b, i - 1, j - 1, DiagonalWalk(a, b, i, j, w))
  {
  }

  /** Strict monotonicity carries over to the inverse map. */
  lemma InverseIncreasing(s2r: map<int, Option<int>>, r2s: map<int, Option<int>>)
    requires Inverse(s2r, r2s) && Increasing(s2r)
    ensures Increasing(r2s)
  {
    forall x, y | x in r2s && y in r2s && x < y && r2s[x].Some? && r2s[y].Some?
      ensures r2s[x].value < r2s[y].value
    {
      var sx, sy := r2s[x].value, r2s[y].value;
      assert s2r[sx] == Some(x) && s2r[sy] == Some(y);
    }
  }

  /** The finished walk: both maps total, mutually inverse and increasing,
      the distance at most one per source character plus one per inner
      reference character. */
  lemma FullWalkProperties(a: string, b: string)
    ensures DefinedOn(FullWalk(a, b).srcToRef, 0, |a|)
    ensures DefinedOn(FullWalk(a, b).refToSrc, 0, |b|)
    ensures Inverse(FullWalk(a, b).srcToRef, FullWalk(a, b).refToSrc)
    ensures Increasing(FullWalk(a, b).srcToRef) && Increasing(FullWalk(a, b).refToSrc)
    ensures FullWalk(a, b).distance <= |a| + PenalisedColumnsAbove(|b|, 0)
  {
    var w0 := Walk(map[], map[], 0);
    assert WalkInvariant(a, b, |a|, |b|, w0);
    BacktrackKeepsInvariant(a, b, |a|, |b|, w0);
    var w := FullWalk(a, b);
    InverseIncreasing(w.srcToRef, w.refToSrc);
  }

  function Min(x: int, y: int): int {
    if x <= y then x else y
  }

  /** No cell scores more than one point per character of the shorter
      prefix: only a match earns a point. */
  lemma {:induction false} ScoreAtMostShorter(a: string, b: string, i: nat, j: nat)
    requires i <= |a| && j <= |b|
    ensures Score(a, b, i, j) <= Min(i, j)
    decreases i + j
  {
    if i > 0 && j > 0 {
      ScoreAtMostShorter(a, b, i - 1, j);
      ScoreAtMostShorter(a, b, i, j - 1);
      ScoreAtMostShorter(a, b, i - 1, j - 1);
    }
  }

  /** A text aligned with itself scores one point per character on the
      diagonal. */
  lemma {:induction false} SelfScore(a: string, i: nat)
    requires i <= |a|
    ensures Score(a, a, i, i) == i
    decreases i
  {
    if i > 0 {
      SelfScore(a, i - 1);
      ScoreAtMostShorter(a, a, i, i);
    }
  }

  /** On the diagonal of a self-alignment the match strictly beats both
      skips, so the cell's arrow is the diagonal one. */
  lemma SelfArrow(a: string, i: nat)
    requires 1 <= i <= |a|
    ensures Arrow(a, a, i, i) == Diagonal
  {
    SelfScore(a, i - 1);
    ScoreAtMostShorter(a, a, i - 1, i);
    ScoreAtMostShorter(a, a, i, i - 1);
  }

  /** The identity correspondence on positions `0..n-1`. */
  function Identity(n: nat): map<int, Option<int>> {
    map k | 0 <= k < n :: Some(k)
  }

  lemma IdentityExtend(m: map<int, Option<int>>, i: nat)
    requires i > 0
    ensures m[i - 1 := Some(i - 1)] + Identity(i - 1) == m + Identity(i)
  {
  }

  /** A cell whose arrow is the diagonal one continues diagonally. */
  lemma FollowDiagonal(a: string, b: string, i: nat, j: nat, w: Walk)
    requires 1 <= i <= |a| && 1 <= j <= |b| && Arrow(a, b, i, j) == Diagonal
    ensures Backtrack(a, b, i, j, w) == Backtrack(a, b, i - 1, j - 1, DiagonalWalk(a, b, i, j, w))
  {
  }

  /** From cell `(i, i)` of a self-alignment the walk goes straight down
      the diagonal, mapping each position to itself at no distance. */
  lemma {:induction false} SelfBacktrack(a: string, i: nat, w: Walk)
    requires i <= |a|
    ensures Backtrack(a, a, i, i, w) == Walk(w.srcToRef + Identity(i), w.refToSrc + Identity(i), w.distance)
    decreases i
  {
    if i > 0 {
      SelfArrow(a, i);
      FollowDiagonal(a, a, i, i, w);
      var w' := DiagonalWalk(a, a, i, i, w);
      assert w' == Walk(w.srcToRef[i - 1 := Some(i - 1)], w.refToSrc[i - 1 := Some(i - 1)], w.distance);
      SelfBacktrack(a, i - 1, w');
      IdentityExtend(w.srcToRef, i);
      IdentityExtend(w.refToSrc, i);
    } else {
      assert w.srcToRef + Identity(0) == w.srcToRef;
      assert w.refToSrc + Identity(0) == w.refToSrc;
    }
  }

  /** Aligning a text with itself maps every position to itself, in both
      directions, at distance zero. */
  lemma SelfAlignment(a: string)
    ensures FullWalk(a, a) == Walk(Identity(|a|), Identity(|a|), 0)
  {
    SelfBacktrack(a, |a|, Walk(map[], map[], 0));
    assert map[] + Identity(|a|) == Identity(|a|);
  }

  /** Result of aligning a source text against a reference text. */
  datatype Alignment = Alignment(srcToRef: map<int, Option<int>>, refToSrc: map<int, Option<int>>,
                                 distance: nat, similarity: real)

  /** The score and arrow of inner cell `(i, j)` from the scores above, to
      the left and diagonally above it. */
  method Cell(a: string, b: string, i: nat, j: nat, above: int, left: int, diagonal: int) returns (score: int, arrow: nat)
    requires 1 <= i <= |a| && 1 <= j <= |b|
    requires above == Score(a, b, i - 1, j) && left == Score(a, b, i, j - 1) && diagonal == Score(a, b, i - 1, j - 1)
    ensures score == Score(a, b, i, j) && arrow == Arrow(a, b, i, j)
  {
    var skipSource := above + SourceSkipCost(b, j);
    var skipReference := left + IndelScore;
    var pair := diagonal + (if a[i - 1] == b[j - 1] then MatchScore else MismatchScore);
    score := Max3(skipSource, skipReference, pair);
    arrow := Argmax3(skipSource, skipReference, pair);
  }

  /** Fills row `i` of the tables from row `i - 1` and the first column. */
  method FillRow(a: string, b: string, F: array2<int>, arrows: array2<int>, i: nat)
    requires F != arrows
    requires F.Length0 == |a| + 1 && F.Length1 == |b| + 1
    requires arrows.Length0 == |a| + 1 && arrows.Length1 == |b| + 1
    requires 1 <= i <= |a|
    requires forall k, l {:trigger F[k, l]} :: k == i - 1 && 0 <= l <= |b| ==> F[k, l] == Score(a, b, k, l)
    requires F[i, 0] == Score(a, b, i, 0)
    modifies F, arrows
    ensures forall l {:trigger F[i, l]} :: 0 <= l <= |b| ==> F[i, l] == Score(a, b, i, l)
    ensures forall l {:trigger arrows[i, l]} :: 1 <= l <= |b| ==> arrows[i, l] == Arrow(a, b, i, l)
    ensures forall k, l :: 0 <= k <= |a| && k != i && 0 <= l <= |b| ==> F[k, l] == old(F[k, l])
    ensures forall k, l :: 0 <= k <= |a| && k != i && 0 <= l <= |b| ==> arrows[k, l] == old(arrows[k, l])
  {
    var m := |b|;
    var j := 1;
    while j <= m
      invariant 1 <= j <= m + 1
      invariant forall l {:trigger F[i, l]} :: 0 <= l < j ==> F[i, l] == Score(a, b, i, l)
      invariant forall l {:trigger arrows[i, l]} :: 1 <= l < j ==> arrows[i, l] == Arrow(a, b, i, l)
      invariant forall k, l :: 0 <= k <= |a| && k != i && 0 <= l <= m ==> F[k, l] == old(F[k, l])
      invariant forall k, l :: 0 <= k <= |a| && k != i && 0 <= l <= m ==> arrows[k, l] == old(arrows[k, l])
      invariant forall k, l {:trigger F[k, l]} :: k == i - 1 && 0 <= l <= m ==> F[k, l] == Score(a, b, k, l)
    {
      var score, arrow := Cell(a, b, i, j, F[i - 1, j], F[i, j - 1], F[i - 1, j - 1]);
      F[i, j] := score;
      arrows[i, j] := arrow;
      j := j + 1;
    }
  }

  /** Fills the score and arrow tables: the first column and the first row
      from the gap costs, then every inner cell from its three neighbours. */
  method FillTables(a: string, b: string) returns (F: array2<int>, arrows: array2<int>)
    ensures F.Length0 == |a| + 1 && F.Length1 == |b| + 1
    ensures arrows.Length0 == |a| + 1 && arrows.Length1 == |b| + 1
    ensures forall i, j {:trigger F[i, j]} :: 0 <= i <= |a| && 0 <= j <= |b| ==> F[i, j] == Score(a, b, i, j)
    ensures forall i, j {:trigger arrows[i, j]} :: 1 <= i <= |a| && 1 <= j <= |b| ==> arrows[i, j] == Arrow(a, b, i, j)
  {
    var n, m := |a|, |b|;
    F := new int[n + 1, m + 1];
    arrows := new int[n + 1, m + 1];
    F[0, 0] := 0;
    arrows[0, 0] := 0;
    var i := 1;
    while i <= n
      invariant 1 <= i <= n + 1
      invariant forall k {:trigger F[k, 0]} :: 0 <= k < i ==> F[k, 0] == Score(a, b, k, 0)
    {
      F[i, 0] := F[i - 1, 0] + IndelScore;
      arrows[i, 0] := SkipSource;
      i := i + 1;
    }
    var j := 1;
    while j <= m
      invariant 1 <= j <= m + 1
      invariant forall k {:trigger F[k, 0]} :: 0 <= k <= n ==> F[k, 0] == Score(a, b, k, 0)
      invariant forall l {:trigger F[0, l]} :: 0 <= l < j ==> F[0, l] == Score(a, b, 0, l)
    {
      F[0, j] := F[0, j - 1] + SmallIndelScore;
      arrows[0, j] := SkipReference;
      j := j + 1;
    }
    i := 1;
    while i <= n
      invariant 1 <= i <= n + 1
      invariant forall k {:trigger F[k, 0]} :: i <= k <= n ==> F[k, 0] == Score(a, b, k, 0)
      invariant forall k, l {:trigger F[k, l]} :: 0 <= k < i && 0 <= l <= m ==> F[k, l] == Score(a, b, k, l)
      invariant forall k, l {:trigger arrows[k, l]} :: 1 <= k < i && 1 <= l <= m ==> arrows[k, l] == Arrow(a, b, k, l)
    {
      FillRow(a, b, F, arrows, i);
      i := i + 1;
    }
  }

  /** The backtracking loops over filled tables: from the bottom-right cell
      follow the arrows while both coordinates are positive, then drain the
      remaining source and reference positions. */
  method WalkTables(a: string, b: string, arrows: array2<int>) returns (w: Walk)
    requires arrows.Length0 == |a| + 1 && arrows.Length1 == |b| + 1
    requires forall i, j {:trigger arrows[i, j]} :: 1 <= i <= |a| && 1 <= j <= |b| ==> arrows[i, j] == Arrow(a, b, i, j)
    ensures w == FullWalk(a, b)
  {
    var n, m := |a|, |b|;
    w := Walk(map[], map[], 0);
    ghost var target := Backtrack(a, b, n, m, w);
    var i, j := n, m;
    // The source also stops when `arrows[i, j] == 0`, which only the corner
    // cell holds and the loop never visits.
    while i > 0 && j > 0
      invariant 0 <= i <= n && 0 <= j <= m
      invariant Backtrack(a, b, i, j, w) == target
      decreases i + j
    {
      i, j, w := WalkBack(a, b, i, j, w, arrows[i, j]);
    }
    while i > 0
      invariant 0 <= i <= n && 0 <= j <= m
      invariant i > 0 ==> j == 0
      invariant Backtrack(a, b, i, j, w) == target
    {
      w, i := SkipSourceWalk(i, w), i - 1;
    }
    while j > 0
      invariant i == 0 && 0 <= j <= m
      invariant Backtrack(a, b, i, j, w) == target
    {
      w, j := SkipReferenceWalk(j, w, 0), j - 1;
    }
    assert target == FullWalk(a, b);
  }

  /** One step of the main backtracking loop, by the arrow of cell `(i, j)`:
      the walk that remains is the same. */
  method WalkBack(a: string, b: string, i: nat, j: nat, w: Walk, arrow: int) returns (i': nat, j': nat, w': Walk)
    requires 1 <= i <= |a| && 1 <= j <= |b| && arrow == Arrow(a, b, i, j)
    ensures i' + j' < i + j && i' <= i && j' <= j
    ensures Backtrack(a, b, i', j', w') == Backtrack(a, b, i, j, w)
  {
    if arrow == SkipSource {
      i', j', w' := i - 1, j, SkipSourceWalk(i, w);
    } else if arrow == SkipReference {
      i', j', w' := i, j - 1, SkipReferenceWalk(j, w, RefSkipPenalty(b, j));
    } else {
      i', j', w' := i - 1, j - 1, DiagonalWalk(a, b, i, j, w);
    }
  }

  /** `needleman_wunsch_alignment`: fills the tables, walks back from the
      bottom-right cell, and divides the distance by the source length, which
      fails on an empty source. */
  method NeedlemanWunsch(a: string, b: string) returns (r: Result<Alignment>)
    ensures r.Ok? <==> |a| > 0
    ensures r.Ok? ==> r.value.srcToRef == FullWalk(a, b).srcToRef
    ensures r.Ok? ==> r.value.refToSrc == FullWalk(a, b).refToSrc
    ensures r.Ok? ==> r.value.distance == FullWalk(a, b).distance
    ensures r.Ok? ==> DefinedOn(r.value.srcToRef, 0, |a|) && DefinedOn(r.value.refToSrc, 0, |b|)
    ensures r.Ok? ==> Inverse(r.value.srcToRef, r.value.refToSrc)
    ensures r.Ok? ==> Increasing(r.value.srcToRef) && Increasing(r.value.refToSrc)
    ensures r.Ok? ==> r.value.distance <= |a| + PenalisedColumnsAbove(|b|, 0)
    ensures r.Ok? ==> r.value.similarity == 1.0 - (r.value.distance as real) / (|a| as real)
    ensures r.Ok? ==> r.value.similarity <= 1.0
  {
    var F, arrows := FillTables(a, b);
    var w := WalkTables(a, b, arrows);
    FullWalkProperties(a, b);
    if |a| == 0 {
      return Err("ZeroDivisionError: division by zero");
    }
    var similarity := 1.0 - (w.distance as real) / (|a| as real);
    r := Ok(Alignment(w.srcToRef, w.refToSrc, w.distance, similarity));
  }

  /** Aligning a text with itself: the identity maps in both directions,
      distance zero and similarity 1. */
  method AlignSelf(a: string) returns (r: Result<Alignment>)
    ensures r.Ok? <==> |a| > 0
    ensures r.Ok? ==> r.value.srcToRef == Identity(|a|) && r.value.refToSrc == Identity(|a|)
    ensures r.Ok? ==> r.value.distance == 0 && r.value.similarity == 1.0
  {
    SelfAlignment(a);
    r := NeedlemanWunsch(a, a);
  }
}
