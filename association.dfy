/** The detection-to-track association of the multi-object tracker, stated
    on values. A distance matrix has one row per detection and one column
    per track. `Double.MAX_VALUE` marks consumed entries, as it does in the
    source. */
module Association {
  import opened Geometry

  type Matrix = seq<seq<real>>

  predicate IsMatrix(M: Matrix, rows: nat, cols: nat) {
    |M| == rows && forall i :: 0 <= i < |M| ==> |M[i]| == cols
  }

  /** Every row has one entry per track age. */
  predicate Shaped(M: Matrix, ages: seq<real>) {
    forall i :: 0 <= i < |M| ==> |M[i]| == |ages|
  }

  /** Column `col` exists in every row. */
  predicate HasCol(M: Matrix, col: int) {
    0 <= col && forall i :: 0 <= i < |M| ==> col < |M[i]|
  }

  // ---------------------------------------------------------------------
  // Track side: the nearest detection of a track

  /** The first `n` rows scanned as `bestObjectForTrack` scans them: the
      row and value of the running minimum, starting from (-1, MAX_VALUE). */
  function RowScan(M: Matrix, col: int, n: nat): (res: (int, real))
    requires HasCol(M, col) && n <= |M|
    ensures -1 <= res.0 < n
  {
    if n == 0 then (-1, MaxValue)
    else
      var prev := RowScan(M, col, n - 1);
      if M[n - 1][col] < prev.1 then (n - 1, M[n - 1][col]) else prev
  }

  /** `bestObjectForTrack`. */
  function BestRow(M: Matrix, col: int): (r: int)
    requires HasCol(M, col)
    ensures -1 <= r < |M|
  {
    RowScan(M, col, |M|).0
  }

  /** `r` is the nearest of the first `n` detections to track `col` (the
      first one on ties), or -1 when none is below MAX_VALUE. */
  predicate IsNearestRow(M: Matrix, col: int, n: nat, r: int)
    requires HasCol(M, col) && n <= |M|
  {
    if r == -1 then forall i :: 0 <= i < n ==> M[i][col] >= MaxValue
    else
      && 0 <= r < n && M[r][col] < MaxValue
      && (forall i :: 0 <= i < r ==> M[i][col] > M[r][col])
      && (forall i :: r < i < n ==> M[i][col] >= M[r][col])
  }

  lemma {:induction false} RowScanIsNearest(M: Matrix, col: int, n: nat)
    requires HasCol(M, col) && n <= |M|
    ensures IsNearestRow(M, col, n, RowScan(M, col, n).0)
    ensures RowScan(M, col, n).1 == if RowScan(M, col, n).0 == -1 then MaxValue else M[RowScan(M, col, n).0][col]
  {
    if n > 0 {
      RowScanIsNearest(M, col, n - 1);
    }
  }

  /** The track-side choice is the nearest detection, lowest index first. */
  lemma BestRowIsNearest(M: Matrix, col: int)
    requires HasCol(M, col)
    ensures IsNearestRow(M, col, |M|, BestRow(M, col))
  {
    RowScanIsNearest(M, col, |M|);
  }

  /** The characterisation leaves no choice. */
  lemma NearestRowUnique(M: Matrix, col: int, r1: int, r2: int)
    requires HasCol(M, col)
    requires IsNearestRow(M, col, |M|, r1) && IsNearestRow(M, col, |M|, r2)
    ensures r1 == r2
  {
  }

  // ---------------------------------------------------------------------
  // Detection side: the preferred track of a detection

  /** The first `n` columns of row `row` scanned as `bestTrackForObject`
      scans them: only columns within `maxJump` compete, ranked by distance
      plus age. */
  function ColScan(M: Matrix, ages: seq<real>, row: int, maxJump: real, n: nat): (res: (int, real))
    requires 0 <= row < |M| && n <= |M[row]| <= |ages|
    ensures -1 <= res.0 < n
  {
    if n == 0 then (-1, MaxValue)
    else
      var prev := ColScan(M, ages, row, maxJump, n - 1);
      var d := M[row][n - 1] + ages[n - 1];
      if M[row][n - 1] < maxJump && d < prev.1 then (n - 1, d) else prev
  }

  /** `bestTrackForObject`. */
  function BestCol(M: Matrix, ages: seq<real>, row: int, maxJump: real): (c: int)
    requires 0 <= row < |M| && |M[row]| <= |ages|
    ensures -1 <= c < |M[row]|
  {
    ColScan(M, ages, row, maxJump, |M[row]|).0
  }

  /** `c` is, among the first `n` tracks strictly within `maxJump` of
      detection `row`, the one with the least distance plus age (the first
      one on ties), or -1 when none ranks below MAX_VALUE. */
  predicate IsPreferredCol(M: Matrix, ages: seq<real>, row: int, maxJump: real, n: nat, c: int)
    requires 0 <= row < |M| && n <= |M[row]| <= |ages|
  {
    if c == -1 then forall t :: 0 <= t < n && M[row][t] < maxJump ==> M[row][t] + ages[t] >= MaxValue
    else
      && 0 <= c < n && M[row][c] < maxJump && M[row][c] + ages[c] < MaxValue
      && (forall t :: 0 <= t < c && M[row][t] < maxJump ==> M[row][t] + ages[t] > M[row][c] + ages[c])
      && (forall t :: c < t < n && M[row][t] < maxJump ==> M[row][t] + ages[t] >= M[row][c] + ages[c])
  }

  lemma {:induction false} ColScanIsPreferred(M: Matrix, ages: seq<real>, row: int, maxJump: real, n: nat)
    requires 0 <= row < |M| && n <= |M[row]| <= |ages|
    ensures IsPreferredCol(M, ages, row, maxJump, n, ColScan(M, ages, row, maxJump, n).0)
    ensures var (c, v) := ColScan(M, ages, row, maxJump, n);
      v == if c == -1 then MaxValue else M[row][c] + ages[c]
  {
    if n > 0 {
      ColScanIsPreferred(M, ages, row, maxJump, n - 1);
    }
  }

  /** The detection-side choice is the track of least distance plus age
      among those strictly within `maxJump`, lowest index first. */
  lemma BestColIsPreferred(M: Matrix, ages: seq<real>, row: int, maxJump: real)
    requires 0 <= row < |M| && |M[row]| <= |ages|
    ensures IsPreferredCol(M, ages, row, maxJump, |M[row]|, BestCol(M, ages, row, maxJump))
  {
    ColScanIsPreferred(M, ages, row, maxJump, |M[row]|);
  }

  // ---------------------------------------------------------------------
  // One pass of simpleAssignments

  /** Track `t` and its nearest detection choose each other, within `maxJump`. */
  predicate Mutual(M: Matrix, ages: seq<real>, maxJump: real, t: int)
    requires Shaped(M, ages) && 0 <= t < |ages|
  {
    var o := BestRow(M, t);
    o >= 0 && BestCol(M, ages, o, maxJump) == t && M[o][t] < maxJump
  }

  /** Detection `o` and its preferred track choose each other, within `maxJump`. */
  predicate Committed(M: Matrix, ages: seq<real>, maxJump: real, o: int)
    requires Shaped(M, ages) && 0 <= o < |M|
  {
    var t := BestCol(M, ages, o, maxJump);
    t >= 0 && BestRow(M, t) == o && M[o][t] < maxJump
  }

  /** The two views of a committed pair agree. */
  lemma CommittedIsMutual(M: Matrix, ages: seq<real>, maxJump: real, o: int)
    requires Shaped(M, ages) && 0 <= o < |M|
    ensures Committed(M, ages, maxJump, o) <==>
      var t := BestCol(M, ages, o, maxJump); t >= 0 && Mutual(M, ages, maxJump, t) && BestRow(M, t) == o
  {
  }

  /** A committed pair is strictly within `maxJump`, the detection is the
      track's nearest and the track the detection's preferred one. */
  lemma MutualMeaning(M: Matrix, ages: seq<real>, maxJump: real, t: int)
    requires Shaped(M, ages) && 0 <= t < |ages| && Mutual(M, ages, maxJump, t)
    ensures var o := BestRow(M, t);
      && 0 <= o < |M| && M[o][t] < maxJump && M[o][t] < MaxValue
      && IsNearestRow(M, t, |M|, o)
      && IsPreferredCol(M, ages, o, maxJump, |ages|, t)
  {
    BestRowIsNearest(M, t);
    BestColIsPreferred(M, ages, BestRow(M, t), maxJump);
  }

  /** The number of mutual pairs among the first `n` tracks. */
  function CountMutual(M: Matrix, ages: seq<real>, maxJump: real, n: nat): nat
    requires Shaped(M, ages) && n <= |ages|
  {
    if n == 0 then 0
    else CountMutual(M, ages, maxJump, n - 1) + (if Mutual(M, ages, maxJump, n - 1) then 1 else 0)
  }

  /** A pass that commits nothing found no mutual pair. */
  lemma {:induction false} NoMutualLeft(M: Matrix, ages: seq<real>, maxJump: real, n: nat)
    requires Shaped(M, ages) && n <= |ages| && CountMutual(M, ages, maxJump, n) == 0
    ensures forall t :: 0 <= t < n ==> !Mutual(M, ages, maxJump, t)
  {
    if n > 0 {
      NoMutualLeft(M, ages, maxJump, n - 1);
    }
  }

  /** A pass that commits something found a mutual pair. */
  lemma {:induction false} SomeMutual(M: Matrix, ages: seq<real>, maxJump: real, n: nat) returns (t: int)
    requires Shaped(M, ages) && n <= |ages| && CountMutual(M, ages, maxJump, n) > 0
    ensures 0 <= t < n && Mutual(M, ages, maxJump, t)
  {
    if Mutual(M, ages, maxJump, n - 1) {
      t := n - 1;
    } else {
      t := SomeMutual(M, ages, maxJump, n - 1);
    }
  }

  // ---------------------------------------------------------------------
  // Duplicate suppression

  /** After the first pass, detection `o` is dropped as a duplicate when its
      preferred track's nearest detection is a different detection closer
      to it than `minGap` (`objectDistances` is `OD`). */
  predicate Discarded(M: Matrix, ages: seq<real>, OD: Matrix, maxJump: real, minGap: real, o: int)
    requires Shaped(M, ages) && IsMatrix(OD, |M|, |M|) && 0 <= o < |M|
  {
    var t := BestCol(M, ages, o, maxJump);
    t >= 0 &&
    var r := BestRow(M, t);
    r >= 0 && r != o && OD[o][r] < minGap
  }

  /** With a finite `maxJump`, a detection's preferred track always has a
      nearest detection, so the duplicate test never indexes with -1. */
  lemma PreferredTrackHasNearest(M: Matrix, ages: seq<real>, maxJump: real, o: int)
    requires Shaped(M, ages) && 0 <= o < |M| && maxJump <= MaxValue
    requires BestCol(M, ages, o, maxJump) >= 0
    ensures BestRow(M, BestCol(M, ages, o, maxJump)) >= 0
  {
    var t := BestCol(M, ages, o, maxJump);
    BestColIsPreferred(M, ages, o, maxJump);
    BestRowIsNearest(M, t);
    assert M[o][t] < MaxValue;
  }

  /** A detection committed in the first pass is never discarded. */
  lemma CommittedNotDiscarded(M: Matrix, ages: seq<real>, OD: Matrix, maxJump: real, minGap: real, o: int)
    requires Shaped(M, ages) && IsMatrix(OD, |M|, |M|) && 0 <= o < |M|
    requires Committed(M, ages, maxJump, o)
    ensures !Discarded(M, ages, OD, maxJump, minGap, o)
  {
  }

  // ---------------------------------------------------------------------
  // The state of the assignment loop

  /** The outcome of one pass over matrix `D`, from assignments `att`
      (track to detection) and `aot` (detection to track) to `att'`, `aot'`
      and matrix `D'`: each track in a mutual pair records its nearest
      detection, each detection in one records its preferred track, and the
      rows and columns of the new pairs hold MAX_VALUE. */
  predicate PassOutcome(D': Matrix, att': seq<int>, aot': seq<int>, D: Matrix, A: seq<real>,
                        att: seq<int>, aot: seq<int>, maxJump: real)
  {
    && IsMatrix(D, |aot|, |att|) && IsMatrix(D', |aot|, |att|) && |A| == |att| == |att'| && |aot'| == |aot|
    && (forall t :: 0 <= t < |att| ==>
          att'[t] == if Mutual(D, A, maxJump, t) then BestRow(D, t) else att[t])
    && (forall o :: 0 <= o < |aot| ==>
          aot'[o] == if Committed(D, A, maxJump, o) then BestCol(D, A, o, maxJump) else aot[o])
    && (forall o, t :: 0 <= o < |aot| && 0 <= t < |att| ==>
          D'[o][t] == if Committed(D, A, maxJump, o) || Mutual(D, A, maxJump, t) then MaxValue else D[o][t])
  }

  /** Track and detection assignments are each other's inverse, and every
      committed pair lies within `maxJump` in the original matrix `M0`. */
  predicate Links(att: seq<int>, aot: seq<int>, M0: Matrix, maxJump: real)
    requires IsMatrix(M0, |aot|, |att|)
  {
    && (forall t :: 0 <= t < |att| ==> -1 <= att[t] < |aot|)
    && (forall o :: 0 <= o < |aot| ==> -2 <= aot[o] < |att|)
    && (forall t :: 0 <= t < |att| && att[t] >= 0 ==> aot[att[t]] == t && M0[att[t]][t] < maxJump)
    && (forall o :: 0 <= o < |aot| && aot[o] >= 0 ==> att[aot[o]] == o)
  }

  /** A detection is marked -2 exactly when it is a duplicate, and the
      mutual pairs of `M0` keep their first-pass commits. */
  predicate Marks(att: seq<int>, aot: seq<int>, M0: Matrix, A: seq<real>, OD: Matrix, maxJump: real, minGap: real)
    requires IsMatrix(M0, |aot|, |att|) && IsMatrix(OD, |aot|, |aot|) && |A| == |att|
  {
    && (forall o :: 0 <= o < |aot| ==> (aot[o] == -2 <==> Discarded(M0, A, OD, maxJump, minGap, o)))
    && (forall t :: 0 <= t < |att| && Mutual(M0, A, maxJump, t) ==> att[t] == BestRow(M0, t))
  }

  /** The current matrix `D` is `M0` with every consumed row and column
      filled with MAX_VALUE. */
  predicate Filled(D: Matrix, att: seq<int>, aot: seq<int>, M0: Matrix)
    requires IsMatrix(M0, |aot|, |att|) && IsMatrix(D, |aot|, |att|)
  {
    forall o, t :: 0 <= o < |aot| && 0 <= t < |att| ==>
      D[o][t] == if aot[o] != -1 || att[t] != -1 then MaxValue else M0[o][t]
  }

  /** The invariant of the assignment loop over the original matrix `M0`. */
  predicate Consistent(D: Matrix, att: seq<int>, aot: seq<int>, M0: Matrix, A: seq<real>, OD: Matrix,
                       maxJump: real, minGap: real)
  {
    && IsMatrix(M0, |aot|, |att|) && IsMatrix(D, |aot|, |att|) && IsMatrix(OD, |aot|, |aot|) && |A| == |att|
    && Links(att, aot, M0, maxJump)
    && Marks(att, aot, M0, A, OD, maxJump, minGap)
    && Filled(D, att, aot, M0)
  }

  /** Under the invariant, a mutual pair of the current matrix joins a
      track and a detection that are both still unassigned, at their
      original distance; and so does a committed detection with its track. */
  lemma FreePairs(D: Matrix, att: seq<int>, aot: seq<int>, M0: Matrix, A: seq<real>, OD: Matrix,
                  maxJump: real, minGap: real)
    requires Consistent(D, att, aot, M0, A, OD, maxJump, minGap)
    ensures forall t :: 0 <= t < |att| && Mutual(D, A, maxJump, t) ==>
      att[t] == -1 && aot[BestRow(D, t)] == -1 && M0[BestRow(D, t)][t] < maxJump
    ensures forall o :: 0 <= o < |aot| && Committed(D, A, maxJump, o) ==>
      aot[o] == -1 && Mutual(D, A, maxJump, BestCol(D, A, o, maxJump)) && BestRow(D, BestCol(D, A, o, maxJump)) == o
  {
    forall t | 0 <= t < |att| && Mutual(D, A, maxJump, t)
      ensures att[t] == -1 && aot[BestRow(D, t)] == -1 && M0[BestRow(D, t)][t] < maxJump
    {
      MutualMeaning(D, A, maxJump, t);
    }
    forall o | 0 <= o < |aot| && Committed(D, A, maxJump, o)
      ensures aot[o] == -1 && Mutual(D, A, maxJump, BestCol(D, A, o, maxJump)) && BestRow(D, BestCol(D, A, o, maxJump)) == o
    {
      CommittedIsMutual(D, A, maxJump, o);
    }
  }

  lemma PassKeepsLinks(D: Matrix, att: seq<int>, aot: seq<int>, att': seq<int>, aot': seq<int>,
                       M0: Matrix, A: seq<real>, OD: Matrix, maxJump: real, minGap: real, D': Matrix)
    requires Consistent(D, att, aot, M0, A, OD, maxJump, minGap)
    requires PassOutcome(D', att', aot', D, A, att, aot, maxJump)
    ensures Links(att', aot', M0, maxJump)
  {
    FreePairs(D, att, aot, M0, A, OD, maxJump, minGap);
    forall t | 0 <= t < |att| && att'[t] >= 0
      ensures aot'[att'[t]] == t && M0[att'[t]][t] < maxJump
    {
      if Mutual(D, A, maxJump, t) {
        MutualMeaning(D, A, maxJump, t);
      }
    }
  }

  lemma PassKeepsMarks(D: Matrix, att: seq<int>, aot: seq<int>, att': seq<int>, aot': seq<int>,
                       M0: Matrix, A: seq<real>, OD: Matrix, maxJump: real, minGap: real, D': Matrix)
    requires Consistent(D, att, aot, M0, A, OD, maxJump, minGap)
    requires PassOutcome(D', att', aot', D, A, att, aot, maxJump)
    ensures Marks(att', aot', M0, A, OD, maxJump, minGap)
  {
    FreePairs(D, att, aot, M0, A, OD, maxJump, minGap);
  }

  lemma PassKeepsFilled(D: Matrix, att: seq<int>, aot: seq<int>, att': seq<int>, aot': seq<int>,
                        M0: Matrix, A: seq<real>, OD: Matrix, maxJump: real, minGap: real, D': Matrix)
    requires Consistent(D, att, aot, M0, A, OD, maxJump, minGap)
    requires PassOutcome(D', att', aot', D, A, att, aot, maxJump)
    ensures Filled(D', att', aot', M0)
  {
    FreePairs(D, att, aot, M0, A, OD, maxJump, minGap);
  }

  /** A pass that commits something assigns a track that was unassigned
      and unassigns none. */
  lemma PassProgress(D: Matrix, att: seq<int>, aot: seq<int>, D': Matrix, att': seq<int>, aot': seq<int>,
                     M0: Matrix, A: seq<real>, OD: Matrix, maxJump: real, minGap: real)
    requires Consistent(D, att, aot, M0, A, OD, maxJump, minGap)
    requires PassOutcome(D', att', aot', D, A, att, aot, maxJump)
    requires CountMutual(D, A, maxJump, |att|) > 0
    ensures Unassigned(att') < Unassigned(att)
  {
    FreePairs(D, att, aot, M0, A, OD, maxJump, minGap);
    var t := SomeMutual(D, A, maxJump, |att|);
    MutualMeaning(D, A, maxJump, t);
    UnassignedDecreases(att, att', t);
  }

  /** A pass that commits nothing changes nothing. */
  lemma PassIdle(D: Matrix, att: seq<int>, aot: seq<int>, D': Matrix, att': seq<int>, aot': seq<int>,
                 A: seq<real>, maxJump: real)
    requires PassOutcome(D', att', aot', D, A, att, aot, maxJump)
    requires CountMutual(D, A, maxJump, |att|) == 0
    ensures D' == D && att' == att && aot' == aot
    ensures forall t :: 0 <= t < |att| ==> !Mutual(D, A, maxJump, t)
  {
    NoMutualLeft(D, A, maxJump, |att|);
    forall o | 0 <= o < |aot|
      ensures !Committed(D, A, maxJump, o)
    {
      if Committed(D, A, maxJump, o) {
        CommittedIsMutual(D, A, maxJump, o);
      }
    }
    assert att' == att;
    assert aot' == aot;
    forall o | 0 <= o < |aot|
      ensures D'[o] == D[o]
    {
      assert |D'[o]| == |D[o]|;
      forall t | 0 <= t < |att|
        ensures D'[o][t] == D[o][t]
      {
        assert !Committed(D, A, maxJump, o) && !Mutual(D, A, maxJump, t);
      }
    }
  }

  /** A pass keeps the invariant; a pass that commits something lowers the
      number of unassigned tracks, and one that commits nothing changes
      nothing and leaves no mutual pair. */
  lemma PassKeepsConsistent(D: Matrix, att: seq<int>, aot: seq<int>, D': Matrix, att': seq<int>, aot': seq<int>,
                            M0: Matrix, A: seq<real>, OD: Matrix, maxJump: real, minGap: real, count: nat)
    requires Consistent(D, att, aot, M0, A, OD, maxJump, minGap)
    requires PassOutcome(D', att', aot', D, A, att, aot, maxJump)
    requires count == CountMutual(D, A, maxJump, |att|)
    ensures Consistent(D', att', aot', M0, A, OD, maxJump, minGap)
    ensures count > 0 ==> Unassigned(att') < Unassigned(att)
    ensures count == 0 ==> D' == D && att' == att && aot' == aot
    ensures count == 0 ==> forall t :: 0 <= t < |att| ==> !Mutual(D, A, maxJump, t)
  {
    PassKeepsLinks(D, att, aot, att', aot', M0, A, OD, maxJump, minGap, D');
    PassKeepsMarks(D, att, aot, att', aot', M0, A, OD, maxJump, minGap, D');
    PassKeepsFilled(D, att, aot, att', aot', M0, A, OD, maxJump, minGap, D');
    if count > 0 {
      PassProgress(D, att, aot, D', att', aot', M0, A, OD, maxJump, minGap);
    } else {
      PassIdle(D, att, aot, D', att', aot', A, maxJump);
    }
  }

  /** The state after the first pass from nothing assigned, followed by
      duplicate suppression (which marks each discarded detection -2 and
      fills its row), satisfies the invariant. */
  lemma FirstPassConsistent(M0: Matrix, A: seq<real>, OD: Matrix, maxJump: real, minGap: real,
                            att0: seq<int>, aot0: seq<int>, D1: Matrix, att1: seq<int>, aot1: seq<int>,
                            D2: Matrix, aot2: seq<int>)
    requires IsMatrix(OD, |aot0|, |aot0|)
    requires (forall t :: 0 <= t < |att0| ==> att0[t] == -1) && (forall o :: 0 <= o < |aot0| ==> aot0[o] == -1)
    requires PassOutcome(D1, att1, aot1, M0, A, att0, aot0, maxJump)
    requires IsMatrix(D2, |aot0|, |att0|) && |aot2| == |aot0|
    requires forall o :: 0 <= o < |aot2| ==>
      aot2[o] == if Discarded(M0, A, OD, maxJump, minGap, o) then -2 else aot1[o]
    requires forall o, t :: 0 <= o < |aot2| && 0 <= t < |att0| ==>
      D2[o][t] == if Discarded(M0, A, OD, maxJump, minGap, o) then MaxValue else D1[o][t]
    ensures Consistent(D2, att1, aot2, M0, A, OD, maxJump, minGap)
  {
    forall t | 0 <= t < |att1| && Mutual(M0, A, maxJump, t)
      ensures Committed(M0, A, maxJump, BestRow(M0, t)) && BestCol(M0, A, BestRow(M0, t), maxJump) == t
    {
      MutualMeaning(M0, A, maxJump, t);
      CommittedIsMutual(M0, A, maxJump, BestRow(M0, t));
    }
    forall o | 0 <= o < |aot1| && Committed(M0, A, maxJump, o)
      ensures Mutual(M0, A, maxJump, BestCol(M0, A, o, maxJump)) && !Discarded(M0, A, OD, maxJump, minGap, o)
    {
      CommittedIsMutual(M0, A, maxJump, o);
    }
    assert Links(att1, aot2, M0, maxJump);
    assert Marks(att1, aot2, M0, A, OD, maxJump, minGap);
  }

  // ---------------------------------------------------------------------
  // The assignment as a function of the original matrix

  /** The state of the assignment loop: the consumed matrix, the track
      actions and the detection actions. */
  datatype State = State(D: Matrix, att: seq<int>, aot: seq<int>)

  /** One pass of `simpleAssignments` from state `s`. */
  function Pass(s: State, A: seq<real>, maxJump: real): State
    requires IsMatrix(s.D, |s.aot|, |s.att|) && |A| == |s.att|
  {
    State(
      seq(|s.aot|, o requires 0 <= o < |s.aot| =>
        seq(|s.att|, t requires 0 <= t < |s.att| =>
          if Committed(s.D, A, maxJump, o) || Mutual(s.D, A, maxJump, t) then MaxValue else s.D[o][t])),
      seq(|s.att|, t requires 0 <= t < |s.att| =>
        if Mutual(s.D, A, maxJump, t) then BestRow(s.D, t) else s.att[t]),
      seq(|s.aot|, o requires 0 <= o < |s.aot| =>
        if Committed(s.D, A, maxJump, o) then BestCol(s.D, A, o, maxJump) else s.aot[o]))
  }

  /** The outcome of a pass leaves no choice: a state is an outcome of a
      pass from `(D, att, aot)` exactly when it is `Pass` of that state. */
  lemma PassDetermined(D': Matrix, att': seq<int>, aot': seq<int>, D: Matrix, A: seq<real>,
                       att: seq<int>, aot: seq<int>, maxJump: real)
    requires IsMatrix(D, |aot|, |att|) && |A| == |att|
    requires IsMatrix(D', |aot|, |att|) && |att'| == |att| && |aot'| == |aot|
    ensures PassOutcome(D', att', aot', D, A, att, aot, maxJump) <==>
      State(D', att', aot') == Pass(State(D, att, aot), A, maxJump)
  {
    var p := Pass(State(D, att, aot), A, maxJump);
    if PassOutcome(D', att', aot', D, A, att, aot, maxJump) {
      assert att' == p.att;
      assert aot' == p.aot;
      forall o | 0 <= o < |aot|
        ensures D'[o] == p.D[o]
      {
        assert |D'[o]| == |p.D[o]|;
        forall t | 0 <= t < |att|
          ensures D'[o][t] == p.D[o][t]
        {
          var c, m := Committed(D, A, maxJump, o), Mutual(D, A, maxJump, t);
          assert p.D[o][t] == if c || m then MaxValue else D[o][t];
          assert D'[o][t] == if c || m then MaxValue else D[o][t];
        }
      }
      assert D' == p.D;
    }
  }

  /** Duplicate suppression after the first pass: each detection discarded
      on `M0` is marked -2 and its row filled with MAX_VALUE. */
  function Suppress(s: State, M0: Matrix, A: seq<real>, OD: Matrix, maxJump: real, minGap: real): State
    requires IsMatrix(s.D, |s.aot|, |s.att|) && |M0| == |s.aot| && Shaped(M0, A)
    requires IsMatrix(OD, |M0|, |M0|)
  {
    State(
      seq(|s.aot|, o requires 0 <= o < |s.aot| =>
        if Discarded(M0, A, OD, maxJump, minGap, o) then seq(|s.att|, _ => MaxValue) else s.D[o]),
      s.att,
      seq(|s.aot|, o requires 0 <= o < |s.aot| =>
        if Discarded(M0, A, OD, maxJump, minGap, o) then -2 else s.aot[o]))
  }

  /** A state whose rows and marks are those of duplicate suppression is
      `Suppress` of the state before it. */
  lemma SuppressDetermined(s: State, M0: Matrix, A: seq<real>, OD: Matrix, maxJump: real, minGap: real,
                           D2: Matrix, aot2: seq<int>)
    requires IsMatrix(s.D, |s.aot|, |s.att|) && |M0| == |s.aot| && Shaped(M0, A)
    requires IsMatrix(OD, |M0|, |M0|)
    requires IsMatrix(D2, |s.aot|, |s.att|) && |aot2| == |s.aot|
    requires forall o :: 0 <= o < |aot2| ==>
      aot2[o] == if Discarded(M0, A, OD, maxJump, minGap, o) then -2 else s.aot[o]
    requires forall o, t :: 0 <= o < |aot2| && 0 <= t < |s.att| ==>
      D2[o][t] == if Discarded(M0, A, OD, maxJump, minGap, o) then MaxValue else s.D[o][t]
    ensures State(D2, s.att, aot2) == Suppress(s, M0, A, OD, maxJump, minGap)
  {
    var r := Suppress(s, M0, A, OD, maxJump, minGap);
    assert aot2 == r.aot;
    forall o | 0 <= o < |aot2|
      ensures D2[o] == r.D[o]
    {
      assert |D2[o]| == |r.D[o]|;
    }
    assert D2 == r.D;
  }

  /** Nothing assigned: every track and every detection -1. */
  function Unstarted(M0: Matrix, A: seq<real>): (s: State)
    ensures |s.att| == |A| && |s.aot| == |M0|
    ensures (forall t :: 0 <= t < |s.att| ==> s.att[t] == -1) && (forall o :: 0 <= o < |s.aot| ==> s.aot[o] == -1)
  {
    State(M0, seq(|A|, _ => -1), seq(|M0|, _ => -1))
  }

  /** The state after the first pass from nothing assigned and duplicate
      suppression; it satisfies the invariant. */
  function Start(M0: Matrix, A: seq<real>, OD: Matrix, maxJump: real, minGap: real): (r: State)
    requires IsMatrix(M0, |M0|, |A|) && IsMatrix(OD, |M0|, |M0|)
    ensures Consistent(r.D, r.att, r.aot, M0, A, OD, maxJump, minGap)
  {
    var s0 := Unstarted(M0, A);
    var s1 := Pass(s0, A, maxJump);
    var s2 := Suppress(s1, M0, A, OD, maxJump, minGap);
    FirstPassConsistent(M0, A, OD, maxJump, minGap, s0.att, s0.aot, s1.D, s1.att, s1.aot, s2.D, s2.aot);
    s2
  }

  /** A state reached as in `FirstPassConsistent` (a pass from nothing
      assigned, then duplicate suppression) is `Start`. */
  lemma FirstPassIsStart(M0: Matrix, A: seq<real>, OD: Matrix, maxJump: real, minGap: real,
                         att0: seq<int>, aot0: seq<int>, D1: Matrix, att1: seq<int>, aot1: seq<int>,
                         D2: Matrix, aot2: seq<int>)
    requires IsMatrix(M0, |aot0|, |att0|) && IsMatrix(OD, |aot0|, |aot0|) && |A| == |att0|
    requires (forall t :: 0 <= t < |att0| ==> att0[t] == -1) && (forall o :: 0 <= o < |aot0| ==> aot0[o] == -1)
    requires PassOutcome(D1, att1, aot1, M0, A, att0, aot0, maxJump)
    requires IsMatrix(D2, |aot0|, |att0|) && |aot2| == |aot0|
    requires forall o :: 0 <= o < |aot2| ==>
      aot2[o] == if Discarded(M0, A, OD, maxJump, minGap, o) then -2 else aot1[o]
    requires forall o, t :: 0 <= o < |aot2| && 0 <= t < |att0| ==>
      D2[o][t] == if Discarded(M0, A, OD, maxJump, minGap, o) then MaxValue else D1[o][t]
    ensures State(D2, att1, aot2) == Start(M0, A, OD, maxJump, minGap)
  {
    assert State(M0, att0, aot0) == Unstarted(M0, A);
    PassDetermined(D1, att1, aot1, M0, A, att0, aot0, maxJump);
    SuppressDetermined(State(D1, att1, aot1), M0, A, OD, maxJump, minGap, D2, aot2);
  }

  /** Passes repeated from a consistent state until one commits nothing. The
      invariant holds at the end, no mutual pair is left, and every
      assignment the state already held is kept. */
  function Passes(s: State, M0: Matrix, A: seq<real>, OD: Matrix, maxJump: real, minGap: real): (r: State)
    requires Consistent(s.D, s.att, s.aot, M0, A, OD, maxJump, minGap)
    ensures Consistent(r.D, r.att, r.aot, M0, A, OD, maxJump, minGap)
    ensures |r.att| == |s.att| && |r.aot| == |s.aot|
    ensures forall t :: 0 <= t < |r.att| ==> !Mutual(r.D, A, maxJump, t)
    ensures forall t :: 0 <= t < |s.att| && s.att[t] != -1 ==> r.att[t] == s.att[t]
    ensures forall o :: 0 <= o < |s.aot| && s.aot[o] != -1 ==> r.aot[o] == s.aot[o]
    decreases Unassigned(s.att)
  {
    if CountMutual(s.D, A, maxJump, |s.att|) == 0 then
      NoMutualLeft(s.D, A, maxJump, |s.att|);
      s
    else
      PassStep(s, M0, A, OD, maxJump, minGap);
      Passes(Pass(s, A, maxJump), M0, A, OD, maxJump, minGap)
  }

  /** A pass that commits something, from a consistent state, keeps the
      invariant and every assignment already made, and lowers the number of
      unassigned tracks. */
  lemma PassStep(s: State, M0: Matrix, A: seq<real>, OD: Matrix, maxJump: real, minGap: real)
    requires Consistent(s.D, s.att, s.aot, M0, A, OD, maxJump, minGap)
    requires CountMutual(s.D, A, maxJump, |s.att|) > 0
    ensures var p := Pass(s, A, maxJump);
      && Consistent(p.D, p.att, p.aot, M0, A, OD, maxJump, minGap)
      && Unassigned(p.att) < Unassigned(s.att)
      && (forall t :: 0 <= t < |s.att| && s.att[t] != -1 ==> p.att[t] == s.att[t])
      && (forall o :: 0 <= o < |s.aot| && s.aot[o] != -1 ==> p.aot[o] == s.aot[o])
  {
    var p := Pass(s, A, maxJump);
    PassDetermined(p.D, p.att, p.aot, s.D, A, s.att, s.aot, maxJump);
    PassKeepsConsistent(s.D, s.att, s.aot, p.D, p.att, p.aot, M0, A, OD, maxJump, minGap,
                        CountMutual(s.D, A, maxJump, |s.att|));
    PassKeepsAssignments(s.D, s.att, s.aot, p.D, p.att, p.aot, M0, A, OD, maxJump, minGap);
  }

  /** A pass from a consistent state only assigns tracks and detections
      that were unassigned. */
  lemma PassKeepsAssignments(D: Matrix, att: seq<int>, aot: seq<int>, D': Matrix, att': seq<int>, aot': seq<int>,
                             M0: Matrix, A: seq<real>, OD: Matrix, maxJump: real, minGap: real)
    requires Consistent(D, att, aot, M0, A, OD, maxJump, minGap)
    requires PassOutcome(D', att', aot', D, A, att, aot, maxJump)
    ensures forall t :: 0 <= t < |att| && att[t] != -1 ==> att'[t] == att[t]
    ensures forall o :: 0 <= o < |aot| && aot[o] != -1 ==> aot'[o] == aot[o]
  {
    FreePairs(D, att, aot, M0, A, OD, maxJump, minGap);
  }

  /** The whole of `assignTracksAndObjects` on values: the first pass and
      duplicate suppression, then passes until one commits nothing. */
  function Assign(M0: Matrix, A: seq<real>, OD: Matrix, maxJump: real, minGap: real): (r: State)
    requires IsMatrix(M0, |M0|, |A|) && IsMatrix(OD, |M0|, |M0|)
    ensures Consistent(r.D, r.att, r.aot, M0, A, OD, maxJump, minGap)
    ensures forall t :: 0 <= t < |r.att| ==> !Mutual(r.D, A, maxJump, t)
  {
    Passes(Start(M0, A, OD, maxJump, minGap), M0, A, OD, maxJump, minGap)
  }

  /** The assignment is a matching: no detection serves two tracks and no
      track takes two detections. */
  lemma AssignmentInjective(att: seq<int>, aot: seq<int>, M0: Matrix, maxJump: real)
    requires IsMatrix(M0, |aot|, |att|) && Links(att, aot, M0, maxJump)
    ensures forall t1, t2 :: 0 <= t1 < t2 < |att| && att[t1] >= 0 ==> att[t1] != att[t2]
    ensures forall o1, o2 :: 0 <= o1 < o2 < |aot| && aot[o1] >= 0 ==> aot[o1] != aot[o2]
  {
  }

  /** With no existing track, no detection is a duplicate, so every
      detection starts a new track. */
  lemma NoTracksAllNew(att: seq<int>, aot: seq<int>, M0: Matrix, A: seq<real>, OD: Matrix,
                       maxJump: real, minGap: real)
    requires |att| == 0 && IsMatrix(M0, |aot|, 0) && IsMatrix(OD, |aot|, |aot|) && |A| == 0
    requires Links(att, aot, M0, maxJump) && Marks(att, aot, M0, A, OD, maxJump, minGap)
    ensures forall o :: 0 <= o < |aot| ==> aot[o] == -1
  {
    forall o | 0 <= o < |aot|
      ensures aot[o] == -1
    {
      assert BestCol(M0, A, o, maxJump) == -1;
    }
  }

  // ---------------------------------------------------------------------
  // Termination measure

  /** The number of entries equal to -1 (unassigned tracks). */
  function Unassigned(s: seq<int>): nat {
    if |s| == 0 then 0 else Unassigned(s[..|s| - 1]) + (if s[|s| - 1] == -1 then 1 else 0)
  }

  /** Assigning an unassigned entry, and keeping every assigned one,
      lowers the count. */
  lemma {:induction false} UnassignedDecreases(s: seq<int>, s': seq<int>, k: int)
    requires |s| == |s'| && 0 <= k < |s| && s[k] == -1 && s'[k] != -1
    requires forall i :: 0 <= i < |s| && s[i] != -1 ==> s'[i] != -1
    ensures Unassigned(s') < Unassigned(s)
  {
    UnassignedMonotone(s[..|s| - 1], s'[..|s| - 1]);
    if k < |s| - 1 {
      UnassignedDecreases(s[..|s| - 1], s'[..|s| - 1], k);
    }
  }

  lemma {:induction false} UnassignedMonotone(s: seq<int>, s': seq<int>)
    requires |s| == |s'|
    requires forall i :: 0 <= i < |s| && s[i] != -1 ==> s'[i] != -1
    ensures Unassigned(s') <= Unassigned(s)
  {
    if |s| > 0 {
      UnassignedMonotone(s[..|s| - 1], s'[..|s| - 1]);
    }
  }
}
