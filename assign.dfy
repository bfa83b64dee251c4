/** The array logic of the multi-object tracker: the scans, the in-place
    fills of consumed rows and columns, one pass of mutual-best commits, and
    the full assignment with duplicate suppression. Every method is proved
    against the value-level definitions of `Association`. */
module Assignment {
  import opened Geometry
  import opened Association

  const TrUnassigned := -1
  const TrStopped := TrUnassigned
  const ObjUnassigned := -1
  const ObjNoTrack := -2
  const ObjNewTrack := ObjUnassigned

  /** The current contents of a matrix. */
  ghost function Snap(D: array2<real>): (M: Matrix)
    reads D
    ensures IsMatrix(M, D.Length0, D.Length1)
    ensures forall i, j :: 0 <= i < D.Length0 && 0 <= j < D.Length1 ==> M[i][j] == D[i, j]
  {
    seq(D.Length0, i reads D =>
      seq(D.Length1, j reads D => if 0 <= i < D.Length0 && 0 <= j < D.Length1 then D[i, j] else 0.0))
  }

  /** `bestObjectForTrack`: a read-only scan of column `col`. */
  method BestObjectForTrack(D: array2<real>, col: int) returns (minRow: int)
    requires 0 <= col < D.Length1
    ensures minRow == BestRow(Snap(D), col)
  {
    ghost var M := Snap(D);
    minRow := -1;
    var minValue := MaxValue;
    for row := 0 to D.Length0
      invariant (minRow, minValue) == RowScan(M, col, row)
    {
      var d := D[row, col];
      if d < minValue {
        minValue := d;
        minRow := row;
      }
    }
  }

  /** `bestTrackForObject`: a read-only scan of row `row`. */
  method BestTrackForObject(D: array2<real>, ages: array<real>, row: int, maxJump: real) returns (minCol: int)
    requires 0 <= row < D.Length0 && ages.Length == D.Length1
    ensures minCol == BestCol(Snap(D), ages[..], row, maxJump)
  {
    ghost var M := Snap(D);
    minCol := -1;
    var minValue := MaxValue;
    for ti := 0 to D.Length1
      invariant (minCol, minValue) == ColScan(M, ages[..], row, maxJump, ti)
    {
      var d := D[row, ti] + ages[ti];
      if D[row, ti] < maxJump && d < minValue {
        minValue := d;
        minCol := ti;
      }
    }
  }

  /** `fillRow`. */
  method FillRow(D: array2<real>, row: int, value: real)
    requires 0 <= row < D.Length0
    modifies D
    ensures forall i, j :: 0 <= i < D.Length0 && 0 <= j < D.Length1 ==>
      D[i, j] == if i == row then value else old(D[i, j])
  {
    for col := 0 to D.Length1
      invariant forall i, j :: 0 <= i < D.Length0 && 0 <= j < D.Length1 ==>
        D[i, j] == if i == row && j < col then value else old(D[i, j])
    {
      D[row, col] := value;
    }
  }

  /** `fillCol`. */
  method FillCol(D: array2<real>, col: int, value: real)
    requires 0 <= col < D.Length1
    modifies D
    ensures forall i, j :: 0 <= i < D.Length0 && 0 <= j < D.Length1 ==>
      D[i, j] == if j == col then value else old(D[i, j])
  {
    for row := 0 to D.Length0
      invariant forall i, j :: 0 <= i < D.Length0 && 0 <= j < D.Length1 ==>
        D[i, j] == if j == col && i < row then value else old(D[i, j])
    {
      D[row, col] := value;
    }
  }

  /** `simpleAssignments`: one pass. Every track and detection gets its best
      partner on the matrix as it stood at the start of the pass; each mutual
      pair within `maxJump` is committed and its row and column are filled
      with MAX_VALUE; the result is the number of commits. */
  method SimpleAssignments(D: array2<real>, ages: array<real>, maxJump: real,
                           att: array<int>, aot: array<int>, bestT: array<int>, bestO: array<int>)
    returns (count: int)
    requires ages.Length == att.Length == bestT.Length == D.Length1
    requires aot.Length == bestO.Length == D.Length0
    requires att != aot && att != bestT && att != bestO && aot != bestT && aot != bestO && bestT != bestO
    modifies D, att, aot, bestT, bestO
    ensures forall t :: 0 <= t < bestT.Length ==> bestT[t] == BestRow(old(Snap(D)), t)
    ensures forall o :: 0 <= o < bestO.Length ==> bestO[o] == BestCol(old(Snap(D)), ages[..], o, maxJump)
    ensures PassOutcome(Snap(D), att[..], aot[..], old(Snap(D)), ages[..], old(att[..]), old(aot[..]), maxJump)
    ensures count == CountMutual(old(Snap(D)), ages[..], maxJump, D.Length1)
  {
    ghost var M := Snap(D);
    ChooseBest(D, ages, maxJump, bestT, bestO);
    PairsAreMutual(M, ages[..], bestT[..], bestO[..], maxJump, bestT.Length);
    ghost var att0, aot0 := att[..], aot[..];
    count := CommitMutualPairs(D, maxJump, att, aot, bestT, bestO);
    CommittedIsPassOutcome(D, att, aot, M, ages[..], bestT[..], bestO[..], att0, aot0, maxJump);
  }

  /** The first two loops of `simpleAssignments`. */
  method ChooseBest(D: array2<real>, ages: array<real>, maxJump: real, bestT: array<int>, bestO: array<int>)
    requires ages.Length == bestT.Length == D.Length1 && bestO.Length == D.Length0 && bestT != bestO
    modifies bestT, bestO
    ensures forall t :: 0 <= t < bestT.Length ==> bestT[t] == BestRow(Snap(D), t)
    ensures forall o :: 0 <= o < bestO.Length ==> bestO[o] == BestCol(Snap(D), ages[..], o, maxJump)
  {
    for i := 0 to bestT.Length
      modifies bestT
      invariant forall t :: 0 <= t < i ==> bestT[t] == BestRow(Snap(D), t)
    {
      bestT[i] := BestObjectForTrack(D, i);
    }
    for i := 0 to bestO.Length
      modifies bestO
      invariant forall t :: 0 <= t < bestT.Length ==> bestT[t] == BestRow(Snap(D), t)
      invariant forall o :: 0 <= o < i ==> bestO[o] == BestCol(Snap(D), ages[..], o, maxJump)
    {
      bestO[i] := BestTrackForObject(D, ages, i, maxJump);
    }
  }

  /** The commit loop's outcome, read with the pass's best arrays, is the
      outcome stated in terms of mutual pairs. */
  lemma CommittedIsPassOutcome(D: array2<real>, att: array<int>, aot: array<int>, M: Matrix, A: seq<real>,
                            BT: seq<int>, BO: seq<int>, att0: seq<int>, aot0: seq<int>, maxJump: real)
    requires |A| == |BT|
    requires CommittedUpTo(D, att, aot, M, BT, BO, att0, aot0, maxJump, |BT|)
    requires forall t :: 0 <= t < |BT| ==> BT[t] == BestRow(M, t)
    requires forall o :: 0 <= o < |BO| ==> BO[o] == BestCol(M, A, o, maxJump)
    ensures PassOutcome(Snap(D), att[..], aot[..], M, A, att0, aot0, maxJump)
  {
    PairsAreMutual(M, A, BT, BO, maxJump, |BT|);
    forall o | 0 <= o < |BO| && DetectionPairs(M, BT, BO, maxJump, o)
      ensures BO[o] < |BT|
    {
    }
  }

  /** Track `t` is committed by a pass whose best arrays are `BT` and `BO`. */
  predicate TrackPairs(M: Matrix, BT: seq<int>, BO: seq<int>, maxJump: real, t: int)
    requires IsMatrix(M, |BO|, |BT|) && 0 <= t < |BT|
  {
    0 <= BT[t] < |BO| && BO[BT[t]] == t && M[BT[t]][t] < maxJump
  }

  /** Detection `o` is committed by a pass whose best arrays are `BT` and `BO`. */
  predicate DetectionPairs(M: Matrix, BT: seq<int>, BO: seq<int>, maxJump: real, o: int)
    requires IsMatrix(M, |BO|, |BT|) && 0 <= o < |BO|
  {
    0 <= BO[o] < |BT| && BT[BO[o]] == o && M[o][BO[o]] < maxJump
  }

  function CountPairs(M: Matrix, BT: seq<int>, BO: seq<int>, maxJump: real, n: nat): nat
    requires IsMatrix(M, |BO|, |BT|) && n <= |BT|
  {
    if n == 0 then 0
    else CountPairs(M, BT, BO, maxJump, n - 1) + (if TrackPairs(M, BT, BO, maxJump, n - 1) then 1 else 0)
  }

  /** With the best arrays of the pass, the pairs read off them are the
      mutual pairs of the matrix. */
  lemma {:induction false} PairsAreMutual(M: Matrix, A: seq<real>, BT: seq<int>, BO: seq<int>, maxJump: real, n: nat)
    requires IsMatrix(M, |BO|, |BT|) && |A| == |BT| && n <= |BT|
    requires forall t :: 0 <= t < |BT| ==> BT[t] == BestRow(M, t)
    requires forall o :: 0 <= o < |BO| ==> BO[o] == BestCol(M, A, o, maxJump)
    ensures forall t :: 0 <= t < |BT| ==> TrackPairs(M, BT, BO, maxJump, t) == Mutual(M, A, maxJump, t)
    ensures forall o :: 0 <= o < |BO| ==> DetectionPairs(M, BT, BO, maxJump, o) == Committed(M, A, maxJump, o)
    ensures CountPairs(M, BT, BO, maxJump, n) == CountMutual(M, A, maxJump, n)
  {
    if n > 0 {
      PairsAreMutual(M, A, BT, BO, maxJump, n - 1);
    }
  }

  /** The commit loop of `simpleAssignments`, given the best arrays. */
  method CommitMutualPairs(D: array2<real>, maxJump: real,
                           att: array<int>, aot: array<int>, bestT: array<int>, bestO: array<int>)
    returns (count: int)
    requires att.Length == bestT.Length == D.Length1
    requires aot.Length == bestO.Length == D.Length0
    requires att != aot && att != bestT && att != bestO && aot != bestT && aot != bestO
    requires forall t :: 0 <= t < bestT.Length ==> -1 <= bestT[t] < D.Length0
    requires forall o :: 0 <= o < bestO.Length ==> -1 <= bestO[o] < D.Length1
    modifies D, att, aot
    ensures CommittedUpTo(D, att, aot, old(Snap(D)), bestT[..], bestO[..], old(att[..]), old(aot[..]), maxJump, D.Length1)
    ensures count == CountPairs(old(Snap(D)), bestT[..], bestO[..], maxJump, D.Length1)
  {
    ghost var M := Snap(D);
    ghost var BT, BO := bestT[..], bestO[..];
    ghost var att0, aot0 := att[..], aot[..];
    count := 0;
    for tr := 0 to bestT.Length
      invariant CommittedUpTo(D, att, aot, M, BT, BO, att0, aot0, maxJump, tr)
      invariant count == CountPairs(M, BT, BO, maxJump, tr)
    {
      count := CommitStep(D, maxJump, att, aot, bestT, bestO, tr, count, M, att0, aot0);
    }
  }

  /** The state after the commit loop has handled the tracks before `tr`:
      the pairs read off the best arrays are recorded in both directions,
      and their rows and columns are filled with MAX_VALUE. */
  ghost predicate CommittedUpTo(D: array2<real>, att: array<int>, aot: array<int>, M: Matrix, BT: seq<int>, BO: seq<int>,
                                att0: seq<int>, aot0: seq<int>, maxJump: real, tr: int)
    reads D, att, aot
  {
    && IsMatrix(M, |BO|, |BT|) && D.Length0 == |BO| == |aot0| == aot.Length && D.Length1 == |BT| == |att0| == att.Length
    && (forall t :: 0 <= t < att.Length ==>
          att[t] == if t < tr && TrackPairs(M, BT, BO, maxJump, t) then BT[t] else att0[t])
    && (forall o :: 0 <= o < aot.Length ==>
          aot[o] == if DetectionPairs(M, BT, BO, maxJump, o) && BO[o] < tr then BO[o] else aot0[o])
    && FilledUpTo(D, M, BT, BO, maxJump, tr)
  }

  /** One iteration of the commit loop: track `tr` and its nearest
      detection are committed when they choose each other within `maxJump`. */
  method CommitStep(D: array2<real>, maxJump: real, att: array<int>, aot: array<int>, bestT: array<int>, bestO: array<int>,
                    tr: int, count: int, ghost M: Matrix, ghost att0: seq<int>, ghost aot0: seq<int>)
    returns (count': int)
    requires 0 <= tr < bestT.Length && bestO.Length == D.Length0
    requires att != aot && att != bestT && att != bestO && aot != bestT && aot != bestO
    requires forall t :: 0 <= t < bestT.Length ==> -1 <= bestT[t] < D.Length0
    requires forall o :: 0 <= o < bestO.Length ==> -1 <= bestO[o] < D.Length1
    requires CommittedUpTo(D, att, aot, M, bestT[..], bestO[..], att0, aot0, maxJump, tr)
    requires count == CountPairs(M, bestT[..], bestO[..], maxJump, tr)
    modifies D, att, aot
    ensures CommittedUpTo(D, att, aot, M, bestT[..], bestO[..], att0, aot0, maxJump, tr + 1)
    ensures count' == CountPairs(M, bestT[..], bestO[..], maxJump, tr + 1)
  {
    ghost var BT, BO := bestT[..], bestO[..];
    var obj := bestT[tr];
    if obj >= 0 && bestO[obj] == tr {
      assert D[obj, tr] == M[obj][tr];
    }
    if obj >= 0 && bestO[obj] == tr && D[obj, tr] < maxJump {
      assert TrackPairs(M, BT, BO, maxJump, tr) && DetectionPairs(M, BT, BO, maxJump, obj);
      CommitPair(D, att, aot, obj, tr, M, BT, BO, maxJump);
      count' := count + 1;
      forall o | 0 <= o < |BO| && DetectionPairs(M, BT, BO, maxJump, o) && BO[o] == tr
        ensures o == obj
      {
      }
    } else {
      assert !TrackPairs(M, BT, BO, maxJump, tr);
      FilledSkip(D, M, BT, BO, maxJump, tr);
      count' := count;
    }
  }

  /** The matrix after the commits of the tracks before `tr`: committed
      rows and columns hold MAX_VALUE, the rest is untouched. */
  ghost predicate FilledUpTo(D: array2<real>, M: Matrix, BT: seq<int>, BO: seq<int>, maxJump: real, tr: int)
    reads D
    requires IsMatrix(M, |BO|, |BT|) && D.Length0 == |BO| && D.Length1 == |BT|
  {
    forall o, t :: 0 <= o < D.Length0 && 0 <= t < D.Length1 ==>
      D[o, t] == if (DetectionPairs(M, BT, BO, maxJump, o) && BO[o] < tr) || (t < tr && TrackPairs(M, BT, BO, maxJump, t))
                 then MaxValue else M[o][t]
  }

  /** A track that commits nothing leaves the matrix as it was. */
  lemma FilledSkip(D: array2<real>, M: Matrix, BT: seq<int>, BO: seq<int>, maxJump: real, tr: int)
    requires IsMatrix(M, |BO|, |BT|) && D.Length0 == |BO| && D.Length1 == |BT| && 0 <= tr < |BT|
    requires FilledUpTo(D, M, BT, BO, maxJump, tr) && !TrackPairs(M, BT, BO, maxJump, tr)
    ensures FilledUpTo(D, M, BT, BO, maxJump, tr + 1)
  {
    forall o | 0 <= o < |BO| && DetectionPairs(M, BT, BO, maxJump, o)
      ensures BO[o] != tr
    {
    }
  }

  /** Records the pair (obj, tr) and fills its row and column. */
  method CommitPair(D: array2<real>, att: array<int>, aot: array<int>, obj: int, tr: int,
                    ghost M: Matrix, ghost BT: seq<int>, ghost BO: seq<int>, maxJump: real)
    requires 0 <= obj < D.Length0 == aot.Length && 0 <= tr < D.Length1 == att.Length && att != aot
    requires IsMatrix(M, |BO|, |BT|) && D.Length0 == |BO| && D.Length1 == |BT|
    requires FilledUpTo(D, M, BT, BO, maxJump, tr)
    requires BT[tr] == obj && BO[obj] == tr && TrackPairs(M, BT, BO, maxJump, tr)
    modifies D, att, aot
    ensures att[..] == old(att[..])[tr := obj] && aot[..] == old(aot[..])[obj := tr]
    ensures FilledUpTo(D, M, BT, BO, maxJump, tr + 1)
  {
    att[tr] := obj;
    aot[obj] := tr;
    FillRow(D, obj, MaxValue);
    FillCol(D, tr, MaxValue);
    forall o | 0 <= o < |BO| && DetectionPairs(M, BT, BO, maxJump, o) && BO[o] == tr
      ensures o == obj
    {
    }
  }

  /** The duplicate-suppression loop of `assignTracksAndObjects`: with the
      best arrays of the first pass over `M`, every detection whose
      preferred track's nearest detection is another one closer than
      `minGap` is marked OBJ_NO_TRACK and its row is filled with MAX_VALUE. */
  method SuppressDuplicates(D: array2<real>, OD: array2<real>, aot: array<int>, bestT: array<int>, bestO: array<int>,
                            minGap: real, ghost M: Matrix, ghost A: seq<real>, maxJump: real)
    requires D != OD && aot != bestT && aot != bestO
    requires IsMatrix(M, D.Length0, D.Length1) && |A| == D.Length1 && maxJump <= MaxValue
    requires OD.Length0 == OD.Length1 == D.Length0 == aot.Length == bestO.Length && bestT.Length == D.Length1
    requires forall t :: 0 <= t < bestT.Length ==> bestT[t] == BestRow(M, t)
    requires forall o :: 0 <= o < bestO.Length ==> bestO[o] == BestCol(M, A, o, maxJump)
    modifies D, aot
    ensures forall o :: 0 <= o < aot.Length ==>
      aot[o] == if Discarded(M, A, Snap(OD), maxJump, minGap, o) then ObjNoTrack else old(aot[o])
    ensures forall o, t :: 0 <= o < D.Length0 && 0 <= t < D.Length1 ==>
      D[o, t] == if Discarded(M, A, Snap(OD), maxJump, minGap, o) then MaxValue else old(D[o, t])
  {
    ghost var ODv := Snap(OD);
    for obj := 0 to bestO.Length
      invariant forall o :: 0 <= o < aot.Length ==>
        aot[o] == if o < obj && Discarded(M, A, ODv, maxJump, minGap, o) then ObjNoTrack else old(aot[o])
      invariant forall o, t :: 0 <= o < D.Length0 && 0 <= t < D.Length1 ==>
        D[o, t] == if o < obj && Discarded(M, A, ODv, maxJump, minGap, o) then MaxValue else old(D[o, t])
    {
      SuppressOne(D, OD, aot, bestT, bestO, minGap, M, A, maxJump, obj);
    }
  }

  /** One detection of the duplicate-suppression loop. */
  method SuppressOne(D: array2<real>, OD: array2<real>, aot: array<int>, bestT: array<int>, bestO: array<int>,
                     minGap: real, ghost M: Matrix, ghost A: seq<real>, maxJump: real, obj: int)
    requires D != OD && aot != bestT && aot != bestO
    requires IsMatrix(M, D.Length0, D.Length1) && |A| == D.Length1 && maxJump <= MaxValue
    requires OD.Length0 == OD.Length1 == D.Length0 == aot.Length == bestO.Length && bestT.Length == D.Length1
    requires forall t :: 0 <= t < bestT.Length ==> bestT[t] == BestRow(M, t)
    requires forall o :: 0 <= o < bestO.Length ==> bestO[o] == BestCol(M, A, o, maxJump)
    requires 0 <= obj < aot.Length
    modifies D, aot
    ensures aot[..] == old(aot[..])[obj := if Discarded(M, A, Snap(OD), maxJump, minGap, obj) then ObjNoTrack else old(aot[obj])]
    ensures forall o, t :: 0 <= o < D.Length0 && 0 <= t < D.Length1 ==>
      D[o, t] == if o == obj && Discarded(M, A, Snap(OD), maxJump, minGap, obj) then MaxValue else old(D[o, t])
  {
    if bestO[obj] >= 0 {
      PreferredTrackHasNearest(M, A, maxJump, obj);
      var bestObj := bestT[bestO[obj]];
      if bestObj != obj {
        var objDist := OD[obj, bestObj];
        if objDist < minGap {
          aot[obj] := ObjNoTrack;
          FillRow(D, obj, MaxValue);
        }
      }
    }
  }

  /** `assignTracksAndObjects`. `D` holds the distances from detections
      (rows) to track predictions (columns) and is consumed; `OD` holds the
      distances between detections. The result maps each track to its
      detection or TR_STOPPED, and lists in ascending order the detections
      that need a new track; `objectActions` is the detection-to-track
      array the method builds on the way. On return the assignments are
      consistent with the original matrix, no mutual pair is left in the
      consumed matrix, and a detection is listed exactly when it is neither
      assigned nor discarded as a duplicate. */
  method AssignTracksAndObjects(D: array2<real>, OD: array2<real>, ages: array<real>, maxJump: real, minGap: real)
    returns (trackActions: array<int>, newObjects: array<int>, ghost objectActions: seq<int>)
    requires D.Length0 > 0
    requires D != OD && OD.Length0 == OD.Length1 == D.Length0 && ages.Length == D.Length1
    requires maxJump <= MaxValue
    modifies D
    ensures fresh(trackActions) && fresh(newObjects)
    ensures trackActions.Length == D.Length1 && |objectActions| == D.Length0
    ensures Consistent(Snap(D), trackActions[..], objectActions, old(Snap(D)), ages[..], Snap(OD), maxJump, minGap)
    ensures forall t :: 0 <= t < D.Length1 ==> !Mutual(Snap(D), ages[..], maxJump, t)
    ensures var r := Assign(old(Snap(D)), ages[..], Snap(OD), maxJump, minGap);
      Snap(D) == r.D && trackActions[..] == r.att && objectActions == r.aot
    ensures forall o :: 0 <= o < D.Length0 ==> (o in newObjects[..] <==> objectActions[o] == ObjNewTrack)
    ensures forall i, j :: 0 <= i < j < newObjects.Length ==> newObjects[i] < newObjects[j]
    ensures forall i :: 0 <= i < newObjects.Length ==> 0 <= newObjects[i] < D.Length0
  {
    var aot;
    trackActions, aot := RunPasses(D, OD, ages, maxJump, minGap);
    objectActions := aot[..];
    newObjects := NewTrackObjects(aot);
  }

  /** The assignment passes on fresh, unassigned action arrays: the first
      pass, then passes until one commits nothing. */
  method RunPasses(D: array2<real>, OD: array2<real>, ages: array<real>, maxJump: real, minGap: real)
    returns (att: array<int>, aot: array<int>)
    requires D != OD && OD.Length0 == OD.Length1 == D.Length0 && ages.Length == D.Length1
    requires maxJump <= MaxValue
    modifies D
    ensures fresh(att) && fresh(aot) && att.Length == D.Length1 && aot.Length == D.Length0
    ensures Consistent(Snap(D), att[..], aot[..], old(Snap(D)), ages[..], Snap(OD), maxJump, minGap)
    ensures forall t :: 0 <= t < D.Length1 ==> !Mutual(Snap(D), ages[..], maxJump, t)
    ensures State(Snap(D), att[..], aot[..]) == Assign(old(Snap(D)), ages[..], Snap(OD), maxJump, minGap)
  {
    ghost var M0, ODv := Snap(D), Snap(OD);
    att := new int[D.Length1](_ => TrUnassigned);
    aot := new int[D.Length0](_ => ObjUnassigned);
    var bestT := new int[D.Length1];
    var bestO := new int[D.Length0];
    FirstPass(D, OD, ages, maxJump, minGap, att, aot, bestT, bestO);
    RepeatPasses(D, ages, maxJump, att, aot, bestT, bestO, M0, ODv, minGap);
  }

  /** The first pass of `assignTracksAndObjects` from nothing assigned,
      followed by duplicate suppression, establishes the invariant over the
      original matrix. */
  method FirstPass(D: array2<real>, OD: array2<real>, ages: array<real>, maxJump: real, minGap: real,
                   att: array<int>, aot: array<int>, bestT: array<int>, bestO: array<int>)
    requires D != OD && OD.Length0 == OD.Length1 == D.Length0 && maxJump <= MaxValue
    requires ages.Length == att.Length == bestT.Length == D.Length1
    requires aot.Length == bestO.Length == D.Length0
    requires att != aot && att != bestT && att != bestO && aot != bestT && aot != bestO && bestT != bestO
    requires forall t :: 0 <= t < att.Length ==> att[t] == TrUnassigned
    requires forall o :: 0 <= o < aot.Length ==> aot[o] == ObjUnassigned
    modifies D, att, aot, bestT, bestO
    ensures Consistent(Snap(D), att[..], aot[..], old(Snap(D)), ages[..], Snap(OD), maxJump, minGap)
    ensures State(Snap(D), att[..], aot[..]) == Start(old(Snap(D)), ages[..], Snap(OD), maxJump, minGap)
  {
    ghost var M0, A, ODv := Snap(D), ages[..], Snap(OD);
    ghost var att0, aot0 := att[..], aot[..];
    var _ := SimpleAssignments(D, ages, maxJump, att, aot, bestT, bestO);
    ghost var D1, aot1 := Snap(D), aot[..];
    SuppressDuplicates(D, OD, aot, bestT, bestO, minGap, M0, A, maxJump);
    FirstPassConsistent(M0, A, ODv, maxJump, minGap, att0, aot0, D1, att[..], aot1, Snap(D), aot[..]);
    FirstPassIsStart(M0, A, ODv, maxJump, minGap, att0, aot0, D1, att[..], aot1, Snap(D), aot[..]);
  }

  /** The loop `while (simpleAssignments(...) > 0) {}`: passes repeat until
      one commits nothing; the invariant holds throughout, and at the end the
      consumed matrix has no mutual pair left. */
  method RepeatPasses(D: array2<real>, ages: array<real>, maxJump: real,
                      att: array<int>, aot: array<int>, bestT: array<int>, bestO: array<int>,
                      ghost M0: Matrix, ghost OD: Matrix, minGap: real)
    requires ages.Length == att.Length == bestT.Length == D.Length1
    requires aot.Length == bestO.Length == D.Length0
    requires att != aot && att != bestT && att != bestO && aot != bestT && aot != bestO && bestT != bestO
    requires Consistent(Snap(D), att[..], aot[..], M0, ages[..], OD, maxJump, minGap)
    modifies D, att, aot, bestT, bestO
    ensures Consistent(Snap(D), att[..], aot[..], M0, ages[..], OD, maxJump, minGap)
    ensures forall t :: 0 <= t < D.Length1 ==> !Mutual(Snap(D), ages[..], maxJump, t)
    ensures State(Snap(D), att[..], aot[..]) ==
      Passes(State(old(Snap(D)), old(att[..]), old(aot[..])), M0, ages[..], OD, maxJump, minGap)
  {
    ghost var s0 := State(Snap(D), att[..], aot[..]);
    while true
      invariant Consistent(Snap(D), att[..], aot[..], M0, ages[..], OD, maxJump, minGap)
      invariant Passes(State(Snap(D), att[..], aot[..]), M0, ages[..], OD, maxJump, minGap) ==
        Passes(s0, M0, ages[..], OD, maxJump, minGap)
      decreases Unassigned(att[..])
    {
      ghost var Dp, attp, aotp := Snap(D), att[..], aot[..];
      var count := SimpleAssignments(D, ages, maxJump, att, aot, bestT, bestO);
      PassKeepsConsistent(Dp, attp, aotp, Snap(D), att[..], aot[..], M0, ages[..], OD, maxJump, minGap, count);
      PassDetermined(Snap(D), att[..], aot[..], Dp, ages[..], attp, aotp, maxJump);
      if count == 0 {
        return;
      }
    }
  }

  /** The indices of the detections marked OBJ_NEW_TRACK, in ascending order. */
  method NewTrackObjects(aot: array<int>) returns (newObjects: array<int>)
    ensures fresh(newObjects)
    ensures forall o :: 0 <= o < aot.Length ==> (o in newObjects[..] <==> aot[o] == ObjNewTrack)
    ensures forall i, j :: 0 <= i < j < newObjects.Length ==> newObjects[i] < newObjects[j]
    ensures forall i :: 0 <= i < newObjects.Length ==> 0 <= newObjects[i] < aot.Length
  {
    var newObjs: seq<int> := [];
    for i := 0 to aot.Length
      invariant forall k :: 0 <= k < |newObjs| ==> 0 <= newObjs[k] < i
      invariant forall k, l :: 0 <= k < l < |newObjs| ==> newObjs[k] < newObjs[l]
      invariant forall o :: 0 <= o < i ==> (o in newObjs <==> aot[o] == ObjNewTrack)
    {
      if aot[i] == ObjNewTrack {
        newObjs := newObjs + [i];
      }
    }
    newObjects := new int[|newObjs|];
    for i := 0 to newObjects.Length
      invariant newObjects[..i] == newObjs[..i]
    {
      newObjects[i] := newObjs[i];
    }
    assert newObjects[..] == newObjs;
  }
}
