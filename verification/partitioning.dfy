/** Model of rBCM/partitioning.py: the two ways the training-set indices
    0..n-1 are split into the index groups that the experts are fitted on.

    random_partitioning calls np.random.shuffle and birch_cluster_partitioning
    calls sklearn's Birch clusterer; both results are inputs here: the
    shuffled index sequence, and the label the clusterer assigns to each
    sample. */
module Partitioning {

  /* ---------------------------------------------------------------------- */
  /* Shared vocabulary                                                       */
  /* ---------------------------------------------------------------------- */

  /** The exceptions Python raises on a zero points_per_expert: `range` with
      a zero step, and a division by zero. */
  datatype Raised = ZeroRangeStep | ZeroDivision

  /** A value, or the exception raised instead of producing it. */
  datatype Outcome<T> = Ok(value: T) | Fail(error: Raised)

  /** Concatenation of index groups, in order. */
  function Flatten(groups: seq<seq<int>>): seq<int>
  {
    if |groups| == 0 then [] else groups[0] + Flatten(groups[1..])
  }

  predicate StrictlyIncreasing(s: seq<int>)
  {
    forall i, j :: 0 <= i < j < |s| ==> s[i] < s[j]
  }

  predicate NoDuplicates(s: seq<int>)
  {
    forall i, j :: 0 <= i < j < |s| ==> s[i] != s[j]
  }

  /** `s` is a rearrangement of 0..|s|-1: every entry is a valid index,
      no entry repeats, and every index occurs. */
  predicate IsShuffle(s: seq<int>)
  {
    && (forall i :: 0 <= i < |s| ==> 0 <= s[i] < |s|)
    && NoDuplicates(s)
    && (forall v :: 0 <= v < |s| ==> v in s)
  }

  /** Index v occurs in one of the groups. */
  predicate InSomeGroup(groups: seq<seq<int>>, v: int)
  {
    exists g :: 0 <= g < |groups| && v in groups[g]
  }

  /** The groups split 0..n-1: they hold only indices below n, every such
      index is in some group, no index is in two groups, and no group holds
      an index twice. */
  predicate IsPartition(groups: seq<seq<int>>, n: int)
  {
    && (forall g, v :: 0 <= g < |groups| && v in groups[g] ==> 0 <= v < n)
    && (forall v :: 0 <= v < n ==> InSomeGroup(groups, v))
    && (forall g1, g2, v :: (0 <= g1 < |groups| && 0 <= g2 < |groups| &&
          v in groups[g1] && v in groups[g2]) ==> g1 == g2)
    && (forall g :: 0 <= g < |groups| ==> NoDuplicates(groups[g]))
  }

  /** Ceiling of n / k for k > 0. */
  function CeilDiv(n: nat, k: int): nat
    requires k > 0
  {
    (n + k - 1) / k
  }

  lemma MulSucc(a: int, k: int)
    ensures (a + 1) * k == a * k + k
  {
  }

  lemma {:induction false} MulMonotone(a: int, b: int, k: int)
    requires a <= b && k >= 0
    ensures a * k <= b * k
    decreases b - a
  {
    if a < b {
      MulMonotone(a + 1, b, k);
      MulSucc(a, k);
    }
  }

  lemma MulCancelLess(a: int, b: int, k: int)
    requires k > 0
    requires a * k < b * k
    ensures a < b
  {
    if a >= b {
      MulMonotone(b, a, k);
    }
  }

  /** The ceiling is the only m with (m - 1) * k < n <= m * k. */
  lemma CeilDivCharacterization(n: nat, k: int, m: nat)
    requires k > 0
    requires (m - 1) * k < n <= m * k
    ensures m == CeilDiv(n, k)
  {
    var q := (n + k - 1) / k;
    var r := (n + k - 1) % k;
    assert n + k - 1 == q * k + r && 0 <= r < k;
    MulSucc(m - 1, k);
    MulSucc(q, k);
    MulCancelLess(m, q + 1, k);
    MulSucc(m, k);
    MulCancelLess(q, m + 1, k);
  }

  /* ---------------------------------------------------------------------- */
  /* random_partitioning                                                     */
  /* ---------------------------------------------------------------------- */

  /** Reference definition of the chunking: consecutive slices of length k,
      the last one holding whatever is left (between 1 and k elements). */
  function Chunks(s: seq<int>, k: int): seq<seq<int>>
    requires k > 0
    decreases |s|
  {
    if |s| == 0 then []
    else if k >= |s| then [s]
    else [s[..k]] + Chunks(s[k..], k)
  }

  /** Concatenating the chunks gives back the chunked sequence. */
  lemma {:induction false} ChunksFlatten(s: seq<int>, k: int)
    requires k > 0
    ensures Flatten(Chunks(s, k)) == s
    decreases |s|
  {
    if |s| == 0 {
    } else if k >= |s| {
      assert Flatten([s]) == s + Flatten([]);
    } else {
      var rest := Chunks(s[k..], k);
      ChunksFlatten(s[k..], k);
      assert ([s[..k]] + rest)[1..] == rest;
      assert s[..k] + s[k..] == s;
    }
  }

  /** Every chunk but the last holds exactly k elements, the last between 1
      and k, and their number m satisfies (m - 1) * k < |s| <= m * k. */
  lemma {:induction false} ChunksSizes(s: seq<int>, k: int)
    requires k > 0
    ensures |Chunks(s, k)| == 0 <==> |s| == 0
    ensures forall g :: 0 <= g < |Chunks(s, k)| - 1 ==> |Chunks(s, k)[g]| == k
    ensures |Chunks(s, k)| > 0 ==> 1 <= |Chunks(s, k)[|Chunks(s, k)| - 1]| <= k
    ensures (|Chunks(s, k)| - 1) * k < |s| <= |Chunks(s, k)| * k
    decreases |s|
  {
    if |s| == 0 {
    } else if k >= |s| {
    } else {
      var rest := Chunks(s[k..], k);
      ChunksSizes(s[k..], k);
      var gs := [s[..k]] + rest;
      assert Chunks(s, k) == gs;
      assert forall g :: 1 <= g < |gs| ==> gs[g] == rest[g - 1];
      MulSucc(|rest| - 1, k);
      MulSucc(|rest|, k);
    }
  }

  /** Element i of chunk g is element g * k + i of the chunked sequence. */
  lemma {:induction false} ChunkElement(s: seq<int>, k: int, g: nat, i: nat)
    requires k > 0
    requires g < |Chunks(s, k)| && i < |Chunks(s, k)[g]|
    ensures i < k
    ensures g * k + i < |s| && Chunks(s, k)[g][i] == s[g * k + i]
    decreases |s|
  {
    if k < |s| && g > 0 {
      var rest := Chunks(s[k..], k);
      assert Chunks(s, k) == [s[..k]] + rest;
      assert Chunks(s, k)[g] == rest[g - 1];
      ChunkElement(s[k..], k, g - 1, i);
      MulSucc(g - 1, k);
    }
  }

  lemma {:induction false} InFlatten(groups: seq<seq<int>>, v: int)
    requires v in Flatten(groups)
    ensures InSomeGroup(groups, v)
    decreases |groups|
  {
    if v !in groups[0] {
      InFlatten(groups[1..], v);
      var g :| 0 <= g < |groups[1..]| && v in groups[1..][g];
      assert v in groups[g + 1];
    }
  }

  lemma SameOffsetSameChunk(g1: int, i1: int, g2: int, i2: int, k: int)
    requires k > 0 && 0 <= g1 && 0 <= g2
    requires 0 <= i1 < k && 0 <= i2 < k
    requires g1 * k + i1 == g2 * k + i2
    ensures g1 == g2 && i1 == i2
  {
    if g1 < g2 {
      MulMonotone(g1 + 1, g2, k);
      MulSucc(g1, k);
    } else if g2 < g1 {
      MulMonotone(g2 + 1, g1, k);
      MulSucc(g2, k);
    }
  }

  /** Chunks of a permutation of 0..n-1 cover every index 0..n-1 ... */
  lemma ChunksCoverShuffle(s: seq<int>, k: int)
    requires k > 0
    requires IsShuffle(s)
    ensures forall v :: 0 <= v < |s| ==> InSomeGroup(Chunks(s, k), v)
    ensures forall g, v :: 0 <= g < |Chunks(s, k)| && v in Chunks(s, k)[g] ==> 0 <= v < |s|
  {
    var gs := Chunks(s, k);
    ChunksFlatten(s, k);
    forall v | 0 <= v < |s|
      ensures InSomeGroup(gs, v)
    {
      InFlatten(gs, v);
    }
    forall g, v | 0 <= g < |gs| && v in gs[g]
      ensures 0 <= v < |s|
    {
      var i :| 0 <= i < |gs[g]| && gs[g][i] == v;
      ChunkElement(s, k, g, i);
    }
  }

  /** Two positions of the chunks that hold the same value of a sequence
      without duplicates are the same position. */
  lemma ChunkPositionsUnique(s: seq<int>, k: int, g1: nat, i1: nat, g2: nat, i2: nat)
    requires k > 0
    requires NoDuplicates(s)
    requires g1 < |Chunks(s, k)| && i1 < |Chunks(s, k)[g1]|
    requires g2 < |Chunks(s, k)| && i2 < |Chunks(s, k)[g2]|
    ensures Chunks(s, k)[g1][i1] == Chunks(s, k)[g2][i2] ==> g1 == g2 && i1 == i2
  {
    ChunkElement(s, k, g1, i1);
    ChunkElement(s, k, g2, i2);
    if Chunks(s, k)[g1][i1] == Chunks(s, k)[g2][i2] {
      assert g1 * k + i1 == g2 * k + i2;
      SameOffsetSameChunk(g1, i1, g2, i2, k);
    }
  }

  /** ... no index lies in two chunks ... */
  lemma ChunksDisjointOnShuffle(s: seq<int>, k: int)
    requires k > 0
    requires NoDuplicates(s)
    ensures forall g1, g2, v :: (0 <= g1 < |Chunks(s, k)| && 0 <= g2 < |Chunks(s, k)| &&
      v in Chunks(s, k)[g1] && v in Chunks(s, k)[g2]) ==> g1 == g2
  {
    var gs := Chunks(s, k);
    forall g1, g2, v | 0 <= g1 < |gs| && 0 <= g2 < |gs| && v in gs[g1] && v in gs[g2]
      ensures g1 == g2
    {
      var i1 :| 0 <= i1 < |gs[g1]| && gs[g1][i1] == v;
      var i2 :| 0 <= i2 < |gs[g2]| && gs[g2][i2] == v;
      ChunkPositionsUnique(s, k, g1, i1, g2, i2);
    }
  }

  /** ... and none twice in one. */
  lemma ChunksWithoutDuplicates(s: seq<int>, k: int)
    requires k > 0
    requires NoDuplicates(s)
    ensures forall g :: 0 <= g < |Chunks(s, k)| ==> NoDuplicates(Chunks(s, k)[g])
  {
    var gs := Chunks(s, k);
    forall g | 0 <= g < |gs|
      ensures NoDuplicates(gs[g])
    {
      forall i, j | 0 <= i < j < |gs[g]|
        ensures gs[g][i] != gs[g][j]
      {
        ChunkPositionsUnique(s, k, g, i, g, j);
      }
    }
  }

  /** The chunks of a shuffle of 0..n-1 partition 0..n-1. */
  lemma ChunksPartitionShuffle(s: seq<int>, k: int)
    requires k > 0
    requires IsShuffle(s)
    ensures IsPartition(Chunks(s, k), |s|)
  {
    ChunksCoverShuffle(s, k);
    ChunksDisjointOnShuffle(s, k);
    ChunksWithoutDuplicates(s, k);
  }

  /** What is left of s from position i on; nothing once i is past the end. */
  function Rest(s: seq<int>, i: nat): seq<int>
  {
    if i <= |s| then s[i..] else []
  }

  /** One pass of the loop of RandomPartitioning: appending the next slice
      to the chunks taken so far keeps them, followed by the chunks of what
      is left, equal to all the chunks. */
  lemma ChunkStep(s: seq<int>, k: int, i: nat, done: seq<seq<int>>, piece: seq<int>)
    requires k > 0 && i < |s|
    requires piece == s[i..if i + k < |s| then i + k else |s|]
    requires done + Chunks(Rest(s, i), k) == Chunks(s, k)
    ensures (done + [piece]) + Chunks(Rest(s, i + k), k) == Chunks(s, k)
  {
    ChunksOfSuffix(s, k, i);
    if i + k >= |s| {
      assert Chunks(Rest(s, i + k), k) == [] by {
        assert |Rest(s, i + k)| == 0;
      }
      assert piece == s[i..];
    }
    AppendAssociates(done, [piece], Chunks(Rest(s, i + k), k));
  }

  lemma AppendAssociates(a: seq<seq<int>>, b: seq<seq<int>>, c: seq<seq<int>>)
    ensures (a + b) + c == a + (b + c)
  {
  }

  /** The first chunk of a suffix, and what follows it. */
  lemma ChunksOfSuffix(s: seq<int>, k: int, i: int)
    requires k > 0 && 0 <= i < |s|
    ensures i + k < |s| ==> Chunks(s[i..], k) == [s[i..i + k]] + Chunks(s[i + k..], k)
    ensures i + k >= |s| ==> Chunks(s[i..], k) == [s[i..]]
  {
    var tail := s[i..];
    if i + k < |s| {
      assert tail[..k] == s[i..i + k];
      assert tail[k..] == s[i + k..];
    }
  }

  /** random_partitioning after the shuffle: the shuffled indices cut into
      consecutive groups of points_per_expert, the last group holding what
      is left. Together they give back the shuffle; for a shuffle of 0..n-1
      they partition 0..n-1. A negative points_per_expert makes the range
      empty, so no group is formed; a zero one makes `range` raise. */
  method RandomPartitioning(shuffled: seq<int>, pointsPerExpert: int) returns (r: Outcome<seq<seq<int>>>)
    ensures r.Fail? <==> pointsPerExpert == 0
    ensures r.Fail? ==> r.error == ZeroRangeStep
    ensures pointsPerExpert < 0 ==> r == Ok([])
    ensures pointsPerExpert > 0 ==> r.Ok? && r.value == Chunks(shuffled, pointsPerExpert)
    ensures pointsPerExpert > 0 ==> Flatten(r.value) == shuffled
    ensures pointsPerExpert > 0 ==> |r.value| == CeilDiv(|shuffled|, pointsPerExpert)
    ensures pointsPerExpert > 0 ==> forall g :: 0 <= g < |r.value| - 1 ==> |r.value[g]| == pointsPerExpert
    ensures pointsPerExpert > 0 && |r.value| > 0 ==> 1 <= |r.value[|r.value| - 1]| <= pointsPerExpert
    ensures pointsPerExpert > 0 && IsShuffle(shuffled) ==> IsPartition(r.value, |shuffled|)
  {
    if pointsPerExpert == 0 {
      r := Fail(ZeroRangeStep);
    } else if pointsPerExpert < 0 {
      r := Ok([]);
    } else {
      var sampleSets := RangeSlices(shuffled, pointsPerExpert);
      ChunkingFacts(shuffled, pointsPerExpert);
      r := Ok(sampleSets);
    }
  }

  /** The loop of random_partitioning: it walks `range(0, n, points_per_expert)`
      and, on the last pass only, shortens the slice to the n - i elements
      that are left. The range is fixed before the loop, so the short tail is
      a group of its own; it is not merged into the group before it. */
  method RangeSlices(shuffled: seq<int>, pointsPerExpert: int) returns (sampleSets: seq<seq<int>>)
    requires pointsPerExpert > 0
    ensures sampleSets == Chunks(shuffled, pointsPerExpert)
  {
    var numSamples := |shuffled|;
    var step := pointsPerExpert;   // the stride of the range, fixed once
    var chunk := pointsPerExpert;  // the slice length, reassigned on the last pass
    sampleSets := [];
    var i: nat := 0;
    assert Rest(shuffled, 0) == shuffled;
    while i < numSamples
      invariant i < numSamples ==> chunk == step
      invariant sampleSets + Chunks(Rest(shuffled, i), step) == Chunks(shuffled, step)
      decreases numSamples - i
    {
      if i + chunk >= numSamples {
        chunk := numSamples - i;
      }
      ChunkStep(shuffled, step, i, sampleSets, shuffled[i..i + chunk]);
      sampleSets := sampleSets + [shuffled[i..i + chunk]];
      i := i + step;
    }
    assert Chunks(Rest(shuffled, i), step) == [] by {
      assert |Rest(shuffled, i)| == 0;
    }
  }

  /** What the chunking promises. */
  lemma ChunkingFacts(s: seq<int>, k: int)
    requires k > 0
    ensures Flatten(Chunks(s, k)) == s
    ensures |Chunks(s, k)| == CeilDiv(|s|, k)
    ensures forall g :: 0 <= g < |Chunks(s, k)| - 1 ==> |Chunks(s, k)[g]| == k
    ensures |Chunks(s, k)| > 0 ==> 1 <= |Chunks(s, k)[|Chunks(s, k)| - 1]| <= k
    ensures |s| == 0 ==> Chunks(s, k) == []
    ensures 0 < |s| <= k ==> Chunks(s, k) == [s]
    ensures IsShuffle(s) ==> IsPartition(Chunks(s, k), |s|)
  {
    ChunksFlatten(s, k);
    ChunksSizes(s, k);
    CeilDivCharacterization(|s|, k, |Chunks(s, k)|);
    if IsShuffle(s) {
      ChunksPartitionShuffle(s, k);
    }
  }

  /* ---------------------------------------------------------------------- */
  /* birch_cluster_partitioning                                              */
  /* ---------------------------------------------------------------------- */

  /** The target cluster count handed to the clusterer:
      int(float(n) / points_per_expert), a quotient truncated toward zero.
      For a positive divisor that is the floor of n / points_per_expert;
      for a negative one it is minus the floor of n / -points_per_expert;
      a zero divisor raises. */
  function NumClusters(numSamples: nat, pointsPerExpert: int): (r: Outcome<int>)
    ensures r.Fail? <==> pointsPerExpert == 0
    ensures r.Fail? ==> r.error == ZeroDivision
    ensures pointsPerExpert > 0 ==>
      0 <= r.value && r.value * pointsPerExpert <= numSamples < (r.value + 1) * pointsPerExpert
    ensures pointsPerExpert < 0 ==>
      r.value <= 0 && r.value * pointsPerExpert <= numSamples < (1 - r.value) * (-pointsPerExpert)
  {
    if pointsPerExpert == 0 then Fail(ZeroDivision)
    else if pointsPerExpert > 0 then Ok(numSamples / pointsPerExpert)
    else Ok(-(numSamples / -pointsPerExpert))
  }

  /** Inserts x into a strictly increasing sequence, keeping it strictly
      increasing and without a second copy of x. */
  function InsertSorted(x: int, u: seq<int>): (r: seq<int>)
    requires StrictlyIncreasing(u)
    ensures StrictlyIncreasing(r)
    ensures forall y :: y in r <==> y == x || y in u
    decreases |u|
  {
    if |u| == 0 then [x]
    else if x < u[0] then [x] + u
    else if x == u[0] then u
    else
      var rest := InsertSorted(x, u[1..]);
      assert forall j :: 0 <= j < |rest| ==> rest[j] in rest;
      assert forall y :: y in u[1..] ==> u[0] < y;
      [u[0]] + rest
  }

  /** np.unique: the distinct labels, in ascending order. */
  function Unique(labels: seq<int>): (u: seq<int>)
    ensures StrictlyIncreasing(u)
    ensures forall y :: y in u <==> y in labels
  {
    if |labels| == 0 then []
    else
      var init := labels[..|labels| - 1];
      assert labels == init + [labels[|labels| - 1]];
      InsertSorted(labels[|labels| - 1], Unique(init))
  }

  /** `[i for i in range(n) if labels[i] == wanted]`. */
  function IndicesWithLabel(labels: seq<int>, wanted: int, n: nat): (r: seq<int>)
    requires n <= |labels|
    ensures StrictlyIncreasing(r)
    ensures forall i :: i in r <==> 0 <= i < n && labels[i] == wanted
    ensures forall j :: 0 <= j < |r| ==> 0 <= r[j] < n && labels[r[j]] == wanted
  {
    if n == 0 then []
    else
      var r := IndicesWithLabel(labels, wanted, n - 1);
      if labels[n - 1] == wanted then r + [n - 1] else r
  }

  /** The groups the loop over the distinct labels builds. */
  function GroupsByLabel(labels: seq<int>): seq<seq<int>>
  {
    var u := Unique(labels);
    seq(|u|, g requires 0 <= g < |u| => IndicesWithLabel(labels, u[g], |labels|))
  }

  /** Each group is nonempty, ascending, and holds exactly the indices whose
      label is the group's label; groups come in ascending label order. */
  lemma GroupsByLabelShape(labels: seq<int>)
    ensures |GroupsByLabel(labels)| == |Unique(labels)|
    ensures forall g :: 0 <= g < |GroupsByLabel(labels)| ==>
      |GroupsByLabel(labels)[g]| > 0 && StrictlyIncreasing(GroupsByLabel(labels)[g])
    ensures forall g, j :: 0 <= g < |GroupsByLabel(labels)| && 0 <= j < |GroupsByLabel(labels)[g]| ==>
      0 <= GroupsByLabel(labels)[g][j] < |labels| &&
      labels[GroupsByLabel(labels)[g][j]] == Unique(labels)[g]
    ensures forall g1, g2 :: 0 <= g1 < g2 < |GroupsByLabel(labels)| ==>
      labels[GroupsByLabel(labels)[g1][0]] < labels[GroupsByLabel(labels)[g2][0]]
  {
    var u := Unique(labels);
    var gs := GroupsByLabel(labels);
    forall g | 0 <= g < |gs|
      ensures |gs[g]| > 0
    {
      assert u[g] in u;
      var i :| 0 <= i < |labels| && labels[i] == u[g];
      assert i in gs[g];
    }
  }

  /** The groups partition 0..n-1: every index is in one group and in no other. */
  lemma GroupsByLabelPartition(labels: seq<int>)
    ensures forall i :: 0 <= i < |labels| ==> InSomeGroup(GroupsByLabel(labels), i)
    ensures forall g1, g2, i :: (0 <= g1 < |GroupsByLabel(labels)| && 0 <= g2 < |GroupsByLabel(labels)| &&
      i in GroupsByLabel(labels)[g1] && i in GroupsByLabel(labels)[g2]) ==> g1 == g2
  {
    var u := Unique(labels);
    var gs := GroupsByLabel(labels);
    forall i | 0 <= i < |labels|
      ensures InSomeGroup(gs, i)
    {
      assert labels[i] in u;
      var g :| 0 <= g < |u| && u[g] == labels[i];
      assert i in gs[g];
    }
    forall g1, g2, i | 0 <= g1 < |gs| && 0 <= g2 < |gs| && i in gs[g1] && i in gs[g2]
      ensures g1 == g2
    {
      assert u[g1] == labels[i] == u[g2];
    }
  }

  /** birch_cluster_partitioning: the cluster count int(float(n) /
      points_per_expert) is computed first, so a zero points_per_expert raises
      before anything is clustered; otherwise `labels` is what the clusterer
      assigned to each sample, and the result is the grouping of LabelGroups. */
  method BirchClusterPartitioning(labels: seq<int>, pointsPerExpert: int) returns (r: Outcome<seq<seq<int>>>)
    ensures r.Fail? <==> pointsPerExpert == 0
    ensures r.Fail? ==> r.error == ZeroDivision
    ensures r.Ok? ==> |r.value| == |Unique(labels)|
    ensures r.Ok? ==> forall g :: 0 <= g < |r.value| ==> |r.value[g]| > 0 && StrictlyIncreasing(r.value[g])
    ensures r.Ok? ==> forall g, i :: 0 <= g < |r.value| ==>
      (i in r.value[g] <==> 0 <= i < |labels| && labels[i] == Unique(labels)[g])
    ensures r.Ok? ==> IsPartition(r.value, |labels|)
  {
    var numClusters := NumClusters(|labels|, pointsPerExpert);
    if numClusters.Fail? {
      r := Fail(numClusters.error);
    } else {
      var sampleSets := LabelGroups(labels);
      r := Ok(sampleSets);
    }
  }

  /** The loop of birch_cluster_partitioning once the clusterer has labelled
      every sample: one group per distinct label, in ascending label order,
      each holding the indices carrying that label in ascending order. */
  method LabelGroups(labels: seq<int>) returns (sampleSets: seq<seq<int>>)
    ensures |sampleSets| == |Unique(labels)|
    ensures forall g :: 0 <= g < |sampleSets| ==> |sampleSets[g]| > 0 && StrictlyIncreasing(sampleSets[g])
    ensures forall g, j :: 0 <= g < |sampleSets| && 0 <= j < |sampleSets[g]| ==>
      0 <= sampleSets[g][j] < |labels| && labels[sampleSets[g][j]] == Unique(labels)[g]
    ensures forall g, i :: 0 <= g < |sampleSets| ==>
      (i in sampleSets[g] <==> 0 <= i < |labels| && labels[i] == Unique(labels)[g])
    ensures forall g1, g2 :: 0 <= g1 < g2 < |sampleSets| ==>
      labels[sampleSets[g1][0]] < labels[sampleSets[g2][0]]
    ensures IsPartition(sampleSets, |labels|)
  {
    var numSamples := |labels|;
    var uniqueLabels := Unique(labels);
    sampleSets := [];
    for k := 0 to |uniqueLabels|
      invariant |sampleSets| == k
      invariant forall g :: 0 <= g < k ==> sampleSets[g] == IndicesWithLabel(labels, uniqueLabels[g], numSamples)
    {
      sampleSets := sampleSets + [IndicesWithLabel(labels, uniqueLabels[k], numSamples)];
    }
    assert sampleSets == GroupsByLabel(labels);
    GroupsByLabelShape(labels);
    assert IsPartition(sampleSets, numSamples) by {
      GroupsByLabelPartition(labels);
      assert forall g :: 0 <= g < |sampleSets| ==> NoDuplicates(sampleSets[g]);
    }
  }
}
