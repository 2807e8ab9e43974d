/** Iterative message passing (IMP) over a batch of scene graphs: the bookkeeping
    that turns per-image relation pairs into global subject/object indices and
    0/1 incidence matrices, the growing vertex/edge histories, and the choice
    between the predicted object distribution and the ground-truth one-hot.
    The learned layers (GRU cells, sigmoid gates, linear heads) are oracles. */
module ImpContext {
  import opened Common

  /** The error raised by `torch.cat` on an empty list. */
  const EmptyCatError: string := "torch.cat(): expected a non-empty list of Tensors"

  /** Which ground truth the scene-graph head is given. */
  datatype Mode = PredCls | SgCls | SgDet

  /** Mode selection from the two configuration switches. */
  function ModeOf(useGtBox: bool, useGtObjectLabel: bool): (m: Mode)
    ensures m == PredCls <==> useGtBox && useGtObjectLabel
    ensures m == SgCls <==> useGtBox && !useGtObjectLabel
    ensures m == SgDet <==> !useGtBox
  {
    if useGtBox then (if useGtObjectLabel then PredCls else SgCls) else SgDet
  }

  /** The learned layers, applied row by row. The four gates see the
      concatenation of a vertex row and an edge row and return one scalar. */
  datatype Cells = Cells(
    objUnary: Row -> Row,
    edgeUnary: Row -> Row,
    nodeGru: (Row, Row) -> Row,
    edgeGru: (Row, Row) -> Row,
    subVertGate: (Row, Row) -> real,
    objVertGate: (Row, Row) -> real,
    outEdgeGate: (Row, Row) -> real,
    inEdgeGate: (Row, Row) -> real,
    objFc: Row -> Row,
    relFc: Row -> Row,
    oneHot: (nat, nat) -> Row)

  /** Both GRU cells produce hidden rows of width `dim`. */
  ghost predicate GruShaped(c: Cells, dim: nat)
  {
    (forall a, h :: |c.nodeGru(a, h)| == dim) &&
    (forall a, h :: |c.edgeGru(a, h)| == dim)
  }

  /** The output heads produce `numObj` and `numRel` columns. */
  ghost predicate HeadShaped(c: Cells, numObj: nat, numRel: nat)
  {
    (forall h :: |c.objFc(h)| == numObj) &&
    (forall h :: |c.relFc(h)| == numRel) &&
    (forall l :: |c.oneHot(l, numObj)| == numObj)
  }

  function Zeros(n: nat, dim: nat): (r: seq<Row>)
    ensures |r| == n && Width(r, dim)
  {
    seq(n, _ => seq(dim, _ => 0.0))
  }

  function Scale(g: real, v: Row): (r: Row)
    ensures |r| == |v|
  {
    seq(|v|, d requires 0 <= d < |v| => g * v[d])
  }

  function Add(a: Row, b: Row): (r: Row)
    requires |a| == |b|
    ensures |r| == |a|
  {
    seq(|a|, d requires 0 <= d < |a| => a[d] + b[d])
  }

  // ---------------------------------------------------------------------------
  // Per-image offsets and global indices

  /** Number of elements of each inner sequence. */
  function Lengths<T>(xs: seq<seq<T>>): (r: seq<nat>)
    ensures |r| == |xs|
    ensures forall i :: 0 <= i < |xs| ==> r[i] == |xs[i]|
  {
    if xs == [] then [] else Lengths(xs[..|xs| - 1]) + [|xs[|xs| - 1]|]
  }

  /** The inner sequences one after the other (`cat(..., dim=0)`). */
  function Concat<T>(xs: seq<seq<T>>): seq<T>
  {
    if xs == [] then [] else Concat(xs[..|xs| - 1]) + xs[|xs| - 1]
  }

  /** The subject (or object) end of every pair of one image, shifted by the
      number of objects in the earlier images. */
  function Endpoints(pairs: seq<(nat, nat)>, offset: nat, subject: bool): (r: seq<nat>)
    ensures |r| == |pairs|
    ensures forall k :: 0 <= k < |pairs| ==>
      r[k] == (if subject then pairs[k].0 else pairs[k].1) + offset
  {
    if pairs == [] then []
    else
      var p := pairs[|pairs| - 1];
      Endpoints(pairs[..|pairs| - 1], offset, subject) + [(if subject then p.0 else p.1) + offset]
  }

  /** Objects of the images before image j (`obj_offset` when image j is reached). */
  function ObjOffset(numObjs: seq<nat>, j: nat): nat
    requires j <= |numObjs|
  {
    Sum(numObjs[..j])
  }

  /** Relations of the images before image j (`rel_offset` when image j is reached). */
  function RelOffset(pairs: seq<seq<(nat, nat)>>, j: nat): nat
    requires j <= |pairs|
  {
    Sum(Lengths(pairs[..j]))
  }

  /** The concatenated global subject (or object) indices of all images. */
  function GlobalInds(pairs: seq<seq<(nat, nat)>>, numObjs: seq<nat>, subject: bool): seq<nat>
    requires |pairs| == |numObjs|
  {
    if pairs == [] then []
    else
      var j := |pairs| - 1;
      GlobalInds(pairs[..j], numObjs[..j], subject) + Endpoints(pairs[j], ObjOffset(numObjs, j), subject)
  }

  /** Every pair of image j names two of that image's objects. */
  predicate ValidPairs(pairs: seq<seq<(nat, nat)>>, numObjs: seq<nat>)
    requires |pairs| == |numObjs|
  {
    forall j, k :: 0 <= j < |pairs| && 0 <= k < |pairs[j]| ==>
      pairs[j][k].0 < numObjs[j] && pairs[j][k].1 < numObjs[j]
  }

  lemma {:induction false} SumPrefix(s: seq<nat>, j: nat)
    requires j < |s|
    ensures Sum(s[..j + 1]) == Sum(s[..j]) + s[j]
    ensures Sum(s[..j + 1]) <= Sum(s)
    decreases |s|
  {
    assert s[..j + 1][..j] == s[..j];
    if j + 1 < |s| {
      SumPrefix(s[..|s| - 1], j);
      assert s[..|s| - 1][..j + 1] == s[..j + 1];
      assert s[..|s| - 1][..j] == s[..j];
    } else {
      assert s[..j + 1] == s;
    }
  }

  lemma {:induction false} GlobalIndsLength(pairs: seq<seq<(nat, nat)>>, numObjs: seq<nat>, subject: bool)
    requires |pairs| == |numObjs|
    ensures |GlobalInds(pairs, numObjs, subject)| == RelOffset(pairs, |pairs|)
    decreases |pairs|
  {
    assert pairs[..|pairs|] == pairs;
    if pairs != [] {
      var n := |pairs| - 1;
      GlobalIndsLength(pairs[..n], numObjs[..n], subject);
      assert pairs[..n][..n] == pairs[..n];
      assert Lengths(pairs)[..n] == Lengths(pairs[..n]);
    }
  }

  /** Image j's relation k sits at position RelOffset(j) + k of the concatenated
      index list, and its global index is its pair index plus ObjOffset(j). */
  lemma {:induction false} GlobalIndAt(pairs: seq<seq<(nat, nat)>>, numObjs: seq<nat>, subject: bool, j: nat, k: nat)
    requires |pairs| == |numObjs| && j < |pairs| && k < |pairs[j]|
    ensures RelOffset(pairs, j) + k < |GlobalInds(pairs, numObjs, subject)|
    ensures GlobalInds(pairs, numObjs, subject)[RelOffset(pairs, j) + k] ==
      (if subject then pairs[j][k].0 else pairs[j][k].1) + ObjOffset(numObjs, j)
    decreases |pairs|, 1
  {
    if j < |pairs| - 1 {
      GlobalIndAtEarlier(pairs, numObjs, subject, j, k);
    } else {
      GlobalIndAtLast(pairs, numObjs, subject, k);
    }
  }

  /** The case of the last image: its entries follow those of all the others. */
  lemma GlobalIndAtLast(pairs: seq<seq<(nat, nat)>>, numObjs: seq<nat>, subject: bool, k: nat)
    requires |pairs| == |numObjs| && pairs != [] && k < |pairs[|pairs| - 1]|
    ensures RelOffset(pairs, |pairs| - 1) + k < |GlobalInds(pairs, numObjs, subject)|
    ensures GlobalInds(pairs, numObjs, subject)[RelOffset(pairs, |pairs| - 1) + k] ==
      (if subject then pairs[|pairs| - 1][k].0 else pairs[|pairs| - 1][k].1) + ObjOffset(numObjs, |pairs| - 1)
  {
    var n := |pairs| - 1;
    GlobalIndsLength(pairs[..n], numObjs[..n], subject);
    PrefixOffsets(pairs, numObjs, n, n);
    var gp := GlobalInds(pairs[..n], numObjs[..n], subject);
    var e := Endpoints(pairs[n], ObjOffset(numObjs, n), subject);
    assert GlobalInds(pairs, numObjs, subject) == gp + e;
    assert |gp| == RelOffset(pairs, n);
    assert (gp + e)[|gp| + k] == e[k];
  }

  /** The case of an image before the last: its entries lie in the indices of
      the images before the last. */
  lemma {:induction false} GlobalIndAtEarlier(pairs: seq<seq<(nat, nat)>>, numObjs: seq<nat>, subject: bool, j: nat, k: nat)
    requires |pairs| == |numObjs| && j < |pairs| - 1 && k < |pairs[j]|
    ensures RelOffset(pairs, j) + k < |GlobalInds(pairs, numObjs, subject)|
    ensures GlobalInds(pairs, numObjs, subject)[RelOffset(pairs, j) + k] ==
      (if subject then pairs[j][k].0 else pairs[j][k].1) + ObjOffset(numObjs, j)
    decreases |pairs|, 0
  {
    var n := |pairs| - 1;
    var pre, preObjs := pairs[..n], numObjs[..n];
    var gp := GlobalInds(pre, preObjs, subject);
    var e := Endpoints(pairs[n], ObjOffset(numObjs, n), subject);
    assert GlobalInds(pairs, numObjs, subject) == gp + e;
    GlobalIndAt(pre, preObjs, subject, j, k);
    PrefixOffsets(pairs, numObjs, j, n);
    assert (gp + e)[RelOffset(pairs, j) + k] == gp[RelOffset(pairs, j) + k];
  }

  /** The offsets of image j are the same within the first n images. */
  lemma PrefixOffsets(pairs: seq<seq<(nat, nat)>>, numObjs: seq<nat>, j: nat, n: nat)
    requires j <= n <= |pairs| == |numObjs|
    ensures RelOffset(pairs[..n], j) == RelOffset(pairs, j)
    ensures ObjOffset(numObjs[..n], j) == ObjOffset(numObjs, j)
  {
    assert pairs[..n][..j] == pairs[..j];
    assert numObjs[..n][..j] == numObjs[..j];
  }

  lemma RelOffsetStep(pairs: seq<seq<(nat, nat)>>, j: nat)
    requires j < |pairs|
    ensures RelOffset(pairs, j + 1) == RelOffset(pairs, j) + |pairs[j]|
  {
    assert pairs[..j + 1] == pairs[..j] + [pairs[j]];
    assert pairs[..j + 1][..j] == pairs[..j];
    SumAppend(Lengths(pairs[..j]), |pairs[j]|);
  }

  lemma {:induction false} RelOffsetMono(pairs: seq<seq<(nat, nat)>>, j: nat, n: nat)
    requires j < n <= |pairs|
    ensures RelOffset(pairs, j) + |pairs[j]| <= RelOffset(pairs, n)
    decreases n - j
  {
    RelOffsetStep(pairs, j);
    if j + 1 < n {
      RelOffsetMono(pairs, j + 1, n);
    }
  }

  /** With valid pairs every global index names one of the batch's objects. */
  lemma {:induction false} GlobalIndsBound(pairs: seq<seq<(nat, nat)>>, numObjs: seq<nat>, subject: bool)
    requires |pairs| == |numObjs| && ValidPairs(pairs, numObjs)
    ensures forall r :: 0 <= r < |GlobalInds(pairs, numObjs, subject)| ==>
      GlobalInds(pairs, numObjs, subject)[r] < Sum(numObjs)
    decreases |pairs|
  {
    if pairs != [] {
      var n := |pairs| - 1;
      GlobalIndsBound(pairs[..n], numObjs[..n], subject);
      SumPrefix(numObjs, n);
      assert numObjs[..n + 1] == numObjs;
      var e := Endpoints(pairs[n], ObjOffset(numObjs, n), subject);
      forall k | 0 <= k < |e| ensures e[k] < Sum(numObjs) {
        assert pairs[n][k].0 < numObjs[n] && pairs[n][k].1 < numObjs[n];
      }
    }
  }

  // ---------------------------------------------------------------------------
  // Incidence matrices

  /** `m` is the 0/1 matrix with a one in row idx[r] of column r for the first
      |idx| columns and zeros everywhere else. */
  ghost predicate MarkedUpTo(m: array2<real>, idx: seq<nat>)
    reads m
  {
    forall o, r :: 0 <= o < m.Length0 && 0 <= r < m.Length1 ==>
      m[o, r] == (if r < |idx| && idx[r] == o then 1.0 else 0.0)
  }

  /** The incidence matrix of `idx` over n rows, as a value. */
  function Incidence(idx: seq<nat>, n: nat): (m: seq<Row>)
    ensures |m| == n && Width(m, |idx|)
  {
    seq(n, o => seq(|idx|, r requires 0 <= r < |idx| => if idx[r] == o then 1.0 else 0.0))
  }

  lemma IncidenceOfArray(m: array2<real>, idx: seq<nat>)
    requires |idx| == m.Length1 && MarkedUpTo(m, idx)
    ensures ToRows(m) == Incidence(idx, m.Length0)
  {
    var a, b := ToRows(m), Incidence(idx, m.Length0);
    forall o | 0 <= o < m.Length0 ensures a[o] == b[o] {
      forall r | 0 <= r < |idx| ensures a[o][r] == b[o][r] {
        assert a[o][r] == m[o, r];
      }
    }
  }

  /** The body of the per-image loop: image j's relations get their global
      subject and object indices and are marked in both matrices. */
  method MarkImage(pairs: seq<seq<(nat, nat)>>, numObjs: seq<nat>, j: nat, objOffset: nat, relOffset: nat,
                   sub: seq<nat>, obj: seq<nat>, sub2rel: array2<real>, obj2rel: array2<real>)
    returns (sub': seq<nat>, obj': seq<nat>)
    requires |pairs| == |numObjs| && ValidPairs(pairs, numObjs) && j < |pairs|
    requires objOffset == ObjOffset(numObjs, j) && relOffset == RelOffset(pairs, j)
    requires sub == GlobalInds(pairs[..j], numObjs[..j], true) && obj == GlobalInds(pairs[..j], numObjs[..j], false)
    requires |sub| == relOffset && |obj| == relOffset
    requires sub2rel != obj2rel
    requires sub2rel.Length0 == obj2rel.Length0 == Sum(numObjs)
    requires sub2rel.Length1 == obj2rel.Length1 == Sum(Lengths(pairs))
    requires MarkedUpTo(sub2rel, sub) && MarkedUpTo(obj2rel, obj)
    modifies sub2rel, obj2rel
    ensures sub' == GlobalInds(pairs[..j + 1], numObjs[..j + 1], true)
    ensures obj' == GlobalInds(pairs[..j + 1], numObjs[..j + 1], false)
    ensures |sub'| == |obj'| == relOffset + |pairs[j]|
    ensures MarkedUpTo(sub2rel, sub') && MarkedUpTo(obj2rel, obj')
  {
    GlobalIndsSnoc(pairs, numObjs, true, j);
    GlobalIndsSnoc(pairs, numObjs, false, j);
    SumPrefix(numObjs, j);
    RelOffsetMono(pairs, j, |pairs|);
    assert pairs[..|pairs|] == pairs;
    var subIdx := Endpoints(pairs[j], objOffset, true);
    var objIdx := Endpoints(pairs[j], objOffset, false);
    EndpointsBound(pairs, numObjs, j, true);
    EndpointsBound(pairs, numObjs, j, false);
    Mark(sub2rel, sub, relOffset, subIdx);
    Mark(obj2rel, obj, relOffset, objIdx);
    sub', obj' := sub + subIdx, obj + objIdx;
  }

  /** `sub2rel[sub_idx, rel_idx] = 1.0` for one image: marks column
      relOffset + k in row idx[k]. */
  method Mark(m: array2<real>, ghost done: seq<nat>, relOffset: nat, idx: seq<nat>)
    requires relOffset == |done| && |done| + |idx| <= m.Length1
    requires forall k :: 0 <= k < |idx| ==> idx[k] < m.Length0
    requires MarkedUpTo(m, done)
    modifies m
    ensures MarkedUpTo(m, done + idx)
  {
    for k := 0 to |idx|
      invariant MarkedUpTo(m, done + idx[..k])
    {
      assert done + idx[..k + 1] == (done + idx[..k]) + [idx[k]];
      m[idx[k], relOffset + k] := 1.0;
    }
    assert idx[..|idx|] == idx;
  }

  /** `torch.zeros(rows, cols)`: no column marked yet. */
  method Zero(rows: nat, cols: nat) returns (m: array2<real>)
    ensures fresh(m) && m.Length0 == rows && m.Length1 == cols
    ensures MarkedUpTo(m, [])
  {
    m := new real[rows, cols]((o, r) => 0.0);
  }

  /** The per-image loop: global subject/object indices and the two incidence
      matrices, built from zero matrices with running object/relation offsets. */
  method BuildMapping(pairs: seq<seq<(nat, nat)>>, numObjs: seq<nat>, objCount: nat, relCount: nat)
    returns (sub2rel: array2<real>, obj2rel: array2<real>, sub: seq<nat>, obj: seq<nat>)
    requires |pairs| == |numObjs| && ValidPairs(pairs, numObjs)
    requires objCount == Sum(numObjs) && relCount == Sum(Lengths(pairs))
    ensures fresh(sub2rel) && fresh(obj2rel)
    ensures sub == GlobalInds(pairs, numObjs, true) && obj == GlobalInds(pairs, numObjs, false)
    ensures |sub| == relCount && |obj| == relCount
    ensures sub2rel.Length0 == objCount && sub2rel.Length1 == relCount
    ensures obj2rel.Length0 == objCount && obj2rel.Length1 == relCount
    ensures MarkedUpTo(sub2rel, sub) && MarkedUpTo(obj2rel, obj)
  {
    sub2rel := Zero(objCount, relCount);
    obj2rel := Zero(objCount, relCount);
    var objOffset := 0;
    var relOffset := 0;
    sub, obj := [], [];
    assert pairs[..|pairs|] == pairs;
    for j := 0 to |pairs|
      invariant objOffset == ObjOffset(numObjs, j) && relOffset == RelOffset(pairs, j)
      invariant sub == GlobalInds(pairs[..j], numObjs[..j], true)
      invariant obj == GlobalInds(pairs[..j], numObjs[..j], false)
      invariant |sub| == relOffset && |obj| == relOffset
      invariant MarkedUpTo(sub2rel, sub) && MarkedUpTo(obj2rel, obj)
    {
      sub, obj := MarkImage(pairs, numObjs, j, objOffset, relOffset, sub, obj, sub2rel, obj2rel);
      SumPrefix(numObjs, j);
      RelOffsetStep(pairs, j);
      objOffset := objOffset + numObjs[j];
      relOffset := relOffset + |pairs[j]|;
    }
    assert pairs[..|pairs|] == pairs && numObjs[..|pairs|] == numObjs;
  }

  lemma GlobalIndsSnoc(pairs: seq<seq<(nat, nat)>>, numObjs: seq<nat>, subject: bool, j: nat)
    requires |pairs| == |numObjs| && j < |pairs|
    ensures GlobalInds(pairs[..j + 1], numObjs[..j + 1], subject) ==
      GlobalInds(pairs[..j], numObjs[..j], subject) + Endpoints(pairs[j], ObjOffset(numObjs, j), subject)
  {
    assert pairs[..j + 1][..j] == pairs[..j] && numObjs[..j + 1][..j] == numObjs[..j];
  }

  lemma EndpointsBound(pairs: seq<seq<(nat, nat)>>, numObjs: seq<nat>, j: nat, subject: bool)
    requires |pairs| == |numObjs| && ValidPairs(pairs, numObjs) && j < |pairs|
    ensures forall k :: 0 <= k < |pairs[j]| ==>
      Endpoints(pairs[j], ObjOffset(numObjs, j), subject)[k] < ObjOffset(numObjs, j) + numObjs[j]
  {
    forall k | 0 <= k < |pairs[j]|
      ensures Endpoints(pairs[j], ObjOffset(numObjs, j), subject)[k] < ObjOffset(numObjs, j) + numObjs[j]
    {
      assert pairs[j][k].0 < numObjs[j] && pairs[j][k].1 < numObjs[j];
    }
  }

  /** Column c of an incidence matrix lists one entry per row. */
  function Column(x: seq<Row>, d: nat): (c: Row)
    requires forall r :: 0 <= r < |x| ==> d < |x[r]|
    ensures |c| == |x|
  {
    seq(|x|, r requires 0 <= r < |x| => x[r][d])
  }

  lemma {:induction false} OneHotSum(c: Row, t: nat)
    requires forall o :: 0 <= o < |c| ==> c[o] == (if o == t then 1.0 else 0.0)
    ensures SumReal(c) == (if t < |c| then 1.0 else 0.0)
  {
    if c != [] {
      OneHotSum(c[..|c| - 1], t);
    }
  }

  /** Each column of an incidence matrix holds exactly one 1, in the row its
      index names, and zeros elsewhere, so the column sums to 1. */
  lemma IncidenceColumn(idx: seq<nat>, n: nat, r: nat)
    requires r < |idx| && idx[r] < n
    ensures Column(Incidence(idx, n), r)[idx[r]] == 1.0
    ensures forall o :: 0 <= o < n && o != idx[r] ==> Column(Incidence(idx, n), r)[o] == 0.0
    ensures SumReal(Column(Incidence(idx, n), r)) == 1.0
  {
    OneHotSum(Column(Incidence(idx, n), r), idx[r]);
  }

  // ---------------------------------------------------------------------------
  // Matrix product as a scatter-sum

  function Dot(a: Row, b: Row): real
    requires |a| == |b|
  {
    if a == [] then 0.0 else Dot(a[..|a| - 1], b[..|b| - 1]) + a[|a| - 1] * b[|b| - 1]
  }

  /** The sum of v[r] over the relations r whose index is o. */
  function ScatterSum(idx: seq<nat>, v: Row, o: nat): real
    requires |idx| == |v|
  {
    if idx == [] then 0.0
    else ScatterSum(idx[..|idx| - 1], v[..|v| - 1], o) + (if idx[|idx| - 1] == o then v[|v| - 1] else 0.0)
  }

  /** `m @ x` for an n-by-|x| matrix and |x| rows of width dim. */
  function MatMul(m: seq<Row>, x: seq<Row>, dim: nat): (y: seq<Row>)
    requires Width(m, |x|) && Width(x, dim)
    ensures |y| == |m| && Width(y, dim)
    ensures forall o, d :: 0 <= o < |m| && 0 <= d < dim ==> y[o][d] == Dot(m[o], Column(x, d))
  {
    seq(|m|, o requires 0 <= o < |m| =>
      seq(dim, d requires 0 <= d < dim => Dot(m[o], Column(x, d))))
  }

  function MatAdd(a: seq<Row>, b: seq<Row>, dim: nat): (y: seq<Row>)
    requires |a| == |b| && Width(a, dim) && Width(b, dim)
    ensures |y| == |a| && Width(y, dim)
  {
    seq(|a|, o requires 0 <= o < |a| => Add(a[o], b[o]))
  }

  /** A row of an incidence matrix picks out the scatter-sum of its row index. */
  lemma {:induction false} IncidenceRowDot(idx: seq<nat>, o: nat, row: Row, v: Row)
    requires |row| == |idx| == |v|
    requires forall r :: 0 <= r < |idx| ==> row[r] == (if idx[r] == o then 1.0 else 0.0)
    ensures Dot(row, v) == ScatterSum(idx, v, o)
  {
    if idx != [] {
      var n := |idx| - 1;
      IncidenceRowDot(idx[..n], o, row[..n], v[..n]);
    }
  }

  // ---------------------------------------------------------------------------
  // One round of message passing

  /** Global subject/object indices and their incidence matrices. */
  datatype Graph = Graph(sub: seq<nat>, obj: seq<nat>, sub2rel: seq<Row>, obj2rel: seq<Row>)

  predicate WellFormed(g: Graph, objCount: nat)
  {
    |g.obj| == |g.sub| &&
    (forall r :: 0 <= r < |g.sub| ==> g.sub[r] < objCount && g.obj[r] < objCount) &&
    |g.sub2rel| == objCount && |g.obj2rel| == objCount &&
    Width(g.sub2rel, |g.sub|) && Width(g.obj2rel, |g.sub|)
  }

  /** Applies a GRU cell row by row: cell(input[i], hidden[i]). */
  function GruRows(cell: (Row, Row) -> Row, input: seq<Row>, hidden: seq<Row>): (r: seq<Row>)
    requires |input| == |hidden|
    ensures |r| == |input|
    ensures forall i :: 0 <= i < |input| ==> r[i] == cell(input[i], hidden[i])
  {
    seq(|input|, i requires 0 <= i < |input| => cell(input[i], hidden[i]))
  }

  /** Edge context: the gated subject row plus the gated object row of each relation. */
  function EdgeMessages(c: Cells, g: Graph, vert: seq<Row>, edge: seq<Row>, dim: nat): (m: seq<Row>)
    requires WellFormed(g, |vert|) && |edge| == |g.sub| && Width(vert, dim)
    ensures |m| == |edge|
  {
    seq(|edge|, r requires 0 <= r < |edge| =>
      var sv, ov := vert[g.sub[r]], vert[g.obj[r]];
      Add(Scale(c.subVertGate(sv, edge[r]), sv), Scale(c.objVertGate(ov, edge[r]), ov)))
  }

  /** Outgoing messages: each relation's edge row, gated against its subject. */
  function OutMessages(c: Cells, g: Graph, vert: seq<Row>, edge: seq<Row>, dim: nat): (m: seq<Row>)
    requires WellFormed(g, |vert|) && |edge| == |g.sub| && Width(edge, dim)
    ensures |m| == |edge| && Width(m, dim)
  {
    var m := seq(|edge|, r requires 0 <= r < |edge| => Scale(c.outEdgeGate(vert[g.sub[r]], edge[r]), edge[r]));
    forall r | 0 <= r < |m| ensures |m[r]| == dim {
      assert m[r] == Scale(c.outEdgeGate(vert[g.sub[r]], edge[r]), edge[r]);
    }
    m
  }

  /** Incoming messages: each relation's edge row, gated against its object. */
  function InMessages(c: Cells, g: Graph, vert: seq<Row>, edge: seq<Row>, dim: nat): (m: seq<Row>)
    requires WellFormed(g, |vert|) && |edge| == |g.sub| && Width(edge, dim)
    ensures |m| == |edge| && Width(m, dim)
  {
    var m := seq(|edge|, r requires 0 <= r < |edge| => Scale(c.inEdgeGate(vert[g.obj[r]], edge[r]), edge[r]));
    forall r | 0 <= r < |m| ensures |m[r]| == dim {
      assert m[r] == Scale(c.inEdgeGate(vert[g.obj[r]], edge[r]), edge[r]);
    }
    m
  }

  /** `sub2rel @ pre_out + obj2rel @ pre_in`. */
  function VertContext(g: Graph, preOut: seq<Row>, preIn: seq<Row>, dim: nat): (ctx: seq<Row>)
    requires WellFormed(g, |g.sub2rel|)
    requires |preOut| == |g.sub| && |preIn| == |g.sub| && Width(preOut, dim) && Width(preIn, dim)
    ensures |ctx| == |g.sub2rel| && Width(ctx, dim)
  {
    MatAdd(MatMul(g.sub2rel, preOut, dim), MatMul(g.obj2rel, preIn, dim), dim)
  }

  /** With incidence matrices, coordinate d of the context of object o is the
      sum of the outgoing messages of the relations it is the subject of plus
      the incoming messages of the relations it is the object of. */
  lemma VertContextIsScatterSum(g: Graph, preOut: seq<Row>, preIn: seq<Row>, dim: nat)
    requires WellFormed(g, |g.sub2rel|)
    requires g.sub2rel == Incidence(g.sub, |g.sub2rel|) && g.obj2rel == Incidence(g.obj, |g.sub2rel|)
    requires |preOut| == |g.sub| && |preIn| == |g.sub| && Width(preOut, dim) && Width(preIn, dim)
    ensures forall o, d :: 0 <= o < |g.sub2rel| && 0 <= d < dim ==>
      VertContext(g, preOut, preIn, dim)[o][d] ==
        ScatterSum(g.sub, Column(preOut, d), o) + ScatterSum(g.obj, Column(preIn, d), o)
  {
    var ctx := VertContext(g, preOut, preIn, dim);
    forall o, d | 0 <= o < |g.sub2rel| && 0 <= d < dim
      ensures ctx[o][d] == ScatterSum(g.sub, Column(preOut, d), o) + ScatterSum(g.obj, Column(preIn, d), o)
    {
      IncidenceRowDot(g.sub, o, g.sub2rel[o], Column(preOut, d));
      IncidenceRowDot(g.obj, o, g.obj2rel[o], Column(preIn, d));
    }
  }

  /** The new edge state: the edge GRU fed the edge context, from the current edge state. */
  function EdgeUpdate(c: Cells, g: Graph, vert: seq<Row>, edge: seq<Row>, dim: nat): (e: seq<Row>)
    requires WellFormed(g, |vert|) && |edge| == |g.sub| && Width(vert, dim)
    ensures |e| == |edge|
  {
    GruRows(c.edgeGru, EdgeMessages(c, g, vert, edge, dim), edge)
  }

  /** The new vertex state: the node GRU fed the vertex context, from the current
      vertex state; `edge` is the edge state the round started with. */
  function VertUpdate(c: Cells, g: Graph, vert: seq<Row>, edge: seq<Row>, dim: nat): (v: seq<Row>)
    requires WellFormed(g, |vert|) && |edge| == |g.sub| && Width(edge, dim)
    ensures |v| == |vert|
  {
    var ctx := VertContext(g, OutMessages(c, g, vert, edge, dim), InMessages(c, g, vert, edge, dim), dim);
    GruRows(c.nodeGru, ctx, vert)
  }

  /** The vertex and edge states after n rounds, starting from the GRUs applied
      to the unary representations with zero hidden states. */
  function Factors(c: Cells, objRep: seq<Row>, relRep: seq<Row>, g: Graph, dim: nat, n: nat)
    : (f: (seq<Row>, seq<Row>))
    requires GruShaped(c, dim) && WellFormed(g, |objRep|) && |relRep| == |g.sub|
    ensures |f.0| == |objRep| && |f.1| == |relRep| && Width(f.0, dim) && Width(f.1, dim)
  {
    if n == 0 then
      (GruRows(c.nodeGru, objRep, Zeros(|objRep|, dim)), GruRows(c.edgeGru, relRep, Zeros(|relRep|, dim)))
    else
      var (vert, edge) := Factors(c, objRep, relRep, g, dim, n - 1);
      Round(c, g, vert, edge, dim)
  }

  /** One round of message passing: the new vertex and edge states, both
      computed from the states before the round. */
  function Round(c: Cells, g: Graph, vert: seq<Row>, edge: seq<Row>, dim: nat): (f: (seq<Row>, seq<Row>))
    requires GruShaped(c, dim) && WellFormed(g, |vert|) && |edge| == |g.sub| && Width(vert, dim) && Width(edge, dim)
    ensures |f.0| == |vert| && |f.1| == |edge| && Width(f.0, dim) && Width(f.1, dim)
  {
    (VertUpdate(c, g, vert, edge, dim), EdgeUpdate(c, g, vert, edge, dim))
  }

  /** The `vert_factor` / `edge_factor` lists: one entry each to start, one
      more per round; the vertex update of round i reads edge entry i, the
      edge state from before that round's edge update. */
  method MessagePassing(c: Cells, objRep: seq<Row>, relRep: seq<Row>, g: Graph, dim: nat, numIter: nat)
    returns (vf: seq<seq<Row>>, ef: seq<seq<Row>>)
    requires GruShaped(c, dim) && WellFormed(g, |objRep|) && |relRep| == |g.sub|
    ensures |vf| == numIter + 1 && |ef| == numIter + 1
    ensures forall i :: 0 <= i <= numIter ==>
      vf[i] == Factors(c, objRep, relRep, g, dim, i).0 && ef[i] == Factors(c, objRep, relRep, g, dim, i).1
    ensures forall i :: 0 <= i <= numIter ==>
      |vf[i]| == |objRep| && |ef[i]| == |relRep| && Width(vf[i], dim) && Width(ef[i], dim)
  {
    vf := [GruRows(c.nodeGru, objRep, Zeros(|objRep|, dim))];
    ef := [GruRows(c.edgeGru, relRep, Zeros(|relRep|, dim))];
    for i := 0 to numIter
      invariant |vf| == i + 1 && |ef| == i + 1
      invariant forall k :: 0 <= k <= i ==>
        vf[k] == Factors(c, objRep, relRep, g, dim, k).0 && ef[k] == Factors(c, objRep, relRep, g, dim, k).1
    {
      var next := Round(c, g, vf[i], ef[i], dim);
      assert Factors(c, objRep, relRep, g, dim, i + 1) == next;
      ghost var vf0, ef0 := vf, ef;
      vf, ef := vf + [next.0], ef + [next.1];
      forall k | 0 <= k <= i + 1
        ensures vf[k] == Factors(c, objRep, relRep, g, dim, k).0 && ef[k] == Factors(c, objRep, relRep, g, dim, k).1
      {
        if k <= i {
          assert vf[k] == vf0[k] && ef[k] == ef0[k];
        }
      }
    }
  }

  // ---------------------------------------------------------------------------
  // The context module

  /** The graph the batch's relation pairs describe. */
  function PairGraph(pairs: seq<seq<(nat, nat)>>, numObjs: seq<nat>): (g: Graph)
    requires |pairs| == |numObjs| && ValidPairs(pairs, numObjs)
    ensures WellFormed(g, Sum(numObjs)) && |g.sub| == Sum(Lengths(pairs))
  {
    var sub := GlobalInds(pairs, numObjs, true);
    var obj := GlobalInds(pairs, numObjs, false);
    GlobalIndsLength(pairs, numObjs, true);
    GlobalIndsLength(pairs, numObjs, false);
    assert pairs[..|pairs|] == pairs;
    GlobalIndsBound(pairs, numObjs, true);
    GlobalIndsBound(pairs, numObjs, false);
    Graph(sub, obj, Incidence(sub, Sum(numObjs)), Incidence(obj, Sum(numObjs)))
  }

  lemma {:induction false} ConcatLength<T>(xs: seq<seq<T>>)
    ensures |Concat(xs)| == Sum(Lengths(xs))
  {
    if xs != [] {
      ConcatLength(xs[..|xs| - 1]);
      assert Lengths(xs)[..|xs| - 1] == Lengths(xs[..|xs| - 1]);
    }
  }

  /** `to_onehot` of every label: one row per object. */
  function OneHots(c: Cells, labels: seq<nat>, numObj: nat): (rows: seq<Row>)
    ensures |rows| == |labels| && forall o :: 0 <= o < |labels| ==> rows[o] == c.oneHot(labels[o], numObj)
  {
    seq(|labels|, o requires 0 <= o < |labels| => c.oneHot(labels[o], numObj))
  }

  class IMPContext {
    const numObj: nat
    const numRel: nat
    const hiddenDim: nat
    const numIter: nat
    const mode: Mode

    /** Class counts include the background class. */
    constructor(useGtBox: bool, useGtObjectLabel: bool, numObjClasses: nat, numRelClasses: nat,
                hiddenDim: nat, numIter: nat)
      ensures this.numObj == numObjClasses + 1 && this.numRel == numRelClasses + 1
      ensures this.hiddenDim == hiddenDim && this.numIter == numIter
      ensures this.mode == ModeOf(useGtBox, useGtObjectLabel)
    {
      this.numObj := numObjClasses + 1;
      this.numRel := numRelClasses + 1;
      this.hiddenDim := hiddenDim;
      this.numIter := numIter;
      this.mode := ModeOf(useGtBox, useGtObjectLabel);
    }

    /** Object and relation class distributions for a batch. `proposals[j]`
        holds the predicted classes of image j's boxes (its length is the
        image's object count); `x` and `union` hold one feature row per object
        and per relation of the whole batch. */
    method Forward(c: Cells, x: seq<Row>, proposals: seq<seq<nat>>, union: seq<Row>,
                   pairs: seq<seq<(nat, nat)>>)
      returns (r: Result<(seq<Row>, seq<Row>), string>)
      requires GruShaped(c, hiddenDim) && HeadShaped(c, numObj, numRel)
      requires |pairs| == |proposals| && ValidPairs(pairs, Lengths(proposals))
      requires |x| == Sum(Lengths(proposals)) && |union| == Sum(Lengths(pairs))
      ensures r.Err? <==> proposals == []
      ensures r.Ok? ==> |r.value.0| == |x| && |r.value.1| == |union|
      ensures r.Ok? ==> Width(r.value.0, numObj) && Width(r.value.1, numRel)
      ensures r.Ok? ==> forall k :: 0 <= k < |union| ==>
        r.value.1[k] == c.relFc(Factors(c, MapRows(c.objUnary, x), MapRows(c.edgeUnary, union),
          PairGraph(pairs, Lengths(proposals)), hiddenDim, numIter).1[k])
      ensures r.Ok? && mode != PredCls ==> forall o :: 0 <= o < |x| ==>
        r.value.0[o] == c.objFc(Factors(c, MapRows(c.objUnary, x), MapRows(c.edgeUnary, union),
          PairGraph(pairs, Lengths(proposals)), hiddenDim, numIter).0[o])
      ensures r.Ok? && mode == PredCls ==> forall o :: 0 <= o < |x| ==>
        o < |Concat(proposals)| && r.value.0[o] == c.oneHot(Concat(proposals)[o], numObj)
    {
      var numObjs := Lengths(proposals);
      var sub2rel, obj2rel, sub, obj := BuildMapping(pairs, numObjs, |x|, |union|);
      if pairs == [] {
        // concatenating an empty list of index tensors fails
        return Err(EmptyCatError);
      }
      IncidenceOfArray(sub2rel, sub);
      IncidenceOfArray(obj2rel, obj);
      var g := Graph(sub, obj, ToRows(sub2rel), ToRows(obj2rel));
      assert g == PairGraph(pairs, numObjs);
      var objRep := MapRows(c.objUnary, x);
      var relRep := MapRows(c.edgeUnary, union);
      var vf, ef := MessagePassing(c, objRep, relRep, g, hiddenDim, numIter);
      var objDists;
      if mode == PredCls {
        var labels := Concat(proposals);
        ConcatLength(proposals);
        objDists := OneHots(c, labels, numObj);
      } else {
        objDists := MapRows(c.objFc, vf[numIter]);
      }
      var relDists := MapRows(c.relFc, ef[numIter]);
      r := Ok((objDists, relDists));
    }
  }
}
