/** Post-processing of the hierarchical tree-LSTM object decoder: re-ordering
    and slicing of the decoded distributions, the greedy per-class NMS that
    commits one class to every box, and the label override. The tree LSTM
    itself, the softmax and the box overlap computation are oracles. */
module TreeDecoder {
  import opened Common

  /** The error raised when a forest is decoded without a tree LSTM (unknown direction). */
  const NoDecoderError: string := "'DecoderHrTreeLSTM' object has no attribute 'decoderTreeLSTM'"

  /** The error raised when the tree LSTM left its outputs unset. */
  const NoOutputsError: string := "index_select(): argument 'input' must be Tensor, not NoneType"

  /** The error raised by `out_dists_sampled[:, 0] = 0` on scores with no class column. */
  const NoClassColumnError: string := "IndexError: index 0 is out of bounds for axis 1 with size 0"

  /** Direction of the decoding tree LSTM. */
  datatype Direction = Backward | Foreward

  /** The constructor's direction switch; any other string only prints an
      error and leaves the decoder unset. */
  function DirectionOf(s: string): (d: Option<Direction>)
    ensures d == Some(Backward) <==> s == "backward"
    ensures d == Some(Foreward) <==> s == "foreward"
    ensures d == None <==> s != "backward" && s != "foreward"
  {
    if s == "backward" then Some(Backward)
    else if s == "foreward" then Some(Foreward)
    else None
  }

  /** Python's `xs[:-b]`: all but the last b elements, where `[:-0]` is `[:0]`. */
  function DropLast<T>(xs: seq<T>, b: nat): (r: seq<T>)
    ensures b == 0 ==> r == []
    ensures b > 0 && b <= |xs| ==> r == xs[..|xs| - b]
    ensures b > |xs| ==> r == []
  {
    if b == 0 || b > |xs| then [] else xs[..|xs| - b]
  }

  // ---------------------------------------------------------------------------
  // First maximum in row-major order (`argmax` + `unravel_index`)

  /** Position (b1, c1) comes before (b2, c2) in row-major order. */
  predicate Precedes(b1: nat, c1: nat, b2: nat, c2: nat)
  {
    b1 < b2 || (b1 == b2 && c1 < c2)
  }

  /** `cur` holds the largest entry among the positions before (b, k), and
      every position before `cur` holds a strictly smaller entry. */
  ghost predicate FirstMaxBefore(m: seq<Row>, w: nat, cur: (nat, nat), b: nat, k: nat)
    requires Width(m, w)
  {
    cur.0 < |m| && cur.1 < w &&
    (forall b', c' :: 0 <= b' < |m| && 0 <= c' < w && Precedes(b', c', b, k) ==> m[b'][c'] <= m[cur.0][cur.1]) &&
    (forall b', c' :: 0 <= b' < |m| && 0 <= c' < w && Precedes(b', c', cur.0, cur.1) ==> m[b'][c'] < m[cur.0][cur.1])
  }

  /** The scan of row b, columns 0 .. k-1, from the best position so far. */
  function ScanRow(m: seq<Row>, w: nat, cur: (nat, nat), b: nat, k: nat): (best: (nat, nat))
    requires Width(m, w) && cur.0 < |m| && cur.1 < w && b < |m| && k <= w
    ensures best.0 < |m| && best.1 < w
  {
    if k == 0 then cur
    else
      var prev := ScanRow(m, w, cur, b, k - 1);
      if m[b][k - 1] > m[prev.0][prev.1] then (b, k - 1) else prev
  }

  /** The scan of rows 0 .. r-1 from position (0, 0). */
  function ScanRows(m: seq<Row>, w: nat, r: nat): (best: (nat, nat))
    requires Width(m, w) && 0 < |m| && 0 < w && r <= |m|
    ensures best.0 < |m| && best.1 < w
  {
    if r == 0 then (0, 0) else ScanRow(m, w, ScanRows(m, w, r - 1), r - 1, w)
  }

  lemma {:induction false} ScanRowFirstMax(m: seq<Row>, w: nat, cur: (nat, nat), b: nat, k: nat)
    requires Width(m, w) && b < |m| && k <= w
    requires FirstMaxBefore(m, w, cur, b, 0)
    ensures FirstMaxBefore(m, w, ScanRow(m, w, cur, b, k), b, k)
  {
    if k > 0 {
      ScanRowFirstMax(m, w, cur, b, k - 1);
    }
  }

  lemma {:induction false} ScanRowsFirstMax(m: seq<Row>, w: nat, r: nat)
    requires Width(m, w) && 0 < |m| && 0 < w && r <= |m|
    ensures FirstMaxBefore(m, w, ScanRows(m, w, r), r, 0)
  {
    if r > 0 {
      ScanRowsFirstMax(m, w, r - 1);
      ScanRowFirstMax(m, w, ScanRows(m, w, r - 1), r - 1, w);
    }
  }

  /** The first position, in row-major order, of the largest entry. */
  function FirstMax(m: seq<Row>, w: nat): (best: (nat, nat))
    requires Width(m, w) && 0 < |m| && 0 < w
    ensures best.0 < |m| && best.1 < w
    ensures forall b, c :: 0 <= b < |m| && 0 <= c < w ==> m[b][c] <= m[best.0][best.1]
    ensures forall b, c :: 0 <= b < |m| && 0 <= c < w && Precedes(b, c, best.0, best.1) ==>
      m[b][c] < m[best.0][best.1]
  {
    ScanRowsFirstMax(m, w, |m|);
    ScanRows(m, w, |m|)
  }

  /** `np.unravel_index(out_dists_sampled.argmax(), shape)`: one row-major scan
      that keeps the first position of the largest entry seen. */
  method ArgMax(m: array2<real>) returns (box: nat, cls: nat)
    requires m.Length0 > 0 && m.Length1 > 0
    ensures (box, cls) == FirstMax(ToRows(m), m.Length1)
  {
    ghost var rows := ToRows(m);
    var w := m.Length1;
    box, cls := 0, 0;
    for b := 0 to m.Length0
      invariant (box, cls) == ScanRows(rows, w, b)
    {
      for c := 0 to w
        invariant (box, cls) == ScanRow(rows, w, ScanRows(rows, w, b), b, c)
      {
        if m[b, c] > m[box, cls] {
          box, cls := b, c;
        }
      }
    }
  }

  // ---------------------------------------------------------------------------
  // Greedy per-class NMS

  /** Scores, commitments and the boxes picked so far, in order. */
  datatype NmsState = NmsState(scores: seq<Row>, commits: seq<nat>, picks: seq<nat>)

  /** After committing `cls` to `box`, sets that class's score to 0 for every
      box that overlaps `box` in that class. As written, the rows of boxes
      picked earlier (all -1) are zeroed too; otherwise only non-negative
      scores are. */
  function Suppress(m: seq<Row>, w: nat, overlap: (nat, nat, nat) -> bool, box: nat, cls: nat,
                    asWritten: bool): (r: seq<Row>)
    requires cls < w && Width(m, w)
    ensures |r| == |m| && Width(r, w)
  {
    seq(|m|, b requires 0 <= b < |m| =>
      if overlap(box, b, cls) && (asWritten || m[b][cls] >= 0.0) then m[b][cls := 0.0] else m[b])
  }

  function Retired(w: nat): (row: Row)
    ensures |row| == w && forall c :: 0 <= c < w ==> row[c] == -1.0
  {
    seq(w, _ => -1.0)
  }

  /** One iteration: pick the first maximum, commit its class to its box,
      suppress overlapping boxes in that class, retire the box's row. */
  function NmsStep(s: NmsState, w: nat, overlap: (nat, nat, nat) -> bool, asWritten: bool): (t: NmsState)
    requires w > 0 && Width(s.scores, w) && |s.scores| > 0 && |s.commits| == |s.scores|
    ensures |t.scores| == |s.scores| && Width(t.scores, w) && |t.commits| == |s.commits|
    ensures |t.picks| == |s.picks| + 1
  {
    var (box, cls) := FirstMax(s.scores, w);
    var sup := Suppress(s.scores, w, overlap, box, cls, asWritten);
    NmsState(sup[box := Retired(w)], s.commits[box := cls], s.picks + [box])
  }

  /** Commitment 0 (background) for each of n boxes. */
  function NoClass(n: nat): (z: seq<nat>)
    ensures |z| == n && forall b :: 0 <= b < n ==> z[b] == 0
  {
    seq(n, _ => 0)
  }

  /** The state after k iterations, from the scores with all commitments 0. */
  function Nms(scores: seq<Row>, w: nat, overlap: (nat, nat, nat) -> bool, k: nat, asWritten: bool): (s: NmsState)
    requires w > 0 && Width(scores, w) && |scores| > 0
    ensures |s.scores| == |scores| && Width(s.scores, w) && |s.commits| == |scores| && |s.picks| == k
  {
    if k == 0 then NmsState(scores, NoClass(|scores|), [])
    else NmsStep(Nms(scores, w, overlap, k - 1, asWritten), w, overlap, asWritten)
  }

  /** The NMS loop's invariant: the picked boxes are distinct, their rows are
      all -1, every other row is non-negative, and every commitment is a class. */
  ghost predicate PickedRetired(s: NmsState, w: nat)
  {
    (forall i :: 0 <= i < |s.picks| ==> s.picks[i] < |s.scores|) &&
    (forall i, j :: 0 <= i < j < |s.picks| ==> s.picks[i] != s.picks[j]) &&
    (forall b :: 0 <= b < |s.scores| && b in s.picks ==> forall c :: 0 <= c < |s.scores[b]| ==> s.scores[b][c] == -1.0) &&
    (forall b :: 0 <= b < |s.scores| && b !in s.picks ==> forall c :: 0 <= c < |s.scores[b]| ==> s.scores[b][c] >= 0.0) &&
    (forall b :: 0 <= b < |s.commits| ==> s.commits[b] < w)
  }

  lemma SuppressAt(m: seq<Row>, w: nat, overlap: (nat, nat, nat) -> bool, box: nat, cls: nat, asWritten: bool)
    requires cls < w && Width(m, w)
    ensures forall b, c :: 0 <= b < |m| && 0 <= c < w ==>
      Suppress(m, w, overlap, box, cls, asWritten)[b][c] ==
        (if c == cls && overlap(box, b, cls) && (asWritten || m[b][cls] >= 0.0) then 0.0 else m[b][c])
  {
  }

  /** While a box is unpicked, the first maximum is non-negative, so it lies in
      an unpicked row. */
  lemma FirstMaxUnpicked(s: NmsState, w: nat)
    requires w > 0 && Width(s.scores, w) && |s.scores| > 0
    requires PickedRetired(s, w) && |s.picks| < |s.scores|
    ensures FirstMax(s.scores, w).0 !in s.picks
  {
    var free := UnpickedBox(s.picks, |s.scores|);
    assert s.scores[free][0] >= 0.0;
  }

  /** With suppression limited to unretired rows, a step picks a box not picked
      before, as long as one is left, and keeps the invariant. */
  lemma {:induction false} NmsStepPicksFresh(s: NmsState, w: nat, overlap: (nat, nat, nat) -> bool)
    requires w > 0 && Width(s.scores, w) && |s.scores| > 0 && |s.commits| == |s.scores|
    requires PickedRetired(s, w) && |s.picks| < |s.scores|
    ensures NmsStep(s, w, overlap, false).picks[|s.picks|] !in s.picks
    ensures PickedRetired(NmsStep(s, w, overlap, false), w)
  {
    var m, n := s.scores, |s.scores|;
    var (box, cls) := FirstMax(m, w);
    FirstMaxUnpicked(s, w);
    var sup := Suppress(m, w, overlap, box, cls, false);
    SuppressAt(m, w, overlap, box, cls, false);
    var t := NmsStep(s, w, overlap, false);
    assert t == NmsState(sup[box := Retired(w)], s.commits[box := cls], s.picks + [box]);
    forall b | 0 <= b < n && b in t.picks
      ensures forall c :: 0 <= c < |t.scores[b]| ==> t.scores[b][c] == -1.0
    {
      if b != box {
        assert b in s.picks;
        assert m[b][cls] == -1.0;
      }
    }
    forall b | 0 <= b < n && b !in t.picks
      ensures forall c :: 0 <= c < |t.scores[b]| ==> t.scores[b][c] >= 0.0
    {
      assert b !in s.picks && b != box;
    }
  }

  /** A box below n that is not among fewer than n distinct picks. */
  lemma {:induction false} UnpickedBox(picks: seq<nat>, n: nat) returns (b: nat)
    requires |picks| < n
    requires forall i :: 0 <= i < |picks| ==> picks[i] < n
    requires forall i, j :: 0 <= i < j < |picks| ==> picks[i] != picks[j]
    ensures b < n && b !in picks
    decreases n
  {
    if n - 1 !in picks {
      return n - 1;
    }
    var k :| 0 <= k < |picks| && picks[k] == n - 1;
    var rest := RemoveAt(picks, k, n);
    b := UnpickedBox(rest, n - 1);
  }

  /** Dropping the one occurrence of n - 1 from distinct picks below n leaves
      distinct picks below n - 1 that cover the rest. */
  lemma RemoveAt(picks: seq<nat>, k: nat, n: nat) returns (rest: seq<nat>)
    requires k < |picks| && picks[k] == n - 1
    requires forall i :: 0 <= i < |picks| ==> picks[i] < n
    requires forall i, j :: 0 <= i < j < |picks| ==> picks[i] != picks[j]
    ensures |rest| == |picks| - 1
    ensures forall i :: 0 <= i < |rest| ==> rest[i] < n - 1
    ensures forall i, j :: 0 <= i < j < |rest| ==> rest[i] != rest[j]
    ensures forall x :: x in picks ==> x == n - 1 || x in rest
  {
    rest := picks[..k] + picks[k + 1..];
    forall i | 0 <= i < |rest| ensures rest[i] == picks[if i < k then i else i + 1] {
    }
    forall i, j | 0 <= i < j < |rest| ensures rest[i] != rest[j] {
      assert rest[i] == picks[if i < k then i else i + 1];
      assert rest[j] == picks[if j < k then j else j + 1];
    }
    forall x | x in picks ensures x == n - 1 || x in rest {
      var i :| 0 <= i < |picks| && picks[i] == x;
      if i < k {
        assert rest[i] == x;
      } else if i > k {
        assert rest[i - 1] == x;
      }
    }
  }

  /** With suppression limited to unretired rows and non-negative scores, the
      n iterations pick every box exactly once and commit a class to each. */
  lemma {:induction false} NmsPicksEveryBoxOnce(scores: seq<Row>, w: nat, overlap: (nat, nat, nat) -> bool, k: nat)
    requires w > 0 && Width(scores, w) && |scores| > 0 && k <= |scores|
    requires forall b, c :: 0 <= b < |scores| && 0 <= c < w ==> scores[b][c] >= 0.0
    ensures PickedRetired(Nms(scores, w, overlap, k, false), w)
    ensures k == |scores| ==> IsPermutation(Nms(scores, w, overlap, k, false).picks, |scores|)
    ensures forall b :: 0 <= b < |scores| ==> Nms(scores, w, overlap, k, false).commits[b] < w
  {
    if k > 0 {
      NmsPicksEveryBoxOnce(scores, w, overlap, k - 1);
      NmsStepPicksFresh(Nms(scores, w, overlap, k - 1, false), w, overlap);
    }
  }

  /** The invariant of the loop as written: picks are boxes, the rows of picked
      boxes hold nothing positive (-1, or 0 where a later suppression reached
      them), every other row is non-negative, and every commitment is a class. */
  ghost predicate PickedAtMostZero(s: NmsState, w: nat)
  {
    (forall i :: 0 <= i < |s.picks| ==> s.picks[i] < |s.scores|) &&
    (forall b :: 0 <= b < |s.scores| && b in s.picks ==> forall c :: 0 <= c < |s.scores[b]| ==> s.scores[b][c] <= 0.0) &&
    (forall b :: 0 <= b < |s.scores| && b !in s.picks ==> forall c :: 0 <= c < |s.scores[b]| ==> s.scores[b][c] >= 0.0) &&
    (forall b :: 0 <= b < |s.commits| ==> s.commits[b] < w)
  }

  /** A step as written keeps that invariant, and it picks a box not picked
      before whenever some unpicked box still has a positive score. */
  lemma {:induction false} AsWrittenStep(s: NmsState, w: nat, overlap: (nat, nat, nat) -> bool)
    requires w > 0 && Width(s.scores, w) && |s.scores| > 0 && |s.commits| == |s.scores|
    requires PickedAtMostZero(s, w)
    ensures PickedAtMostZero(NmsStep(s, w, overlap, true), w)
    ensures (exists b, c :: 0 <= b < |s.scores| && b !in s.picks && 0 <= c < w && s.scores[b][c] > 0.0) ==>
      NmsStep(s, w, overlap, true).picks[|s.picks|] !in s.picks
  {
    var m, n := s.scores, |s.scores|;
    var (box, cls) := FirstMax(m, w);
    var sup := Suppress(m, w, overlap, box, cls, true);
    SuppressAt(m, w, overlap, box, cls, true);
    var t := NmsStep(s, w, overlap, true);
    assert t == NmsState(sup[box := Retired(w)], s.commits[box := cls], s.picks + [box]);
    forall b | 0 <= b < n && b in t.picks
      ensures forall c :: 0 <= c < |t.scores[b]| ==> t.scores[b][c] <= 0.0
    {
      if b != box {
        assert b in s.picks;
      }
    }
    forall b | 0 <= b < n && b !in t.picks
      ensures forall c :: 0 <= c < |t.scores[b]| ==> t.scores[b][c] >= 0.0
    {
      assert b !in s.picks && b != box;
    }
    if exists b, c :: 0 <= b < n && b !in s.picks && 0 <= c < w && m[b][c] > 0.0 {
      var b, c :| 0 <= b < n && b !in s.picks && 0 <= c < w && m[b][c] > 0.0;
      assert m[box][cls] > 0.0;
      assert t.picks[|s.picks|] == box;
    }
  }

  /** On non-negative scores the loop as written keeps its invariant for any
      number of iterations: in particular every commitment is a class. */
  lemma {:induction false} NmsAsWrittenKeepsClasses(scores: seq<Row>, w: nat, overlap: (nat, nat, nat) -> bool, k: nat)
    requires w > 0 && Width(scores, w) && |scores| > 0
    requires forall b, c :: 0 <= b < |scores| && 0 <= c < w ==> scores[b][c] >= 0.0
    ensures PickedAtMostZero(Nms(scores, w, overlap, k, true), w)
    ensures forall b :: 0 <= b < |scores| ==> Nms(scores, w, overlap, k, true).commits[b] < w
  {
    if k > 0 {
      NmsAsWrittenKeepsClasses(scores, w, overlap, k - 1);
      AsWrittenStep(Nms(scores, w, overlap, k - 1, true), w, overlap);
    }
  }

  /** As written, iteration k + 1 picks a box again only once every unpicked
      box has had all its scores suppressed to 0. */
  lemma AsWrittenRepicksOnlyAtZero(scores: seq<Row>, w: nat, overlap: (nat, nat, nat) -> bool, k: nat)
    requires w > 0 && Width(scores, w) && |scores| > 0
    requires forall b, c :: 0 <= b < |scores| && 0 <= c < w ==> scores[b][c] >= 0.0
    ensures var s := Nms(scores, w, overlap, k, true);
      Nms(scores, w, overlap, k + 1, true).picks[k] in s.picks ==>
        forall b, c :: 0 <= b < |scores| && b !in s.picks && 0 <= c < w ==> s.scores[b][c] == 0.0
  {
    var s := Nms(scores, w, overlap, k, true);
    NmsAsWrittenKeepsClasses(scores, w, overlap, k);
    AsWrittenStep(s, w, overlap);
  }

  /** As written, a retired row whose -1 in class c was overwritten by a later
      suppression in class c becomes a 0; when every unretired score has been
      suppressed to 0 that retired box is the first maximum and is picked again.
      Box 1 is picked twice (its class 2 replaced by class 1) and box 2 never. */
  lemma AsWrittenPicksRetiredBox()
    ensures var s := Nms(ReselectScores(), 3, ReselectOverlap, 3, true);
      s.picks == [1, 0, 1] && s.commits == [1, 1, 0]
    ensures var s := Nms(ReselectScores(), 3, ReselectOverlap, 3, false);
      s.picks == [1, 0, 2] && s.commits == [1, 2, 0]
  {
    var m0 := ReselectScores();
    var m1: seq<Row> := [[0.0, 0.6, 0.3], [-1.0, -1.0, -1.0], [0.0, 0.5, 0.0]];
    var s1 := NmsState(m1, [0, 2, 0], [1]);
    assert Nms(m0, 3, ReselectOverlap, 0, true) == NmsState(m0, [0, 0, 0], []);
    assert Nms(m0, 3, ReselectOverlap, 0, false) == NmsState(m0, [0, 0, 0], []);
    ReselectFirstStep(true);
    ReselectFirstStep(false);
    assert Nms(m0, 3, ReselectOverlap, 1, true) == s1;
    assert Nms(m0, 3, ReselectOverlap, 1, false) == s1;
    ReselectSecondStep();
    ReselectSecondStepCorrected();
    var s2 := NmsState([[-1.0, -1.0, -1.0], [-1.0, 0.0, -1.0], [0.0, 0.0, 0.0]], [1, 2, 0], [1, 0]);
    var s2' := NmsState([[-1.0, -1.0, -1.0], [-1.0, -1.0, -1.0], [0.0, 0.0, 0.0]], [1, 2, 0], [1, 0]);
    assert Nms(m0, 3, ReselectOverlap, 2, true) == s2;
    assert Nms(m0, 3, ReselectOverlap, 2, false) == s2';
    ReselectThirdStep();
    ReselectThirdStepCorrected();
  }

  /** Both variants first pick box 1 in class 2 and suppress box 2 in class 2. */
  lemma ReselectFirstStep(asWritten: bool)
    ensures NmsStep(NmsState(ReselectScores(), [0, 0, 0], []), 3, ReselectOverlap, asWritten) ==
      NmsState([[0.0, 0.6, 0.3], [-1.0, -1.0, -1.0], [0.0, 0.5, 0.0]], [0, 2, 0], [1])
  {
    var m0 := ReselectScores();
    FirstMaxAt(m0, 3, 1, 2);
    assert Retired(3) == [-1.0, -1.0, -1.0];
    var sup := Suppress(m0, 3, ReselectOverlap, 1, 2, asWritten);
    assert !ReselectOverlap(1, 0, 2) && ReselectOverlap(1, 2, 2);
    assert sup[0] == m0[0];
    assert m0[2][2 := 0.0] == [0.0, 0.5, 0.0];
    assert sup[2] == [0.0, 0.5, 0.0];
  }

  /** Both variants then pick box 0 in class 1; as written, the suppression
      in class 1 also overwrites the -1 of the retired row 1. */
  lemma ReselectSecondStep()
    ensures NmsStep(NmsState([[0.0, 0.6, 0.3], [-1.0, -1.0, -1.0], [0.0, 0.5, 0.0]], [0, 2, 0], [1]),
                    3, ReselectOverlap, true) ==
      NmsState([[-1.0, -1.0, -1.0], [-1.0, 0.0, -1.0], [0.0, 0.0, 0.0]], [1, 2, 0], [1, 0])
  {
    var m1: seq<Row> := [[0.0, 0.6, 0.3], [-1.0, -1.0, -1.0], [0.0, 0.5, 0.0]];
    FirstMaxAt(m1, 3, 0, 1);
    assert Retired(3) == [-1.0, -1.0, -1.0];
    assert ReselectOverlap(0, 1, 1) && ReselectOverlap(0, 2, 1);
    assert m1[1][1 := 0.0] == [-1.0, 0.0, -1.0] && m1[2][1 := 0.0] == [0.0, 0.0, 0.0];
    var sup := Suppress(m1, 3, ReselectOverlap, 0, 1, true);
    assert sup[1] == [-1.0, 0.0, -1.0] && sup[2] == [0.0, 0.0, 0.0];
  }

  /** Corrected, the retired row 1 keeps its -1. */
  lemma ReselectSecondStepCorrected()
    ensures NmsStep(NmsState([[0.0, 0.6, 0.3], [-1.0, -1.0, -1.0], [0.0, 0.5, 0.0]], [0, 2, 0], [1]),
                    3, ReselectOverlap, false) ==
      NmsState([[-1.0, -1.0, -1.0], [-1.0, -1.0, -1.0], [0.0, 0.0, 0.0]], [1, 2, 0], [1, 0])
  {
    var m1: seq<Row> := [[0.0, 0.6, 0.3], [-1.0, -1.0, -1.0], [0.0, 0.5, 0.0]];
    FirstMaxAt(m1, 3, 0, 1);
    assert Retired(3) == [-1.0, -1.0, -1.0];
    assert ReselectOverlap(0, 2, 1);
    assert m1[2][1 := 0.0] == [0.0, 0.0, 0.0];
    var sup := Suppress(m1, 3, ReselectOverlap, 0, 1, false);
    assert sup[1] == m1[1] && sup[2] == [0.0, 0.0, 0.0];
  }

  /** As written the third pick is the retired box 1: its zero in class 1 is
      the first maximum. */
  lemma ReselectThirdStep()
    ensures var t := NmsStep(NmsState([[-1.0, -1.0, -1.0], [-1.0, 0.0, -1.0], [0.0, 0.0, 0.0]], [1, 2, 0], [1, 0]),
                             3, ReselectOverlap, true);
      t.picks == [1, 0, 1] && t.commits == [1, 1, 0]
  {
    FirstMaxAt([[-1.0, -1.0, -1.0], [-1.0, 0.0, -1.0], [0.0, 0.0, 0.0]], 3, 1, 1);
  }

  /** Corrected, the third pick is box 2, in class 0. */
  lemma ReselectThirdStepCorrected()
    ensures var t := NmsStep(NmsState([[-1.0, -1.0, -1.0], [-1.0, -1.0, -1.0], [0.0, 0.0, 0.0]], [1, 2, 0], [1, 0]),
                             3, ReselectOverlap, false);
      t.picks == [1, 0, 2] && t.commits == [1, 2, 0]
  {
    FirstMaxAt([[-1.0, -1.0, -1.0], [-1.0, -1.0, -1.0], [0.0, 0.0, 0.0]], 3, 2, 0);
  }

  /** A position holding the largest entry, with only smaller entries before
      it, is the first maximum. */
  lemma FirstMaxAt(m: seq<Row>, w: nat, b: nat, c: nat)
    requires Width(m, w) && b < |m| && c < w
    requires forall b', c' :: 0 <= b' < |m| && 0 <= c' < w ==> m[b'][c'] <= m[b][c]
    requires forall b', c' :: 0 <= b' < |m| && 0 <= c' < w && Precedes(b', c', b, c) ==> m[b'][c'] < m[b][c]
    ensures FirstMax(m, w) == (b, c)
  {
  }

  /** Softmax scores of three boxes over three classes, class 0 already zeroed. */
  function ReselectScores(): (m: seq<Row>)
    ensures |m| == 3 && Width(m, 3)
  {
    [[0.0, 0.6, 0.3], [0.0, 0.05, 0.9], [0.0, 0.5, 0.4]]
  }

  /** Every box overlaps itself; in class 1 all boxes overlap; in class 2
      boxes 1 and 2 overlap. */
  function ReselectOverlap(box: nat, b: nat, cls: nat): bool
  {
    box == b || cls == 1 || (cls == 2 && box + b == 3 && box != 0 && b != 0)
  }

  lemma RowsOfArray(m: array2<real>, rows: seq<Row>)
    requires |rows| == m.Length0 && Width(rows, m.Length1)
    requires forall b, c :: 0 <= b < m.Length0 && 0 <= c < m.Length1 ==> m[b, c] == rows[b][c]
    ensures ToRows(m) == rows
  {
    var a := ToRows(m);
    forall b | 0 <= b < m.Length0 ensures a[b] == rows[b] {
      forall c | 0 <= c < m.Length1 ensures a[b][c] == rows[b][c] {
        assert a[b][c] == m[b, c];
      }
    }
  }

  /** `out_dists_sampled[is_overlap[box, :, cls], cls] = 0.0`: as written on
      every overlapping box, retired or not; corrected only on the boxes not
      yet retired. */
  method SuppressColumn(m: array2<real>, overlap: (nat, nat, nat) -> bool, box: nat, cls: nat, asWritten: bool)
    requires cls < m.Length1
    modifies m
    ensures ToRows(m) == Suppress(old(ToRows(m)), m.Length1, overlap, box, cls, asWritten)
  {
    ghost var before := ToRows(m);
    for b := 0 to m.Length0
      invariant forall b', c :: 0 <= b' < m.Length0 && 0 <= c < m.Length1 ==>
        m[b', c] == (if b' < b then Suppress(before, m.Length1, overlap, box, cls, asWritten)[b'][c] else before[b'][c])
    {
      if overlap(box, b, cls) && (asWritten || m[b, cls] >= 0.0) {
        m[b, cls] := 0.0;
      }
    }
    RowsOfArray(m, Suppress(before, m.Length1, overlap, box, cls, asWritten));
  }

  /** `out_dists_sampled[box] = -1.0`. */
  method RetireRow(m: array2<real>, box: nat)
    requires box < m.Length0
    modifies m
    ensures ToRows(m) == old(ToRows(m))[box := Retired(m.Length1)]
  {
    ghost var before := ToRows(m);
    for c := 0 to m.Length1
      invariant forall b, c' :: 0 <= b < m.Length0 && 0 <= c' < m.Length1 ==>
        m[b, c'] == (if b == box && c' < c then -1.0 else before[b][c'])
    {
      m[box, c] := -1.0;
    }
    RowsOfArray(m, before[box := Retired(m.Length1)]);
  }

  /** The greedy loop (one iteration per box); as written its suppression also
      reaches retired boxes, corrected it does not. */
  method GreedyNms(m: array2<real>, overlap: (nat, nat, nat) -> bool, asWritten: bool)
    returns (commit: array<nat>, ghost picks: seq<nat>)
    requires m.Length0 > 0 && m.Length1 > 0
    modifies m
    ensures fresh(commit)
    ensures NmsState(ToRows(m), commit[..], picks) == Nms(old(ToRows(m)), m.Length1, overlap, m.Length0, asWritten)
  {
    var w := m.Length1;
    ghost var scores := ToRows(m);
    commit := new nat[m.Length0](_ => 0);
    picks := [];
    assert commit[..] == NoClass(m.Length0);
    for i := 0 to m.Length0
      invariant NmsState(ToRows(m), commit[..], picks) == Nms(scores, w, overlap, i, asWritten)
    {
      picks := NmsIteration(m, commit, overlap, asWritten, picks);
    }
  }

  /** One iteration of the NMS loop on the score matrix and the commitments:
      `NmsStep`. */
  method NmsIteration(m: array2<real>, commit: array<nat>, overlap: (nat, nat, nat) -> bool, asWritten: bool,
                      ghost picks: seq<nat>)
    returns (ghost picks': seq<nat>)
    requires m.Length0 > 0 && m.Length1 > 0 && commit.Length == m.Length0
    modifies m, commit
    ensures NmsState(ToRows(m), commit[..], picks') ==
            NmsStep(NmsState(old(ToRows(m)), old(commit[..]), picks), m.Length1, overlap, asWritten)
  {
    ghost var s := NmsState(ToRows(m), commit[..], picks);
    var box, cls := ArgMax(m);
    commit[box] := cls;
    SuppressColumn(m, overlap, box, cls, asWritten);
    RetireRow(m, box);
    picks' := picks + [box];
    assert NmsStep(s, m.Length1, overlap, asWritten) == NmsState(ToRows(m), commit[..], picks');
  }

  // ---------------------------------------------------------------------------
  // The decoder's forward pass

  /** What the decoding tree LSTM leaves behind after visiting every tree:
      per-node class scores and commitments, and the order that maps output
      rows back to nodes. */
  datatype TreeIO = TreeIO(dists: seq<Row>, commitments: seq<nat>, order: seq<nat>)

  /** The softmax yields a non-negative row of the same width. */
  ghost predicate NonNegativeSoftmax(softmax: Row -> Row)
  {
    forall v :: |softmax(v)| == |v| && forall c :: 0 <= c < |v| ==> softmax(v)[c] >= 0.0
  }

  /** Softmax scores with the background column set to 0. */
  function NmsScores(softmax: Row -> Row, dists: seq<Row>, w: nat): (m: seq<Row>)
    requires NonNegativeSoftmax(softmax) && Width(dists, w)
    ensures |m| == |dists| && Width(m, w)
    ensures forall b, c :: 0 <= b < |m| && 0 <= c < w ==> m[b][c] >= 0.0
  {
    seq(|dists|, b requires 0 <= b < |dists| =>
      var row := softmax(dists[b]);
      if row == [] then row else row[0 := 0.0])
  }

  /** Box b overlaps box `box` in class c when their IoU reaches the threshold. */
  function OverlapAt(iou: (nat, nat, nat) -> real, thresh: real): (overlap: (nat, nat, nat) -> bool)
    ensures forall box, b, c :: overlap(box, b, c) <==> iou(box, b, c) >= thresh
  {
    (box: nat, b: nat, c: nat) => iou(box, b, c) >= thresh
  }

  /** The post-processing NMS on a non-empty batch, as written: the
      commitments it leaves, one class per box. */
  method NmsCommitments(softmax: Row -> Row, dists: seq<Row>, w: nat, overlap: (nat, nat, nat) -> bool)
    returns (commits: seq<nat>)
    requires NonNegativeSoftmax(softmax) && Width(dists, w) && w > 0 && |dists| > 0
    ensures commits == Nms(NmsScores(softmax, dists, w), w, overlap, |dists|, true).commits
    ensures |commits| == |dists| && forall b :: 0 <= b < |commits| ==> commits[b] < w
  {
    var n := |dists|;
    var scores := NmsScores(softmax, dists, w);
    var m := new real[n, w]((b, c) requires 0 <= b < n && 0 <= c < w => scores[b][c]);
    RowsOfArray(m, scores);
    var commit, picks := GreedyNms(m, overlap, true);
    NmsAsWrittenKeepsClasses(scores, w, overlap, n);
    commits := commit[..];
  }

  /** The commitments of evaluation with boxes: those the NMS as written
      commits to the n boxes of `dists` (each a class below w), followed by
      class 0 for the `batchSize` dropped rows. */
  ghost predicate NmsPadded(commits: seq<nat>, dists: seq<Row>, w: nat, softmax: Row -> Row,
                            overlap: (nat, nat, nat) -> bool, batchSize: nat)
  {
    |commits| == |dists| + batchSize &&
    (forall b :: 0 <= b < |dists| ==> commits[b] < w) &&
    (forall b :: |dists| <= b < |commits| ==> commits[b] == 0) &&
    (w > 0 && |dists| > 0 && Width(dists, w) && NonNegativeSoftmax(softmax) ==>
      commits[..|dists|] == Nms(NmsScores(softmax, dists, w), w, overlap, |dists|, true).commits)
  }

  class DecoderHrTreeLSTM {
    const numClasses: nat
    const decoder: Option<Direction>
    const nmsThresh: real
    var training: bool

    constructor(numClasses: nat, direction: string)
      ensures this.numClasses == numClasses && decoder == DirectionOf(direction)
      ensures nmsThresh == 0.5 && training
    {
      this.numClasses := numClasses;
      decoder := DirectionOf(direction);
      nmsThresh := 0.5;
      training := true;
    }

    /** The commitments returned for the sorted `dists`: the labels while
        training with labels; otherwise the tree's commitments, replaced in
        evaluation with boxes by the greedy NMS (as written) over the class
        probabilities, followed by class 0 for the `batchSize` dropped rows.
        Zeroing the background column fails when there is no class column. */
    method Commitments(dists: seq<Row>, committed: seq<nat>, labels: Option<seq<nat>>,
                       iou: Option<(nat, nat, nat) -> real>, softmax: Row -> Row, batchSize: nat)
      returns (r: Result<seq<nat>, string>)
      requires Width(dists, numClasses) && NonNegativeSoftmax(softmax)
      ensures r.Err? <==> iou.Some? && !training && numClasses == 0
      ensures r.Err? ==> r.error == NoClassColumnError
      ensures r.Ok? && training && labels.Some? ==> r.value == labels.value
      ensures r.Ok? && !(training && labels.Some?) && (iou.None? || training) ==>
        r.value == committed + NoClass(batchSize)
      ensures r.Ok? && !training && iou.Some? ==>
        NmsPadded(r.value, dists, numClasses, softmax, OverlapAt(iou.value, nmsThresh), batchSize)
    {
      var commits := committed;
      if iou.Some? && !training {
        if numClasses == 0 {
          return Err(NoClassColumnError);
        } else if |dists| == 0 {
          commits := [];
        } else {
          commits := NmsCommitments(softmax, dists, numClasses, OverlapAt(iou.value, nmsThresh));
        }
      }
      if training && labels.Some? {
        return Ok(labels.value);
      }
      var padding := NoClass(batchSize);
      assert (commits + padding)[..|commits|] == commits;
      r := Ok(commits + padding);
    }

    /** `io` is the state after the tree LSTM has visited every tree of
        `forest` (None while its outputs are still unset); with no tree it
        writes no output, so the outputs are unset whatever `io` holds. `iou`
        gives the per-class overlap of two boxes when boxes for NMS are
        supplied. */
    method Forward<Tree>(forest: seq<Tree>, io: Option<TreeIO>, labels: Option<seq<nat>>,
                         iou: Option<(nat, nat, nat) -> real>, softmax: Row -> Row, batchSize: nat)
      returns (r: Result<(seq<Row>, seq<nat>), string>)
      requires io.Some? ==> |io.value.dists| == |io.value.commitments| && Width(io.value.dists, numClasses)
      requires io.Some? ==> forall k :: 0 <= k < |io.value.order| ==> io.value.order[k] < |io.value.dists|
      requires NonNegativeSoftmax(softmax)
      ensures r.Err? <==> (forest == [] || decoder.None? || io.None? ||
        (iou.Some? && !training && numClasses == 0))
      ensures forest == [] ==> r == Err(NoOutputsError)
      ensures r.Ok? ==> r.value.0 == DropLast(Gather(io.value.dists, io.value.order), batchSize)
      ensures r.Ok? && training && labels.Some? ==> r.value.1 == labels.value
      ensures r.Ok? && !(training && labels.Some?) && (iou.None? || training) ==>
        r.value.1 == DropLast(Gather(io.value.commitments, io.value.order), batchSize) + NoClass(batchSize)
      ensures r.Ok? && !training && iou.Some? ==>
        NmsPadded(r.value.1, r.value.0, numClasses, softmax, OverlapAt(iou.value, nmsThresh), batchSize)
    {
      if forest != [] && decoder.None? {
        r := Err(NoDecoderError);
      } else if forest == [] || io.None? {
        r := Err(NoOutputsError);
      } else {
        var out := io.value;
        var dists := DropLast(Gather(out.dists, out.order), batchSize);
        assert |dists| == |DropLast(out.order, batchSize)|;
        var commitments := Commitments(dists, DropLast(Gather(out.commitments, out.order), batchSize),
                                       labels, iou, softmax, batchSize);
        r := if commitments.Err? then Err(commitments.error) else Ok((dists, commitments.value));
      }
    }
  }
}
