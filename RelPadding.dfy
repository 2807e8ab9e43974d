/** Per-image relation padding of the caption model (`_PadRelFeats`,
    `_EvalPadRelFeats`): every image's contiguous run of relations is turned into
    exactly `numRelation` feature rows, each paired with the
    (subject class, object class, predicate class) triple of the relation it
    was read from. With a frequency table the run is first re-ranked by
    descending triple count; a long run is truncated, a short one is
    oversampled at caller-supplied indices (the model's stand-in for
    `np.random.choice(..., replace=True)`). */
module RelPadding {
  import opened Common

  /** The error raised by `torch.cat` on an empty list. */
  const EmptyCatError: string := "torch.cat(): expected a non-empty list of Tensors"

  /** One row of `categories_info`. */
  datatype Triple = Triple(subj: nat, obj: nat, pred: nat)

  /** One row of `rels`: image index, subject box index, object box index. */
  datatype Rel = Rel(im: nat, sub: nat, obj: nat)

  /** The padded relations of one image: `rel_feats_i` and `categories_info`,
      kept row-aligned. */
  datatype Padded<F> = Padded(feats: seq<F>, cats: seq<Triple>)

  /** The tensors agree in length and every box index points at a detection. */
  predicate WellFormed<F>(relFeats: seq<F>, rels: seq<Rel>, predClasses: seq<nat>, objClasses: seq<nat>)
  {
    |relFeats| == |rels| && |predClasses| == |rels| &&
    forall r :: 0 <= r < |rels| ==> rels[r].sub < |objClasses| && rels[r].obj < |objClasses|
  }

  /** `(obj_classes[rels[r,1]], obj_classes[rels[r,2]], pred_classes[r])`. */
  function TripleOf<F>(relFeats: seq<F>, rels: seq<Rel>, predClasses: seq<nat>, objClasses: seq<nat>, r: nat): Triple
    requires WellFormed(relFeats, rels, predClasses, objClasses) && r < |rels|
  {
    Triple(objClasses[rels[r].sub], objClasses[rels[r].obj], predClasses[r])
  }

  /** `categories_info` of the run `[s, e)`. */
  function Triples<F>(relFeats: seq<F>, rels: seq<Rel>, predClasses: seq<nat>, objClasses: seq<nat>,
                      s: nat, e: nat): (cats: seq<Triple>)
    requires WellFormed(relFeats, rels, predClasses, objClasses) && s <= e <= |rels|
    ensures |cats| == e - s
    ensures forall k :: 0 <= k < e - s ==> cats[k] == TripleOf(relFeats, rels, predClasses, objClasses, s + k)
  {
    seq(e - s, k requires 0 <= k < e - s => TripleOf(relFeats, rels, predClasses, objClasses, s + k))
  }

  /** The frequency-table count of every triple of a run, as sort keys. */
  function FreqKeys(freq: Triple -> nat, cats: seq<Triple>): (keys: seq<real>)
    ensures |keys| == |cats|
    ensures forall k :: 0 <= k < |cats| ==> keys[k] == freq(cats[k]) as real
  {
    seq(|cats|, k requires 0 <= k < |cats| => freq(cats[k]) as real)
  }

  /** What the oversampling draw must deliver when a run of `n` relations is
      shorter than the budget: `numRelation` indices into the run. */
  predicate SamplesFit(sampleInds: seq<nat>, numRelation: nat, n: nat)
  {
    numRelation > n ==> |sampleInds| == numRelation && forall k :: 0 <= k < |sampleInds| ==> sampleInds[k] < n
  }

  /** The order used to re-rank a run: any descending argsort of the counts. */
  predicate ValidOrder(freq: Option<Triple -> nat>, order: seq<nat>, cats: seq<Triple>)
  {
    freq.Some? ==> IsDescendingOrder(order, FreqKeys(freq.value, cats))
  }

  /** The padding of one run (`feats`, `cats` are the run's rows): re-rank by
      `order` when a frequency table is present, then keep the first
      `numRelation` rows or gather the rows at `sampleInds`. */
  function PadImage<F>(feats: seq<F>, cats: seq<Triple>, freq: Option<Triple -> nat>, order: seq<nat>,
                       numRelation: nat, sampleInds: seq<nat>): Padded<F>
    requires |feats| == |cats|
    requires ValidOrder(freq, order, cats)
    requires SamplesFit(sampleInds, numRelation, |feats|)
  {
    var rf := if freq.Some? then Gather(feats, order) else feats;
    var rc := if freq.Some? then Gather(cats, order) else cats;
    if numRelation <= |feats| then Padded(rf[..numRelation], rc[..numRelation])
    else Padded(Gather(rf, sampleInds), Gather(rc, sampleInds))
  }

  /** The row of the run that output row k is read from. */
  function SourceRow(freqOn: bool, order: seq<nat>, n: nat, numRelation: nat, sampleInds: seq<nat>, k: nat): nat
    requires k < numRelation
    requires numRelation > n ==> |sampleInds| == numRelation
    requires freqOn ==> |order| == n && (numRelation <= n || forall k :: 0 <= k < |sampleInds| ==> sampleInds[k] < n)
  {
    var picked := if numRelation <= n then k else sampleInds[k];
    if freqOn then order[picked] else picked
  }

  /** Each image contributes exactly `numRelation` rows, and feature row k and
      triple row k are read from the same relation of the run. */
  lemma PadImagePairing<F>(feats: seq<F>, cats: seq<Triple>, freq: Option<Triple -> nat>, order: seq<nat>,
                           numRelation: nat, sampleInds: seq<nat>)
    requires |feats| == |cats|
    requires ValidOrder(freq, order, cats)
    requires SamplesFit(sampleInds, numRelation, |feats|)
    ensures var p := PadImage(feats, cats, freq, order, numRelation, sampleInds);
      |p.feats| == numRelation && |p.cats| == numRelation &&
      forall k :: 0 <= k < numRelation ==>
        var src := SourceRow(freq.Some?, order, |feats|, numRelation, sampleInds, k);
        src < |feats| && p.feats[k] == feats[src] && p.cats[k] == cats[src]
  {
  }

  /** When the run is long enough the output is the first `numRelation` rows of
      the re-ranked run: rows come from distinct relations, and with a frequency
      table their counts never increase. */
  lemma TruncationKeepsTopRows<F>(feats: seq<F>, cats: seq<Triple>, freq: Option<Triple -> nat>, order: seq<nat>,
                                  numRelation: nat, sampleInds: seq<nat>)
    requires |feats| == |cats|
    requires ValidOrder(freq, order, cats)
    requires numRelation <= |feats|
    ensures var p := PadImage(feats, cats, freq, order, numRelation, sampleInds);
      (freq.None? ==> p.feats == feats[..numRelation] && p.cats == cats[..numRelation]) &&
      (freq.Some? ==> forall i, j :: 0 <= i < j < numRelation ==> freq.value(p.cats[i]) >= freq.value(p.cats[j])) &&
      (forall i, j :: 0 <= i < j < numRelation ==>
        SourceRow(freq.Some?, order, |feats|, numRelation, sampleInds, i) !=
        SourceRow(freq.Some?, order, |feats|, numRelation, sampleInds, j))
  {
    var p := PadImage(feats, cats, freq, order, numRelation, sampleInds);
    if freq.Some? {
      var keys := FreqKeys(freq.value, cats);
      forall i, j | 0 <= i < j < numRelation ensures freq.value(p.cats[i]) >= freq.value(p.cats[j]) {
        assert keys[order[i]] >= keys[order[j]];
      }
    }
  }

  /** Oversampling draws with replacement: a run's row may be repeated and
      another one left out. Rows `a`, `b`, three slots, every draw 0. */
  lemma OversamplingMayMissRows()
    ensures var p := PadImage([10, 20], [Triple(1, 2, 3), Triple(4, 5, 6)], None, [], 3, [0, 0, 0]);
      p.feats == [10, 10, 10] && 20 !in p.feats
  {
    var p := PadImage([10, 20], [Triple(1, 2, 3), Triple(4, 5, 6)], None, [], 3, [0, 0, 0]);
    assert p.feats == Gather([10, 20], [0, 0, 0]);
    assert p.feats == [10, 10, 10];
  }

  /** The run `[s, e)` as yielded by `enumerate_by_image`: non-empty, in range. */
  predicate ValidRun(run: (nat, nat), n: nat)
  {
    run.0 < run.1 <= n
  }

  predicate ValidRuns<F>(relFeats: seq<F>, rels: seq<Rel>, predClasses: seq<nat>, objClasses: seq<nat>,
                         runs: seq<(nat, nat)>, numRelation: nat, samples: seq<seq<nat>>)
  {
    WellFormed(relFeats, rels, predClasses, objClasses) && |samples| == |runs| &&
    forall j :: 0 <= j < |runs| ==>
      ValidRun(runs[j], |rels|) && SamplesFit(samples[j], numRelation, runs[j].1 - runs[j].0)
  }

  /** The re-ranking order the model uses for run j (a stable descending argsort). */
  function RunOrder<F>(relFeats: seq<F>, rels: seq<Rel>, predClasses: seq<nat>, objClasses: seq<nat>,
                       runs: seq<(nat, nat)>, freq: Option<Triple -> nat>, j: nat): (order: seq<nat>)
    requires WellFormed(relFeats, rels, predClasses, objClasses)
    requires j < |runs| && ValidRun(runs[j], |rels|)
    ensures ValidOrder(freq, order, Triples(relFeats, rels, predClasses, objClasses, runs[j].0, runs[j].1))
  {
    if freq.Some? then ArgsortDesc(FreqKeys(freq.value, Triples(relFeats, rels, predClasses, objClasses, runs[j].0, runs[j].1)))
    else []
  }

  /** The padding of image j. */
  function ImagePadding<F>(relFeats: seq<F>, rels: seq<Rel>, predClasses: seq<nat>, objClasses: seq<nat>,
                           runs: seq<(nat, nat)>, numRelation: nat, freq: Option<Triple -> nat>,
                           samples: seq<seq<nat>>, j: nat): Padded<F>
    requires ValidRuns(relFeats, rels, predClasses, objClasses, runs, numRelation, samples)
    requires j < |runs|
  {
    var (s, e) := runs[j];
    PadImage(relFeats[s..e], Triples(relFeats, rels, predClasses, objClasses, s, e), freq,
             RunOrder(relFeats, rels, predClasses, objClasses, runs, freq, j), numRelation, samples[j])
  }

  /** `[x] * n`. */
  function Repeat<T>(x: T, n: nat): (r: seq<T>)
    ensures |r| == n && forall i :: 0 <= i < n ==> r[i] == x
  {
    seq(n, _ => x)
  }

  /** The body of the per-image loop: slice the run, build its triples, re-rank
      by frequency, then truncate or oversample. */
  method PadRun<F>(relFeats: seq<F>, rels: seq<Rel>, predClasses: seq<nat>, objClasses: seq<nat>,
                   runs: seq<(nat, nat)>, numRelation: nat, freq: Option<Triple -> nat>,
                   samples: seq<seq<nat>>, j: nat)
    returns (padded: Padded<F>)
    requires ValidRuns(relFeats, rels, predClasses, objClasses, runs, numRelation, samples)
    requires j < |runs|
    ensures padded == ImagePadding(relFeats, rels, predClasses, objClasses, runs, numRelation, freq, samples, j)
  {
    var (s, e) := runs[j];
    var feats := relFeats[s..e];
    var cats := Triples(relFeats, rels, predClasses, objClasses, s, e);
    // frequency baseline: re-rank the run by descending triple count
    if freq.Some? {
      var sortIndex := ArgsortDesc(FreqKeys(freq.value, cats));
      feats := Gather(feats, sortIndex);
      cats := Gather(cats, sortIndex);
    }
    var thisNumRel := e - s;
    if numRelation <= thisNumRel {
      feats := feats[..numRelation];
      cats := cats[..numRelation];
    } else {
      // oversample at the drawn indices
      feats := Gather(feats, samples[j]);
      cats := Gather(cats, samples[j]);
    }
    padded := Padded(feats, cats);
  }

  /** `torch.cat` of `[x] * c` for every x of `pads`, in order. */
  function Expand<T>(pads: seq<T>, c: nat): seq<T>
  {
    if pads == [] then [] else Expand(pads[..|pads| - 1], c) + Repeat(pads[|pads| - 1], c)
  }

  lemma {:induction false} ExpandLength<T>(pads: seq<T>, c: nat)
    ensures |Expand(pads, c)| == |pads| * c
  {
    if pads != [] {
      ExpandLength(pads[..|pads| - 1], c);
      assert |pads| * c == (|pads| - 1) * c + c;
    }
  }

  lemma {:induction false} ExpandConcat<T>(a: seq<T>, b: seq<T>, c: nat)
    ensures Expand(a + b, c) == Expand(a, c) + Expand(b, c)
    decreases |b|
  {
    if b == [] {
      assert a + b == a;
    } else {
      var b0 := b[..|b| - 1];
      ExpandConcat(a, b0, c);
      assert (a + b)[..|a + b| - 1] == a + b0;
      assert (a + b)[|a + b| - 1] == b[|b| - 1];
      calc {
        Expand(a + b, c);
        Expand(a + b0, c) + Repeat(b[|b| - 1], c);
        Expand(a, c) + Expand(b0, c) + Repeat(b[|b| - 1], c);
        Expand(a, c) + (Expand(b0, c) + Repeat(b[|b| - 1], c));
      }
    }
  }

  /** The expansion has `c` rows per element, and block j (rows `j*c` up to
      `j*c + c`) holds `c` identical copies of element j. */
  lemma ExpandBlock<T>(pads: seq<T>, c: nat, j: nat)
    requires j < |pads|
    ensures |Expand(pads, c)| == |pads| * c
    ensures j * c + c <= |pads| * c && Expand(pads, c)[j * c .. j * c + c] == Repeat(pads[j], c)
  {
    var a, b := pads[..j], pads[j + 1..];
    assert pads == (a + [pads[j]]) + b;
    ExpandConcat(a + [pads[j]], b, c);
    ExpandConcat(a, [pads[j]], c);
    assert Expand([pads[j]], c) == Repeat(pads[j], c) by {
      assert [pads[j]][..0] == [];
    }
    ExpandLength(a, c);
    ExpandLength(b, c);
    ExpandLength(pads, c);
    SplitProduct(j, |b|, c);
    var e := Expand(pads, c);
    assert e == Expand(a, c) + Repeat(pads[j], c) + Expand(b, c);
  }

  lemma ExpandSnoc<T>(pads: seq<T>, c: nat, j: nat)
    requires j < |pads|
    ensures Expand(pads[..j + 1], c) == Expand(pads[..j], c) + Repeat(pads[j], c)
  {
    assert pads[..j + 1][..j] == pads[..j];
  }

  lemma NoCopies(images: nat, copies: nat)
    ensures images * copies == 0 <==> images == 0 || copies == 0
  {
    if images > 0 && copies > 0 {
      MulPositive(images, copies);
    }
  }

  lemma MulPositive(x: nat, y: nat)
    requires x > 0 && y > 0
    ensures x * y > 0
  {
  }

  lemma SplitProduct(x: nat, y: nat, c: nat)
    ensures (x + 1 + y) * c == x * c + c + y * c
  {
  }

  /** The padding of every image, in run order. */
  function AllPaddings<F>(relFeats: seq<F>, rels: seq<Rel>, predClasses: seq<nat>, objClasses: seq<nat>,
                          runs: seq<(nat, nat)>, numRelation: nat, freq: Option<Triple -> nat>,
                          samples: seq<seq<nat>>): (pads: seq<Padded<F>>)
    requires ValidRuns(relFeats, rels, predClasses, objClasses, runs, numRelation, samples)
    ensures |pads| == |runs|
    ensures forall j :: 0 <= j < |runs| ==>
      pads[j] == ImagePadding(relFeats, rels, predClasses, objClasses, runs, numRelation, freq, samples, j)
  {
    seq(|runs|, j requires 0 <= j < |runs| =>
      ImagePadding(relFeats, rels, predClasses, objClasses, runs, numRelation, freq, samples, j))
  }

  /** Training-mode padding (`_PadRelFeats`): `seqPerImg` consecutive copies of
      every image's padding, images in run order; concatenating the copies
      fails when there are none (no image, or no copy per image). */
  method PadRelFeats<F>(relFeats: seq<F>, rels: seq<Rel>, predClasses: seq<nat>, objClasses: seq<nat>,
                        runs: seq<(nat, nat)>, numRelation: nat, seqPerImg: nat,
                        freq: Option<Triple -> nat>, samples: seq<seq<nat>>)
    returns (r: Result<seq<Padded<F>>, string>)
    requires ValidRuns(relFeats, rels, predClasses, objClasses, runs, numRelation, samples)
    ensures r.Err? <==> runs == [] || seqPerImg == 0
    ensures r.Ok? ==>
      r.value == Expand(AllPaddings(relFeats, rels, predClasses, objClasses, runs, numRelation, freq, samples), seqPerImg)
    ensures r.Ok? ==> |r.value| == |runs| * seqPerImg
  {
    ghost var pads := AllPaddings(relFeats, rels, predClasses, objClasses, runs, numRelation, freq, samples);
    var out := [];
    for j := 0 to |runs|
      invariant out == Expand(pads[..j], seqPerImg)
    {
      var padded := PadRun(relFeats, rels, predClasses, objClasses, runs, numRelation, freq, samples, j);
      ExpandSnoc(pads, seqPerImg, j);
      out := out + Repeat(padded, seqPerImg);
    }
    assert pads[..|runs|] == pads;
    ExpandLength(pads, seqPerImg);
    NoCopies(|runs|, seqPerImg);
    if out == [] {
      return Err(EmptyCatError);
    }
    r := Ok(out);
  }

  /** Inference-mode padding (`_EvalPadRelFeats`): one padding per image;
      fails when there is no image. */
  method EvalPadRelFeats<F>(relFeats: seq<F>, rels: seq<Rel>, predClasses: seq<nat>, objClasses: seq<nat>,
                            runs: seq<(nat, nat)>, numRelation: nat,
                            freq: Option<Triple -> nat>, samples: seq<seq<nat>>)
    returns (r: Result<seq<Padded<F>>, string>)
    requires ValidRuns(relFeats, rels, predClasses, objClasses, runs, numRelation, samples)
    ensures r.Err? <==> runs == []
    ensures r.Ok? ==> r.value == AllPaddings(relFeats, rels, predClasses, objClasses, runs, numRelation, freq, samples)
  {
    r := PadRelFeats(relFeats, rels, predClasses, objClasses, runs, numRelation, 1, freq, samples);
    ExpandOnce(AllPaddings(relFeats, rels, predClasses, objClasses, runs, numRelation, freq, samples));
  }

  /** With one copy per image the expansion is the list of paddings itself. */
  lemma {:induction false} ExpandOnce<T>(pads: seq<T>)
    ensures Expand(pads, 1) == pads
  {
    if pads != [] {
      ExpandOnce(pads[..|pads| - 1]);
      assert pads == pads[..|pads| - 1] + [pads[|pads| - 1]];
    }
  }
}
