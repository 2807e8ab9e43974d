/** The two step loops of `RelCaptionModel` that do not use beams: the
    teacher-forced training rollout of `forward` (with scheduled sampling and a
    batch-level early stop) and the greedy/sampled decoding of `sample` (with a
    per-sequence `unfinished` mask). The recurrent step (embedding, attention
    core, projection, log-softmax) is an oracle `step` from the tokens fed and
    the recurrent state to an output and the next state; the random draws are
    oracles indexed by step and batch row. Tokens are naturals; 0 is both the
    start and the end symbol. */
module CaptionRollout {
  import opened Common

  /** The error raised by `torch.cat` on an empty list. */
  const EmptyCatError: string := "torch.cat: expected a non-empty list of tensors"

  /** The labels of one time step for the whole batch sum to zero: every
      caption of the batch has ended by this step (labels are never negative). */
  predicate ColumnEnded(col: seq<nat>)
  {
    Sum(col) == 0
  }

  // ---------------------------------------------------------------------------
  // Teacher-forced rollout (`forward`)
  // ---------------------------------------------------------------------------

  /** Oracles of the training rollout: the recurrent step, the scheduled
      sampling mask (`uniform_(0, 1) < ss_prob` for step i, row b) and the token
      drawn by `multinomial` from the previous step's output for row b. */
  datatype TeacherOracles<!S, !O> = TeacherOracles(
    step: (seq<nat>, S) -> (O, S),
    sampleMask: (nat, nat) -> bool,
    draw: (nat, nat, O) -> nat)

  /** One step of a rollout: the tokens fed and the output produced. */
  datatype Step<O> = Step(input: seq<nat>, output: O)

  function Outputs<O>(trace: seq<Step<O>>): (outs: seq<O>)
    ensures |outs| == |trace|
    ensures forall i :: 0 <= i < |trace| ==> outs[i] == trace[i].output
  {
    seq(|trace|, i requires 0 <= i < |trace| => trace[i].output)
  }

  lemma OutputsSnoc<O>(trace: seq<Step<O>>, s: Step<O>)
    ensures Outputs(trace + [s]) == Outputs(trace) + [s.output]
  {
    assert forall i :: 0 <= i < |trace| ==> (trace + [s])[i] == trace[i];
  }

  /** Scheduled sampling is active at step i. */
  predicate Sampling(training: bool, ssProb: real, i: nat)
  {
    training && i >= 1 && ssProb > 0.0
  }

  /** A label column in which the rows picked by `mask` carry the drawn token
      instead of the label (`torch.where`-style; an all-false mask leaves the
      column as it is). */
  function MaskColumn(col: seq<nat>, mask: nat -> bool, drawn: nat -> nat): (r: seq<nat>)
    ensures |r| == |col|
    ensures forall b :: 0 <= b < |col| ==> r[b] == if mask(b) then drawn(b) else col[b]
  {
    if col == [] then []
    else
      var b := |col| - 1;
      MaskColumn(col[..b], mask, drawn) + [if mask(b) then drawn(b) else col[b]]
  }

  /** The tokens fed at step i: the ground-truth column, except that rows picked
      by the sampling mask take the token drawn from the previous output. */
  function TeacherInput<S, O>(orc: TeacherOracles<S, O>, labels: seq<seq<nat>>, training: bool, ssProb: real,
                              i: nat, prev: Option<O>): seq<nat>
    requires i < |labels|
  {
    if Sampling(training, ssProb, i) && prev.Some? then
      MaskColumn(labels[i], (b: nat) => orc.sampleMask(i, b), (b: nat) => orc.draw(i, b, prev.value))
    else labels[i]
  }

  /** The rollout from step i on, with recurrent state `st` and the previous
      step's output `prev` (none before step 0). `labels` is column-major:
      `labels[i]` is `seq_labels[:, i]`. */
  function TeacherFrom<S, O>(orc: TeacherOracles<S, O>, labels: seq<seq<nat>>, training: bool, ssProb: real,
                             i: nat, st: S, prev: Option<O>): seq<Step<O>>
    decreases |labels| - i
  {
    if i + 1 >= |labels| then []
    else if i >= 1 && ColumnEnded(labels[i]) then []
    else
      var it := TeacherInput(orc, labels, training, ssProb, i, prev);
      var next := orc.step(it, st);
      [Step(it, next.0)] + TeacherFrom(orc, labels, training, ssProb, i + 1, next.1, Some(next.0))
  }

  /** The whole teacher-forced rollout from the initial recurrent state. */
  function Teacher<S, O>(orc: TeacherOracles<S, O>, labels: seq<seq<nat>>, training: bool, ssProb: real,
                         init: S): seq<Step<O>>
  {
    TeacherFrom(orc, labels, training, ssProb, 0, init, None)
  }

  /** `torch.cat` of the per-step columns: fails on an empty list. */
  function Cat<T>(cols: seq<T>): (r: Result<seq<T>, string>)
    ensures r.Ok? <==> cols != []
    ensures r.Ok? ==> r.value == cols
  {
    if cols == [] then Err(EmptyCatError) else Ok(cols)
  }

  /** The step loop of `forward`: feeds step after step, collects the outputs and
      stacks them. */
  method TeacherForcedRollout<S, O>(orc: TeacherOracles<S, O>, labels: seq<seq<nat>>, training: bool,
                                    ssProb: real, init: S)
    returns (r: Result<seq<O>, string>)
    ensures r == Cat(Outputs(Teacher(orc, labels, training, ssProb, init)))
  {
    var outputs := [];
    ghost var trace: seq<Step<O>> := [];
    var state := init;
    var prev: Option<O> := None;
    var i := 0;
    while i + 1 < |labels|
      invariant trace + TeacherFrom(orc, labels, training, ssProb, i, state, prev)
                == Teacher(orc, labels, training, ssProb, init)
      invariant outputs == Outputs(trace)
    {
      var it := TeacherInput(orc, labels, training, ssProb, i, prev);
      if i >= 1 && ColumnEnded(labels[i]) {
        assert TeacherFrom(orc, labels, training, ssProb, i, state, prev) == [];
        break;
      }
      var next := orc.step(it, state);
      ghost var rest := TeacherFrom(orc, labels, training, ssProb, i + 1, next.1, Some(next.0));
      assert TeacherFrom(orc, labels, training, ssProb, i, state, prev) == [Step(it, next.0)] + rest;
      assert (trace + [Step(it, next.0)]) + rest == trace + ([Step(it, next.0)] + rest);
      OutputsSnoc(trace, Step(it, next.0));
      trace := trace + [Step(it, next.0)];
      outputs := outputs + [next.0];
      state, prev := next.1, Some(next.0);
      i := i + 1;
    }
    assert TeacherFrom(orc, labels, training, ssProb, i, state, prev) == [];
    assert trace == Teacher(orc, labels, training, ssProb, init);
    assert outputs == Outputs(Teacher(orc, labels, training, ssProb, init));
    r := Cat(outputs);
  }

  /** The rollout from step i has at most `|labels| - 1 - i` steps, never stops
      at step 0, and ends exactly at the first later step whose label column has
      ended (or when the columns run out). */
  lemma {:induction false} TeacherFromStops<S, O>(orc: TeacherOracles<S, O>, labels: seq<seq<nat>>, training: bool,
                                                  ssProb: real, i: nat, st: S, prev: Option<O>)
    requires i < |labels|
    ensures var tr := TeacherFrom(orc, labels, training, ssProb, i, st, prev);
      i + |tr| + 1 <= |labels| &&
      (i == 0 && |labels| >= 2 ==> |tr| >= 1) &&
      (forall k :: i <= k < i + |tr| && k >= 1 ==> !ColumnEnded(labels[k])) &&
      (i + |tr| + 1 < |labels| ==> ColumnEnded(labels[i + |tr|]))
    decreases |labels| - i
  {
    if i + 1 < |labels| && !(i >= 1 && ColumnEnded(labels[i])) {
      var next := orc.step(TeacherInput(orc, labels, training, ssProb, i, prev), st);
      TeacherFromStops(orc, labels, training, ssProb, i + 1, next.1, Some(next.0));
    }
  }

  /** The teacher-forced rollout yields at most `seq_labels.size(1) - 1` outputs
      (so stacking them fails exactly when there are fewer than two label
      columns), never stops at step 0, and stops at the first step i >= 1 whose whole label
      column is zero (a batch-level stop). */
  lemma {:induction false} TeacherStopRule<S, O>(orc: TeacherOracles<S, O>, labels: seq<seq<nat>>, training: bool, ssProb: real, init: S)
    ensures Cat(Outputs(Teacher(orc, labels, training, ssProb, init))).Ok? <==> |labels| >= 2
    ensures var tr := Teacher(orc, labels, training, ssProb, init);
      (|tr| + 1 <= |labels| || tr == []) &&
      (|labels| >= 2 ==> |tr| >= 1) &&
      (forall k :: 1 <= k < |tr| ==> !ColumnEnded(labels[k])) &&
      (|tr| < |labels| - 1 ==> ColumnEnded(labels[|tr|]))
  {
    if |labels| >= 1 {
      TeacherFromStops(orc, labels, training, ssProb, 0, init, None);
    }
  }

  /** Step j, fed `input` after output `from` (none before step 0), was fed
      the ground-truth labels, except when training at a step >= 1 with
      `ss_prob > 0` where the sampling mask picks the row: that row was fed the
      token drawn from `from`. */
  ghost predicate FedStep<S, O>(orc: TeacherOracles<S, O>, labels: seq<seq<nat>>, training: bool, ssProb: real,
                                j: nat, from: Option<O>, input: seq<nat>)
  {
    (from.Some? || !Sampling(training, ssProb, j)) &&
    j < |labels| && |input| == |labels[j]| &&
    forall b :: 0 <= b < |input| ==>
      input[b] ==
        if Sampling(training, ssProb, j) && orc.sampleMask(j, b)
        then orc.draw(j, b, from.value)
        else labels[j][b]
  }

  /** Every step of `tr`, starting at step i after output `prev`, was fed as
      scheduled, each from the output of the step before it. */
  ghost predicate FedAsScheduled<S, O>(orc: TeacherOracles<S, O>, labels: seq<seq<nat>>, training: bool, ssProb: real,
                                       i: nat, prev: Option<O>, tr: seq<Step<O>>)
  {
    forall k :: 0 <= k < |tr| ==>
      FedStep(orc, labels, training, ssProb, i + k, if k == 0 then prev else Some(tr[k - 1].output), tr[k].input)
  }

  lemma {:induction false} TeacherFromInputs<S, O>(orc: TeacherOracles<S, O>, labels: seq<seq<nat>>, training: bool,
                                                   ssProb: real, i: nat, st: S, prev: Option<O>)
    requires i >= 1 <==> prev.Some?
    ensures FedAsScheduled(orc, labels, training, ssProb, i, prev, TeacherFrom(orc, labels, training, ssProb, i, st, prev))
    decreases |labels| - i
  {
    var tr := TeacherFrom(orc, labels, training, ssProb, i, st, prev);
    if i + 1 < |labels| && !(i >= 1 && ColumnEnded(labels[i])) {
      var it := TeacherInput(orc, labels, training, ssProb, i, prev);
      var next := orc.step(it, st);
      var rest := TeacherFrom(orc, labels, training, ssProb, i + 1, next.1, Some(next.0));
      TeacherFromInputs(orc, labels, training, ssProb, i + 1, next.1, Some(next.0));
      assert tr == [Step(it, next.0)] + rest;
      assert FedStep(orc, labels, training, ssProb, i, prev, tr[0].input);
      forall k | 1 <= k < |tr|
        ensures FedStep(orc, labels, training, ssProb, i + k, Some(tr[k - 1].output), tr[k].input)
      {
        assert tr[k] == rest[k - 1];
        assert FedStep(orc, labels, training, ssProb, i + 1 + (k - 1),
                       if k - 1 == 0 then Some(next.0) else Some(rest[k - 2].output), rest[k - 1].input);
      }
    }
  }

  /** Scheduled sampling over the whole teacher-forced rollout: step 0 is always
      fed the ground truth. */
  lemma {:induction false} TeacherInputs<S, O>(orc: TeacherOracles<S, O>, labels: seq<seq<nat>>, training: bool,
                                               ssProb: real, init: S)
    ensures FedAsScheduled(orc, labels, training, ssProb, 0, None, Teacher(orc, labels, training, ssProb, init))
    ensures forall b :: 0 < |Teacher(orc, labels, training, ssProb, init)| && 0 <= b < |labels[0]| ==>
      Teacher(orc, labels, training, ssProb, init)[0].input[b] == labels[0][b]
  {
    TeacherFromInputs(orc, labels, training, ssProb, 0, init, None);
  }

  // ---------------------------------------------------------------------------
  // Greedy / sampled decoding (`sample` with beam_size <= 1)
  // ---------------------------------------------------------------------------

  /** Oracles of the decoding loop: the recurrent step (fed one token per batch
      row) and the token chooser, which for step t and row b picks a token from
      the previous log-probabilities and reports its log-probability: the
      `torch.max` of the row under `sample_max`, a `multinomial` draw (at the
      given temperature) otherwise. */
  datatype SampleOracles<!S, !O> = SampleOracles(
    step: (seq<nat>, S) -> (O, S),
    choose: (nat, nat, O) -> (nat, real))

  /** One emitted column: the tokens of step t for every row (0 once the row has
      finished) and the log-probabilities the chooser reported. */
  datatype Emitted = Emitted(tokens: seq<nat>, logps: seq<real>)

  function Zeros(n: nat): (z: seq<nat>)
    ensures |z| == n && forall b :: 0 <= b < n ==> z[b] == 0
  {
    seq(n, b => 0)
  }

  function AllTrue(n: nat): (u: seq<bool>)
    ensures |u| == n && forall b :: 0 <= b < n ==> u[b]
  {
    seq(n, b => true)
  }

  /** The tokens picked at step t for the `bs` rows. */
  function Chosen<S, O>(orc: SampleOracles<S, O>, bs: nat, t: nat, lp: O): (toks: seq<nat>)
    ensures |toks| == bs && forall b :: 0 <= b < bs ==> toks[b] == orc.choose(t, b, lp).0
  {
    seq<nat>(bs, b requires 0 <= b < bs => orc.choose(t, b, lp).0)
  }

  function ChosenLogps<S, O>(orc: SampleOracles<S, O>, bs: nat, t: nat, lp: O): (lps: seq<real>)
    ensures |lps| == bs && forall b :: 0 <= b < bs ==> lps[b] == orc.choose(t, b, lp).1
  {
    seq(bs, b requires 0 <= b < bs => orc.choose(t, b, lp).1)
  }

  /** `unfinished * (it > 0)`: a row stays unfinished while it keeps producing
      non-zero tokens. At step 1 `unfinished = it > 0`, which is this update
      applied to an all-true mask. */
  function StillUnfinished(unf: seq<bool>, toks: seq<nat>): (u: seq<bool>)
    requires |unf| == |toks|
    ensures |u| == |toks|
    ensures forall b :: 0 <= b < |toks| ==> (u[b] <==> unf[b] && toks[b] > 0)
  {
    seq(|toks|, b requires 0 <= b < |toks| => unf[b] && toks[b] > 0)
  }

  /** `it * unfinished`: finished rows emit 0. */
  function MaskFinished(toks: seq<nat>, unf: seq<bool>): (col: seq<nat>)
    requires |unf| == |toks|
    ensures |col| == |toks|
    ensures forall b :: 0 <= b < |toks| ==> col[b] == if unf[b] then toks[b] else 0
  {
    seq(|toks|, b requires 0 <= b < |toks| => if unf[b] then toks[b] else 0)
  }

  /** The decoding loop from step t (1 <= t <= L + 1) on, with recurrent state
      `st`, previous log-probabilities `lp` and unfinished mask `unf`. The step
      is fed the chosen tokens before finished rows are zeroed. */
  function SampleFrom<S, O>(orc: SampleOracles<S, O>, bs: nat, seqLength: nat, t: nat, st: S, lp: O,
                            unf: seq<bool>): seq<Emitted>
    requires |unf| == bs
    decreases seqLength + 1 - t
  {
    if t > seqLength then []
    else
      var toks := Chosen(orc, bs, t, lp);
      var unf' := StillUnfinished(unf, toks);
      if true !in unf' then []
      else
        var next := orc.step(toks, st);
        [Emitted(MaskFinished(toks, unf'), ChosenLogps(orc, bs, t, lp))]
          + SampleFrom(orc, bs, seqLength, t + 1, next.1, next.0, unf')
  }

  /** The whole decoding of `bs` rows of at most `seqLength` tokens: step 0 feeds
      the start token 0 to every row. */
  function Sample<S, O>(orc: SampleOracles<S, O>, bs: nat, seqLength: nat, init: S): seq<Emitted>
  {
    var first := orc.step(Zeros(bs), init);
    SampleFrom(orc, bs, seqLength, 1, first.1, first.0, AllTrue(bs))
  }

  /** The step loop of `sample` without beams; stacking the columns fails when
      no column was emitted. */
  method SampleRollout<S, O>(orc: SampleOracles<S, O>, bs: nat, seqLength: nat, init: S)
    returns (r: Result<seq<Emitted>, string>)
    ensures r == Cat(Sample(orc, bs, seqLength, init))
  {
    var emitted: seq<Emitted> := [];
    var first := orc.step(Zeros(bs), init);
    var state, logprobs := first.1, first.0;
    var unfinished := AllTrue(bs);
    var t := 1;
    while t <= seqLength
      invariant t >= 1 && |unfinished| == bs
      invariant emitted + SampleFrom(orc, bs, seqLength, t, state, logprobs, unfinished)
                == Sample(orc, bs, seqLength, init)
      decreases seqLength + 1 - t
    {
      var it := Chosen(orc, bs, t, logprobs);
      var unf' := StillUnfinished(unfinished, it);
      if true !in unf' {
        assert SampleFrom(orc, bs, seqLength, t, state, logprobs, unfinished) == [];
        break;
      }
      var col := Emitted(MaskFinished(it, unf'), ChosenLogps(orc, bs, t, logprobs));
      var next := orc.step(it, state);
      ghost var rest := SampleFrom(orc, bs, seqLength, t + 1, next.1, next.0, unf');
      assert SampleFrom(orc, bs, seqLength, t, state, logprobs, unfinished) == [col] + rest;
      assert (emitted + [col]) + rest == emitted + ([col] + rest);
      emitted := emitted + [col];
      state, logprobs, unfinished := next.1, next.0, unf';
      t := t + 1;
    }
    assert SampleFrom(orc, bs, seqLength, t, state, logprobs, unfinished) == [];
    assert emitted == Sample(orc, bs, seqLength, init);
    r := Cat(emitted);
  }

  /** A row that has emitted 0 emits 0 from then on. */
  ghost predicate ZeroSticky(tr: seq<Emitted>)
  {
    forall k1, k2, b ::
      0 <= k1 < k2 < |tr| && 0 <= b < |tr[k1].tokens| && 0 <= b < |tr[k2].tokens| && tr[k1].tokens[b] == 0
      ==> tr[k2].tokens[b] == 0
  }

  /** The columns emitted from step t: at most `seqLength + 1 - t` of them, all
      `bs` wide; every one of them has a non-zero token (the loop stops before a
      column in which every row has finished); a row emits a non-zero token only
      if it was unfinished on entry; and a finished row stays finished. */
  ghost predicate EmittedFrom(tr: seq<Emitted>, bs: nat, unf: seq<bool>)
    requires |unf| == bs
  {
    (forall k :: 0 <= k < |tr| ==> |tr[k].tokens| == bs && |tr[k].logps| == bs) &&
    (forall k :: 0 <= k < |tr| ==> !ColumnEnded(tr[k].tokens)) &&
    (forall k, b :: 0 <= k < |tr| && 0 <= b < |tr[k].tokens| && tr[k].tokens[b] != 0 ==> unf[b]) &&
    ZeroSticky(tr)
  }

  /** From step t on, at most `seqLength + 1 - t` columns are emitted. */
  lemma {:induction false} SampleFromLength<S, O>(orc: SampleOracles<S, O>, bs: nat, seqLength: nat, t: nat, st: S,
                                                  lp: O, unf: seq<bool>)
    requires |unf| == bs && t >= 1 && t <= seqLength + 1
    ensures |SampleFrom(orc, bs, seqLength, t, st, lp, unf)| <= seqLength + 1 - t
    decreases seqLength + 1 - t
  {
    if t <= seqLength {
      var toks := Chosen(orc, bs, t, lp);
      var unf' := StillUnfinished(unf, toks);
      if true in unf' {
        var next := orc.step(toks, st);
        var rest := SampleFrom(orc, bs, seqLength, t + 1, next.1, next.0, unf');
        assert |SampleFrom(orc, bs, seqLength, t, st, lp, unf)| == 1 + |rest|;
        SampleFromLength(orc, bs, seqLength, t + 1, next.1, next.0, unf');
      }
    }
  }

  lemma {:induction false} SampleFromShape<S, O>(orc: SampleOracles<S, O>, bs: nat, seqLength: nat, t: nat, st: S,
                                                 lp: O, unf: seq<bool>)
    requires |unf| == bs && t >= 1
    ensures EmittedFrom(SampleFrom(orc, bs, seqLength, t, st, lp, unf), bs, unf)
    decreases seqLength + 1 - t
  {
    if t <= seqLength {
      var toks := Chosen(orc, bs, t, lp);
      var unf' := StillUnfinished(unf, toks);
      if true in unf' {
        var next := orc.step(toks, st);
        var col := MaskFinished(toks, unf');
        var rest := SampleFrom(orc, bs, seqLength, t + 1, next.1, next.0, unf');
        assert SampleFrom(orc, bs, seqLength, t, st, lp, unf) == [Emitted(col, ChosenLogps(orc, bs, t, lp))] + rest;
        SampleFromShape(orc, bs, seqLength, t + 1, next.1, next.0, unf');
        ConsEmitted(Emitted(col, ChosenLogps(orc, bs, t, lp)), rest, bs, unf, unf');
      }
    }
  }

  /** Prepending the column of a step keeps `EmittedFrom`: the column's non-zero
      rows are exactly the rows still unfinished after the step. */
  lemma ConsEmitted(e: Emitted, rest: seq<Emitted>, bs: nat, unf: seq<bool>, unf': seq<bool>)
    requires |unf| == bs && |unf'| == bs && |e.tokens| == bs && |e.logps| == bs
    requires forall b :: 0 <= b < bs ==> (e.tokens[b] != 0 <==> unf'[b])
    requires forall b :: 0 <= b < bs && unf'[b] ==> unf[b]
    requires true in unf'
    requires EmittedFrom(rest, bs, unf')
    ensures EmittedFrom([e] + rest, bs, unf)
  {
    var tr := [e] + rest;
    var b0 :| 0 <= b0 < bs && unf'[b0];
    NonZeroNotEnded(e.tokens, b0);
    assert forall k :: 1 <= k < |tr| ==> tr[k] == rest[k - 1];
    forall k2, b | 0 < k2 < |tr| && 0 <= b < bs && e.tokens[b] == 0
      ensures tr[k2].tokens[b] == 0
    {
      assert tr[k2] == rest[k2 - 1];
    }
  }

  lemma {:induction false} NonZeroNotEnded(col: seq<nat>, b: nat)
    requires b < |col| && col[b] != 0
    ensures !ColumnEnded(col)
  {
    if b < |col| - 1 {
      NonZeroNotEnded(col[..|col| - 1], b);
    }
  }

  /** The decoding emits at most `seq_length` columns of `bs` tokens; every
      column has a row still producing words; a row that has emitted the end
      token 0 emits only 0 afterwards; and stacking fails exactly when even the
      first chosen tokens are all 0 or `seq_length` is 0. */
  lemma {:induction false} SampleShape<S, O>(orc: SampleOracles<S, O>, bs: nat, seqLength: nat, init: S)
    ensures |Sample(orc, bs, seqLength, init)| <= seqLength
    ensures EmittedFrom(Sample(orc, bs, seqLength, init), bs, AllTrue(bs))
    ensures var first := orc.step(Zeros(bs), init);
      Cat(Sample(orc, bs, seqLength, init)).Err? <==>
        seqLength == 0 || forall b :: 0 <= b < bs ==> orc.choose(1, b, first.0).0 == 0
  {
    var first := orc.step(Zeros(bs), init);
    SampleFromLength(orc, bs, seqLength, 1, first.1, first.0, AllTrue(bs));
    SampleFromShape(orc, bs, seqLength, 1, first.1, first.0, AllTrue(bs));
    if seqLength >= 1 {
      var unf' := StillUnfinished(AllTrue(bs), Chosen(orc, bs, 1, first.0));
      if forall b :: 0 <= b < bs ==> orc.choose(1, b, first.0).0 == 0 {
        assert true !in unf';
      } else {
        var b :| 0 <= b < bs && orc.choose(1, b, first.0).0 != 0;
        assert unf'[b];
      }
    }
  }

  // ---------------------------------------------------------------------------
  // Vocabulary re-keying (`__init__`)
  // ---------------------------------------------------------------------------

  /** The word of index 0, the start/end symbol. */
  const SentSign := "__SENTSIGN__"

  function DigitChar(d: nat): char
    requires d < 10
  {
    "0123456789"[d]
  }

  /** Python's `str(i)` for a natural number: decimal digits, no leading zero. */
  function NatToString(n: nat): (s: string)
    ensures |s| >= 1
    ensures |s| == 1 <==> n < 10
    decreases n
  {
    if n < 10 then [DigitChar(n)] else NatToString(n / 10) + [DigitChar(n % 10)]
  }

  /** Distinct indices have distinct decimal keys. */
  lemma {:induction false} NatToStringInjective(a: nat, b: nat)
    requires NatToString(a) == NatToString(b)
    ensures a == b
    decreases a
  {
    if a >= 10 && b >= 10 {
      var sa, sb := NatToString(a), NatToString(b);
      assert sa[..|sa| - 1] == NatToString(a / 10);
      assert sb[..|sb| - 1] == NatToString(b / 10);
      NatToStringInjective(a / 10, b / 10);
      assert DigitChar(a % 10) == DigitChar(b % 10);
    }
  }

  /** The keys `str(0)`, ..., `str(n - 1)`. */
  ghost function IndexKeys(n: nat): set<string>
  {
    set i | 0 <= i < n :: NatToString(i)
  }

  lemma {:induction false} IndexKeysCard(n: nat)
    ensures |IndexKeys(n)| == n
  {
    if n > 0 {
      IndexKeysCard(n - 1);
      assert IndexKeys(n) == IndexKeys(n - 1) + {NatToString(n - 1)};
      if NatToString(n - 1) in IndexKeys(n - 1) {
        var i :| 0 <= i < n - 1 && NatToString(i) == NatToString(n - 1);
        NatToStringInjective(i, n - 1);
      }
    }
  }

  /** The first index below n whose decimal key is missing from `v`, if any. */
  function FirstMissing(v: map<string, string>, i: nat, n: nat): (m: Option<nat>)
    ensures m.None? ==> forall j :: i <= j < n ==> NatToString(j) in v
    ensures m.Some? ==> i <= m.value < n && NatToString(m.value) !in v &&
                        forall j :: i <= j < m.value ==> NatToString(j) in v
    decreases n - i
  {
    if i >= n then None
    else if NatToString(i) !in v then Some(i)
    else FirstMissing(v, i + 1, n)
  }

  /** The vocabulary after `vocabs['0'] = '__SENTSIGN__'` and the re-keying
      `{i: vocabs[str(i)] for i in range(len(vocabs))}`; the error is the key of
      the first failed lookup (a `KeyError`). */
  function RekeyVocab(vocabs: map<string, string>): (r: Result<map<nat, string>, string>)
    ensures var v := vocabs["0" := SentSign];
      r.Ok? ==> forall i: nat :: i < |v| ==> NatToString(i) in v
    ensures var v := vocabs["0" := SentSign];
      (forall i: nat :: i < |v| ==> NatToString(i) in v) ==> r.Ok?
    ensures var v := vocabs["0" := SentSign];
      r.Err? ==> r.error !in v &&
                 exists i: nat :: (i < |v| && r.error == NatToString(i) &&
                                   forall j: nat :: j < i ==> NatToString(j) in v)
    ensures var v := vocabs["0" := SentSign];
      r.Ok? ==> (forall i: nat :: i in r.value <==> i < |v|) &&
                forall i :: 0 <= i < |v| ==> r.value[i] == v[NatToString(i)]
  {
    var v := vocabs["0" := SentSign];
    match FirstMissing(v, 0, |v|)
    case Some(i) =>
      Err(NatToString(i))
    case None =>
      Ok(map i: nat | i < |v| :: v[NatToString(i)])
  }

  /** A successful re-keying maps 0 to the start/end symbol and every other index
      to the word stored under its decimal key; it succeeds exactly when the keys
      (with "0" added) are `str(0)`, ..., `str(n - 1)` for n keys, so no word is
      dropped. */
  lemma RekeyVocabKeys(vocabs: map<string, string>)
    ensures var r := RekeyVocab(vocabs);
      r.Ok? ==> 0 in r.value && r.value[0] == SentSign &&
                forall i :: 0 < i < |vocabs["0" := SentSign]| ==>
                  i in r.value && NatToString(i) in vocabs && r.value[i] == vocabs[NatToString(i)]
    ensures RekeyVocab(vocabs).Ok? <==> vocabs["0" := SentSign].Keys == IndexKeys(|vocabs["0" := SentSign]|)
  {
    var v := vocabs["0" := SentSign];
    var n := |v|;
    var r := RekeyVocab(vocabs);
    IndexKeysCard(n);
    if r.Ok? {
      assert IndexKeys(n) <= v.Keys;
      assert |v.Keys| == n;
      assert |v.Keys - IndexKeys(n)| == 0;
      forall i | 0 < i < n ensures i in r.value && NatToString(i) in vocabs && r.value[i] == vocabs[NatToString(i)] {
        assert NatToString(i) != "0" by {
          if NatToString(i) == "0" {
            assert NatToString(0) == "0";
            NatToStringInjective(i, 0);
          }
        }
      }
    } else {
      var i: nat :| i < n && r.error == NatToString(i);
      assert NatToString(i) in IndexKeys(n);
    }
  }

  /** Width of the logit layer: the words, `<UNK>` and the start/end symbol 0. */
  function LogitWidth(vocabSize: nat): nat
  {
    vocabSize + 1
  }
}
