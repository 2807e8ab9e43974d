/** Beam search decoding of `RelCaptionModel`: one beam step (`beam_step`),
    the search over `seq_length` steps (`beam_search`) and the per-image driver
    with its beam-size guard (`sample_beam`). The recurrent step of one beam is
    an oracle from the fed token and the beam's recurrent state to a row of
    log-probabilities over the logit columns and the next state: the core runs
    the beams as independent rows of one batch, and every beam of an image sees
    the same relation features. */
module BeamSearch {
  import opened Common
  import CaptionRollout
  import RelPadding

  /** The error raised when the beam size is out of range. */
  const BeamSizeError: string := "beam_size must be at least 1 and at most the number of logit columns"

  /** The error raised when no beam finished. */
  const NoFinishedBeamError: string := "IndexError: no finished beam"

  /** An expansion of beam q with word c: its joint log-probability p and the
      word's own log-probability r. */
  datatype Candidate = Candidate(c: nat, q: nat, p: real, r: real)

  /** A finished beam: its tokens and per-step log-probabilities over all
      `seq_length` steps, its joint log-probability, and the step at which it
      was copied. `beam_search` does not store the step; the model keeps it to
      say what a finished beam is. */
  datatype DoneBeam = DoneBeam(tokens: seq<nat>, logps: seq<real>, p: real, step: nat)

  /** Log-probability rows of `n` beams, each `width` columns wide. */
  predicate Rows(lp: seq<seq<real>>, n: nat, width: nat)
  {
    |lp| == n && forall q :: 0 <= q < n ==> |lp[q]| == width
  }

  /** `logprobsf[:, -1] -= 1000`: the last column (`<UNK>`) is pushed down so
      that it is never chosen while any other word is within reach. */
  function SuppressUnk(row: seq<real>): (s: seq<real>)
    requires |row| >= 1
    ensures |s| == |row|
    ensures s[|row| - 1] == row[|row| - 1] - 1000.0
    ensures forall w :: 0 <= w < |row| - 1 ==> s[w] == row[w]
  {
    row[|row| - 1 := row[|row| - 1] - 1000.0]
  }

  function Min(a: nat, b: nat): nat
  {
    if a <= b then a else b
  }

  /** The expansions of beams 0 .. rows-1 with the word ranked c-th in their
      row (`ys, ix = torch.sort(logprobsf, 1, True)`). */
  function CandColumn(lp: seq<seq<real>>, sums: seq<real>, rows: nat, width: nat, c: nat): (col: seq<Candidate>)
    requires rows <= |lp| && rows <= |sums| && c < width
    requires forall q :: 0 <= q < rows ==> |lp[q]| == width
    ensures |col| == rows
    ensures forall q :: 0 <= q < rows ==>
      col[q].q == q && col[q].c < width && col[q].c == ArgsortDesc(lp[q])[c] &&
      col[q].r == lp[q][col[q].c] && col[q].p == sums[q] + col[q].r
  {
    seq(rows, q requires 0 <= q < rows =>
      var ix := ArgsortDesc(lp[q]);
      Candidate(ix[c], q, sums[q] + lp[q][ix[c]], lp[q][ix[c]]))
  }

  /** The candidate list of `beam_step` for the first `cols` ranks: rank by rank,
      and within a rank beam by beam. */
  function CandidatesUpTo(lp: seq<seq<real>>, sums: seq<real>, rows: nat, width: nat, cols: nat): (cs: seq<Candidate>)
    requires rows <= |lp| && rows <= |sums| && cols <= width
    requires forall q :: 0 <= q < rows ==> |lp[q]| == width
    ensures |cs| == cols * rows
    ensures forall k :: 0 <= k < |cs| ==>
      cs[k].q < rows && cs[k].c < width && cs[k].r == lp[cs[k].q][cs[k].c] && cs[k].p == sums[cs[k].q] + cs[k].r
  {
    if cols == 0 then []
    else
      var prev := CandidatesUpTo(lp, sums, rows, width, cols - 1);
      var col := CandColumn(lp, sums, rows, width, cols - 1);
      assert |prev + col| == (cols - 1) * rows + rows == cols * rows;
      prev + col
  }

  /** The rows of beams that are expanded at step t: only beam 0 at step 0,
      where every beam holds the same start state. */
  function ExpandedRows(beamSize: nat, t: nat): nat
  {
    if t == 0 then 1 else beamSize
  }

  /** All candidates of step t: the best `min(beam_size, width)` words of each
      expanded beam. */
  function Candidates(lp: seq<seq<real>>, sums: seq<real>, beamSize: nat, width: nat, t: nat): (cs: seq<Candidate>)
    requires Rows(lp, beamSize, width) && |sums| == beamSize && beamSize >= 1
    ensures |cs| == Min(beamSize, width) * ExpandedRows(beamSize, t)
    ensures forall k :: 0 <= k < |cs| ==>
      cs[k].q < ExpandedRows(beamSize, t) && cs[k].c < width &&
      cs[k].r == lp[cs[k].q][cs[k].c] && cs[k].p == sums[cs[k].q] + cs[k].r
  {
    CandidatesUpTo(lp, sums, ExpandedRows(beamSize, t), width, Min(beamSize, width))
  }

  function CandidateScore(x: Candidate): real
  {
    x.p
  }

  /** `sorted(candidates, key=lambda x: -x['p'])`: Python's stable sort. */
  function Ranked(cs: seq<Candidate>): (rs: seq<Candidate>)
    ensures |rs| == |cs| && multiset(rs) == multiset(cs)
    ensures SortedDesc(rs, CandidateScore)
    ensures forall v :: WithKey(rs, CandidateScore, v) == WithKey(cs, CandidateScore, v)
  {
    SortDesc(cs, CandidateScore)
  }

  /** Every ranked candidate is one of the candidates, so it extends an expanded
      beam with one of its words at that word's log-probability. */
  lemma {:induction false} RankedAreCandidates(lp: seq<seq<real>>, sums: seq<real>, beamSize: nat, width: nat, t: nat)
    requires Rows(lp, beamSize, width) && |sums| == beamSize && beamSize >= 1
    ensures var rs := Ranked(Candidates(lp, sums, beamSize, width, t));
      forall v :: 0 <= v < |rs| ==>
        rs[v].q < ExpandedRows(beamSize, t) && rs[v].c < width &&
        rs[v].r == lp[rs[v].q][rs[v].c] && rs[v].p == sums[rs[v].q] + rs[v].r
  {
    var cs := Candidates(lp, sums, beamSize, width, t);
    var rs := Ranked(cs);
    forall v | 0 <= v < |rs|
      ensures rs[v].q < ExpandedRows(beamSize, t) && rs[v].c < width &&
              rs[v].r == lp[rs[v].q][rs[v].c] && rs[v].p == sums[rs[v].q] + rs[v].r
    {
      assert rs[v] in multiset(cs);
      var k :| 0 <= k < |cs| && cs[k] == rs[v];
    }
  }

  /** The first `beam_size` ranked candidates, the ones kept, score at least as
      high as every candidate that is dropped. */
  lemma {:induction false} RankedKeepsBest(cs: seq<Candidate>, beamSize: nat)
    ensures var rs := Ranked(cs);
      forall v, k :: 0 <= v < beamSize <= k < |rs| ==> rs[v].p >= rs[k].p
  {
    var rs := Ranked(cs);
    forall v, k | 0 <= v < beamSize <= k < |rs| ensures rs[v].p >= rs[k].p {
      assert CandidateScore(rs[v]) >= CandidateScore(rs[k]);
    }
  }

  /** The beam-size guard as written, `beam_size <= self.vocab_size + 1`, where
      `self.vocab_size` already counts every logit column. */
  predicate GuardAsWritten(beamSize: nat, vocabSize: nat)
  {
    beamSize <= CaptionRollout.LogitWidth(vocabSize) + 1
  }

  /** The guard admits one beam more than there are logit columns; then step 0
      offers fewer candidates than beams and `candidates[vix]` is out of range
      for the last beam. */
  lemma GuardAsWrittenAdmitsShortCandidates(vocabSize: nat, lp: seq<seq<real>>, sums: seq<real>)
    requires Rows(lp, vocabSize + 2, vocabSize + 1) && |sums| == vocabSize + 2
    ensures GuardAsWritten(vocabSize + 2, vocabSize)
    ensures |Candidates(lp, sums, vocabSize + 2, CaptionRollout.LogitWidth(vocabSize), 0)| < vocabSize + 2
  {
  }

  /** The guard the code needs: at least one beam and no more beams than logit
      columns. */
  predicate BeamGuard(beamSize: nat, vocabSize: nat)
  {
    1 <= beamSize <= CaptionRollout.LogitWidth(vocabSize)
  }

  /** Under the corrected guard every step offers at least `beam_size`
      candidates, so every beam finds a candidate to continue from; and the guard
      is also necessary for step 0. */
  lemma {:induction false} BeamGuardSuffices(vocabSize: nat, beamSize: nat, lp: seq<seq<real>>, sums: seq<real>, t: nat)
    requires beamSize >= 1
    requires Rows(lp, beamSize, CaptionRollout.LogitWidth(vocabSize)) && |sums| == beamSize
    ensures BeamGuard(beamSize, vocabSize) ==>
      |Candidates(lp, sums, beamSize, CaptionRollout.LogitWidth(vocabSize), t)| >= beamSize
    ensures |Candidates(lp, sums, beamSize, CaptionRollout.LogitWidth(vocabSize), 0)| >= beamSize ==>
      BeamGuard(beamSize, vocabSize)
  {
    var width := CaptionRollout.LogitWidth(vocabSize);
    if BeamGuard(beamSize, vocabSize) && t >= 1 {
      MulMono(beamSize, 1, beamSize);
    }
  }

  lemma MulMono(a: nat, b: nat, c: nat)
    requires b <= c
    ensures a * b <= a * c
  {
  }

  /** A beam's tokens after step t: the tokens of the beam it extends up to
      step t, the chosen word at step t, and its own (still unwritten) later
      entries. */
  function Forked<T>(prev: seq<T>, own: seq<T>, t: nat, x: T): (s: seq<T>)
    requires t <= |prev| && t < |own|
    ensures |s| == |own|
  {
    prev[..t] + [x] + own[t + 1..]
  }

  /** A forked beam agrees with the beam it continues before step t, holds the
      new entry at t, and keeps its own entries after t. */
  lemma ForkedParts<T>(prev: seq<T>, own: seq<T>, t: nat, x: T)
    requires t <= |prev| && t < |own|
    ensures var s := Forked(prev, own, t, x);
      (forall u :: 0 <= u < t ==> s[u] == prev[u]) && s[t] == x &&
      (forall u :: t < u < |own| ==> s[u] == own[u])
  {
  }

  /** One step of the beam search: ranks the candidates of step t and forks the
      kept ones into beams 0 .. beam_size-1 (see `Fork`). */
  method BeamStep<S>(lp: seq<seq<real>>, beamSize: nat, width: nat, t: nat,
                     beamSeq: array<seq<nat>>, beamLogps: array<seq<real>>, sums: array<real>, states: seq<S>)
    returns (newStates: seq<S>, ranked: seq<Candidate>)
    requires beamSize >= 1 && Rows(lp, beamSize, width)
    requires beamSeq.Length == beamSize && beamLogps.Length == beamSize && sums.Length == beamSize
    requires |states| == beamSize
    requires forall v :: 0 <= v < beamSize ==> t < |beamSeq[v]| && t < |beamLogps[v]|
    requires |Candidates(lp, sums[..], beamSize, width, t)| >= beamSize
    modifies beamSeq, beamLogps, sums
    ensures ranked == Ranked(Candidates(lp, old(sums[..]), beamSize, width, t))
    ensures |newStates| == beamSize
    ensures forall v :: 0 <= v < beamSize ==> ranked[v].q < beamSize
    ensures forall v :: 0 <= v < beamSize ==>
      beamSeq[v] == Forked(old(beamSeq[ranked[v].q]), old(beamSeq[v]), t, ranked[v].c)
    ensures forall v :: 0 <= v < beamSize ==>
      beamLogps[v] == Forked(old(beamLogps[ranked[v].q]), old(beamLogps[v]), t, ranked[v].r)
    ensures forall v :: 0 <= v < beamSize ==> sums[v] == old(sums[ranked[v].q]) + ranked[v].r
    ensures forall v :: 0 <= v < beamSize ==> newStates[v] == states[ranked[v].q]
  {
    ranked := Ranked(Candidates(lp, sums[..], beamSize, width, t));
    RankedAreCandidates(lp, sums[..], beamSize, width, t);
    RankedKeepsBest(Candidates(lp, sums[..], beamSize, width, t), beamSize);
    newStates := Fork(ranked, beamSize, t, beamSeq, beamLogps, sums, states);
  }

  /** The forking loop of `beam_step`: beam v continues the beam q of the v-th
      ranked candidate. It takes q's tokens and log-probabilities before step t
      (from a copy made before any beam is overwritten), the candidate's word and
      log-probability at step t, the candidate's joint log-probability, and q's
      recurrent state. */
  method Fork<S>(ranked: seq<Candidate>, beamSize: nat, t: nat,
                 beamSeq: array<seq<nat>>, beamLogps: array<seq<real>>, sums: array<real>, states: seq<S>)
    returns (newStates: seq<S>)
    requires beamSeq.Length == beamSize && beamLogps.Length == beamSize && sums.Length == beamSize
    requires |states| == beamSize && |ranked| >= beamSize
    requires forall v :: 0 <= v < beamSize ==> t < |beamSeq[v]| && t < |beamLogps[v]|
    requires forall v :: 0 <= v < beamSize ==> ranked[v].q < beamSize && ranked[v].p == sums[ranked[v].q] + ranked[v].r
    modifies beamSeq, beamLogps, sums
    ensures |newStates| == beamSize
    ensures forall v :: 0 <= v < beamSize ==>
      beamSeq[v] == Forked(old(beamSeq[ranked[v].q]), old(beamSeq[v]), t, ranked[v].c)
    ensures forall v :: 0 <= v < beamSize ==>
      beamLogps[v] == Forked(old(beamLogps[ranked[v].q]), old(beamLogps[v]), t, ranked[v].r)
    ensures forall v :: 0 <= v < beamSize ==> sums[v] == old(sums[ranked[v].q]) + ranked[v].r
    ensures forall v :: 0 <= v < beamSize ==> newStates[v] == states[ranked[v].q]
  {
    ghost var sums0 := sums[..];
    var seqPrev := beamSeq[..];
    var logpsPrev := beamLogps[..];
    // the recurrent states are gathered by the same candidate order
    newStates := StatesOf(ranked, states, beamSize);
    for vix := 0 to beamSize
      invariant forall v :: 0 <= v < vix ==> beamSeq[v] == Forked(seqPrev[ranked[v].q], seqPrev[v], t, ranked[v].c)
      invariant forall v :: 0 <= v < vix ==> beamLogps[v] == Forked(logpsPrev[ranked[v].q], logpsPrev[v], t, ranked[v].r)
      invariant forall v :: 0 <= v < vix ==> sums[v] == sums0[ranked[v].q] + ranked[v].r
    {
      ForkBeam(ranked[vix], vix, t, seqPrev, logpsPrev, beamSeq, beamLogps, sums);
    }
  }

  /** Beam v continues the beam of candidate `cand`; the other beams are left
      as they are. Entries after t of beam v are not written: they stay those
      of `seqPrev[v]`. */
  method ForkBeam(cand: Candidate, v: nat, t: nat, seqPrev: seq<seq<nat>>, logpsPrev: seq<seq<real>>,
                  beamSeq: array<seq<nat>>, beamLogps: array<seq<real>>, sums: array<real>)
    requires v < beamSeq.Length == beamLogps.Length == sums.Length == |seqPrev| == |logpsPrev|
    requires cand.q < |seqPrev| && t < |seqPrev[v]| && t <= |seqPrev[cand.q]|
    requires t < |logpsPrev[v]| && t <= |logpsPrev[cand.q]|
    modifies beamSeq, beamLogps, sums
    ensures beamSeq[v] == Forked(seqPrev[cand.q], seqPrev[v], t, cand.c)
    ensures beamLogps[v] == Forked(logpsPrev[cand.q], logpsPrev[v], t, cand.r)
    ensures sums[v] == cand.p
    ensures forall u :: 0 <= u < beamSeq.Length && u != v ==>
      beamSeq[u] == old(beamSeq[u]) && beamLogps[u] == old(beamLogps[u]) && sums[u] == old(sums[u])
  {
    beamSeq[v] := Forked(seqPrev[cand.q], seqPrev[v], t, cand.c);
    beamLogps[v] := Forked(logpsPrev[cand.q], logpsPrev[v], t, cand.r);
    sums[v] := cand.p;
  }

  /** The recurrent state of the beam each of the first n candidates continues. */
  function StatesOf<S>(ranked: seq<Candidate>, states: seq<S>, n: nat): (r: seq<S>)
    requires n <= |ranked| && forall v :: 0 <= v < n ==> ranked[v].q < |states|
    ensures |r| == n && forall v :: 0 <= v < n ==> r[v] == states[ranked[v].q]
  {
    seq(n, v requires 0 <= v < n => states[ranked[v].q])
  }

  /** Tokens of `seqLength` steps that end at step t: the word at t is the end
      token 0 (or t is the last step), and every word after t is 0. */
  predicate EndedAt(tokens: seq<nat>, t: nat, seqLength: nat)
  {
    |tokens| == seqLength && t < seqLength && (tokens[t] == 0 || t == seqLength - 1) &&
    forall u :: t < u < seqLength ==> tokens[u] == 0
  }

  /** A beam of `seqLength` steps that ended at the step it was copied. */
  predicate Finished(d: DoneBeam, seqLength: nat)
  {
    |d.logps| == seqLength && EndedAt(d.tokens, d.step, seqLength)
  }

  function DoneScore(d: DoneBeam): real
  {
    d.p
  }

  /** Finished beams copied from beams of `seqLength` steps. */
  ghost predicate AllFinished(all: seq<DoneBeam>, seqLength: nat)
  {
    forall k :: 0 <= k < |all| ==> Finished(all[k], seqLength)
  }

  /** `n` beams of `seqLength` steps with nothing written from step t on. */
  ghost predicate ZeroFrom(cols: seq<seq<nat>>, n: nat, seqLength: nat, t: nat)
  {
    |cols| == n &&
    forall v :: 0 <= v < n ==> |cols[v]| == seqLength && forall u :: t <= u < seqLength ==> cols[v][u] == 0
  }

  /** Forking at step t writes nothing after t. */
  lemma ForkKeepsZeros(before: seq<seq<nat>>, after: seq<seq<nat>>, ranked: seq<Candidate>, n: nat, seqLength: nat,
                       t: nat)
    requires t < seqLength && ZeroFrom(before, n, seqLength, t) && |after| == n && |ranked| >= n
    requires forall v :: 0 <= v < n ==> ranked[v].q < n
    requires forall v :: 0 <= v < n ==> after[v] == Forked(before[ranked[v].q], before[v], t, ranked[v].c)
    ensures ZeroFrom(after, n, seqLength, t + 1)
  {
    forall v | 0 <= v < n
      ensures |after[v]| == seqLength && forall u :: t + 1 <= u < seqLength ==> after[v][u] == 0
    {
      ForkedParts(before[ranked[v].q], before[v], t, ranked[v].c);
    }
  }

  /** The recurrent step of one beam of image `image`: from the fed word and
      the beam's state to its next log-probability row and state. */
  type RowStep<!S> = (nat, nat, S) -> (seq<real>, S)

  /** Feeds every beam its word of step t: the next log-probability rows and
      recurrent states, beam by beam. */
  function Advance<S(!new)>(rowStep: RowStep<S>, image: nat, width: nat, tokens: seq<nat>, states: seq<S>)
    : (r: (seq<seq<real>>, seq<S>))
    requires |tokens| == |states|
    requires forall k, tok, st :: |rowStep(k, tok, st).0| == width
    ensures Rows(r.0, |tokens|, width) && |r.1| == |tokens|
    ensures forall v :: 0 <= v < |tokens| ==>
              r.0[v] == rowStep(image, tokens[v], states[v]).0 && r.1[v] == rowStep(image, tokens[v], states[v]).1
  {
    (seq(|tokens|, v requires 0 <= v < |tokens| => rowStep(image, tokens[v], states[v]).0),
     seq(|tokens|, v requires 0 <= v < |tokens| => rowStep(image, tokens[v], states[v]).1))
  }

  /** The word every beam holds at step t (0 for a beam too short to have one). */
  function WordsAt(cols: seq<seq<nat>>, t: nat): (words: seq<nat>)
    ensures |words| == |cols|
    ensures forall v :: 0 <= v < |cols| && t < |cols[v]| ==> words[v] == cols[v][t]
  {
    seq(|cols|, v requires 0 <= v < |cols| => if t < |cols[v]| then cols[v][t] else 0)
  }

  // ---------------------------------------------------------------------------
  // The search as a function of its inputs

  /** The beam tensors of `beam_search`: every beam's tokens and per-step
      log-probabilities (`beam_seq`, `beam_seq_logprobs`), and its joint
      log-probability (`beam_logprobs_sum`). */
  datatype Beams = Beams(seqs: seq<seq<nat>>, logps: seq<seq<real>>, sums: seq<real>)

  /** `n` beams, each `seqLength` steps long. */
  predicate BeamsShaped(b: Beams, n: nat, seqLength: nat)
  {
    |b.seqs| == n && |b.logps| == n && |b.sums| == n &&
    forall v :: 0 <= v < n ==> |b.seqs[v]| == seqLength && |b.logps[v]| == seqLength
  }

  /** `logprobsf[:, -1] -= 1000` on every beam's row. */
  function SuppressAll(lp: seq<seq<real>>): (r: seq<seq<real>>)
    requires forall q :: 0 <= q < |lp| ==> |lp[q]| >= 1
    ensures |r| == |lp| && forall q :: 0 <= q < |lp| ==> |r[q]| == |lp[q]|
  {
    seq(|lp|, q requires 0 <= q < |lp| => SuppressUnk(lp[q]))
  }

  /** The fork of `beam_step` on the beam tensors: beam v continues the beam
      of the v-th ranked candidate with that candidate's word, word
      log-probability and joint log-probability. Nothing after step t is
      written. */
  function ForkBeams(b: Beams, ranked: seq<Candidate>, t: nat, seqLength: nat): (r: Beams)
    requires BeamsShaped(b, |b.seqs|, seqLength) && t < seqLength && |ranked| >= |b.seqs|
    requires forall v :: 0 <= v < |b.seqs| ==> ranked[v].q < |b.seqs|
    ensures BeamsShaped(r, |b.seqs|, seqLength)
    ensures ZeroFrom(b.seqs, |b.seqs|, seqLength, t) ==> ZeroFrom(r.seqs, |b.seqs|, seqLength, t + 1)
  {
    var n := |b.seqs|;
    var seqs := seq(n, v requires 0 <= v < n => Forked(b.seqs[ranked[v].q], b.seqs[v], t, ranked[v].c));
    var logps := seq(n, v requires 0 <= v < n => Forked(b.logps[ranked[v].q], b.logps[v], t, ranked[v].r));
    var sums := seq(n, v requires 0 <= v < n => b.sums[ranked[v].q] + ranked[v].r);
    assert ZeroFrom(b.seqs, n, seqLength, t) ==> ZeroFrom(seqs, n, seqLength, t + 1) by {
      if ZeroFrom(b.seqs, n, seqLength, t) {
        ForkKeepsZeros(b.seqs, seqs, ranked, n, seqLength, t);
      }
    }
    Beams(seqs, logps, sums)
  }

  /** `beam_step` on the beam tensors: the ranked candidates of step t, and
      the beams forked from them. */
  function StepSpec(lpf: seq<seq<real>>, b: Beams, vocabSize: nat, beamSize: nat, t: nat, seqLength: nat)
    : (r: (Beams, seq<Candidate>))
    requires BeamGuard(beamSize, vocabSize) && t < seqLength
    requires Rows(lpf, beamSize, CaptionRollout.LogitWidth(vocabSize)) && BeamsShaped(b, beamSize, seqLength)
    ensures BeamsShaped(r.0, beamSize, seqLength)
    ensures r.1 == Ranked(Candidates(lpf, b.sums, beamSize, CaptionRollout.LogitWidth(vocabSize), t))
    ensures |r.1| >= beamSize && forall v :: 0 <= v < beamSize ==> r.1[v].q < beamSize
    ensures ZeroFrom(b.seqs, beamSize, seqLength, t) ==> ZeroFrom(r.0.seqs, beamSize, seqLength, t + 1)
  {
    var width := CaptionRollout.LogitWidth(vocabSize);
    BeamGuardSuffices(vocabSize, beamSize, lpf, b.sums, t);
    var ranked := Ranked(Candidates(lpf, b.sums, beamSize, width, t));
    RankedAreCandidates(lpf, b.sums, beamSize, width, t);
    (ForkBeams(b, ranked, t, seqLength), ranked)
  }

  /** Whether a beam is copied to the finished beams at step t: its word at t
      is the end token 0, or t is the last step. */
  predicate Ends(tokens: seq<nat>, t: nat, seqLength: nat)
    requires t < |tokens|
  {
    tokens[t] == 0 || t == seqLength - 1
  }

  /** The finished beams copied at step t from beams 0 .. n-1, in beam order,
      each with the joint log-probability it has before the reset. */
  function FinalizedUpTo(b: Beams, t: nat, seqLength: nat, n: nat): (d: seq<DoneBeam>)
    requires BeamsShaped(b, |b.seqs|, seqLength) && t < seqLength && n <= |b.seqs|
    ensures |d| <= n
  {
    if n == 0 then []
    else
      FinalizedUpTo(b, t, seqLength, n - 1) +
      (if Ends(b.seqs[n - 1], t, seqLength) then [DoneBeam(b.seqs[n - 1], b.logps[n - 1], b.sums[n - 1], t)] else [])
  }

  /** The joint log-probabilities after the copy: -1000 for every copied beam,
      so that it is not continued. */
  function ResetSums(b: Beams, t: nat, seqLength: nat): (s: seq<real>)
    requires BeamsShaped(b, |b.seqs|, seqLength) && t < seqLength
    ensures |s| == |b.seqs|
  {
    seq(|b.seqs|, v requires 0 <= v < |b.seqs| => if Ends(b.seqs[v], t, seqLength) then -1000.0 else b.sums[v])
  }

  /** The beams copied at step t are exactly the beams that end at t, each with
      its tokens, log-probabilities and joint log-probability before the reset. */
  lemma {:induction false} FinalizedExactly(b: Beams, t: nat, seqLength: nat, n: nat)
    requires BeamsShaped(b, |b.seqs|, seqLength) && t < seqLength && n <= |b.seqs|
    ensures forall d :: d in FinalizedUpTo(b, t, seqLength, n) <==>
      exists v :: 0 <= v < n && Ends(b.seqs[v], t, seqLength) && d == DoneBeam(b.seqs[v], b.logps[v], b.sums[v], t)
  {
    if n > 0 {
      FinalizedExactly(b, t, seqLength, n - 1);
    }
  }

  /** At the last step every beam is copied. */
  lemma {:induction false} FinalizedAtLast(b: Beams, t: nat, seqLength: nat, n: nat)
    requires BeamsShaped(b, |b.seqs|, seqLength) && t == seqLength - 1 && n <= |b.seqs|
    ensures |FinalizedUpTo(b, t, seqLength, n)| == n
  {
    if n > 0 {
      FinalizedAtLast(b, t, seqLength, n - 1);
    }
  }

  /** When nothing was written after step t, every beam copied at step t
      records step t and ended there: its word at t is 0 (or t is the last
      step) and every later word is 0. */
  lemma {:induction false} FinalizedFinished(b: Beams, t: nat, seqLength: nat, n: nat)
    requires BeamsShaped(b, |b.seqs|, seqLength) && t < seqLength && n <= |b.seqs|
    requires ZeroFrom(b.seqs, |b.seqs|, seqLength, t + 1)
    ensures forall d :: d in FinalizedUpTo(b, t, seqLength, n) ==> d.step == t
    ensures AllFinished(FinalizedUpTo(b, t, seqLength, n), seqLength)
  {
    if n > 0 {
      FinalizedFinished(b, t, seqLength, n - 1);
      var v := n - 1;
      if Ends(b.seqs[v], t, seqLength) {
        assert EndedAt(b.seqs[v], t, seqLength);
      }
    }
  }

  /** What `beam_search` holds between steps: the beam tensors, each beam's
      log-probability row for the next step and recurrent state, and the
      finished beams so far. */
  datatype SearchState<S> = SearchState(beams: Beams, logprobs: seq<seq<real>>, states: seq<S>, done: seq<DoneBeam>)

  /** The shape kept between steps: `n` beams of `seqLength` steps with
      nothing written from step t on, one row per beam, only finished beams
      copied, and after the last step at least `n` of them. */
  ghost predicate SearchShaped<S>(s: SearchState<S>, n: nat, seqLength: nat, width: nat, t: nat)
  {
    BeamsShaped(s.beams, n, seqLength) && ZeroFrom(s.beams.seqs, n, seqLength, t) &&
    Rows(s.logprobs, n, width) && |s.states| == n && AllFinished(s.done, seqLength) &&
    (t == seqLength >= 1 ==> |s.done| >= n)
  }

  /** The state before step 0: every beam holds the start state fed the start
      token 0, all-zero tensors, and nothing is finished. */
  function SearchStart<S>(rowStep: RowStep<S>, image: nat, init: S, beamSize: nat, seqLength: nat): SearchState<S>
  {
    var first := rowStep(image, 0, init);
    SearchState(Beams(seq(beamSize, _ => CaptionRollout.Zeros(seqLength)),
                      seq(beamSize, _ => seq(seqLength, _ => 0.0)),
                      seq(beamSize, _ => 0.0)),
                seq(beamSize, _ => first.0), seq(beamSize, _ => first.1), [])
  }

  lemma AllFinishedAppend(a: seq<DoneBeam>, b: seq<DoneBeam>, seqLength: nat)
    requires AllFinished(a, seqLength) && AllFinished(b, seqLength)
    ensures AllFinished(a + b, seqLength)
  {
    forall k | 0 <= k < |a + b|
      ensures Finished((a + b)[k], seqLength)
    {
      if k >= |a| {
        assert (a + b)[k] == b[k - |a|];
      }
    }
  }

  /** The state after t steps. */
  function SearchAfter<S(!new)>(rowStep: RowStep<S>, image: nat, init: S, vocabSize: nat, beamSize: nat,
                                seqLength: nat, t: nat): (s: SearchState<S>)
    requires forall k, tok, st :: |rowStep(k, tok, st).0| == CaptionRollout.LogitWidth(vocabSize)
    requires t <= seqLength && (t >= 1 ==> BeamGuard(beamSize, vocabSize))
    ensures SearchShaped(s, beamSize, seqLength, CaptionRollout.LogitWidth(vocabSize), t)
    decreases t, 1
  {
    if t == 0 then
      var s0 := SearchStart(rowStep, image, init, beamSize, seqLength);
      assert ZeroFrom(s0.beams.seqs, beamSize, seqLength, 0);
      s0
    else
      SearchAfterStep(rowStep, image, init, vocabSize, beamSize, seqLength, t - 1)
  }

  /** The state after step t of `beam_search`: one `SearchNext` from the state
      after t steps. It is kept apart from `SearchAfter` so that unfolding
      one of them does not unfold the step. */
  function SearchAfterStep<S(!new)>(rowStep: RowStep<S>, image: nat, init: S, vocabSize: nat, beamSize: nat,
                                    seqLength: nat, t: nat): (r: SearchState<S>)
    requires forall k, tok, st :: |rowStep(k, tok, st).0| == CaptionRollout.LogitWidth(vocabSize)
    requires t < seqLength && BeamGuard(beamSize, vocabSize)
    ensures SearchShaped(r, beamSize, seqLength, CaptionRollout.LogitWidth(vocabSize), t + 1)
    ensures SearchAfter(rowStep, image, init, vocabSize, beamSize, seqLength, t).done <= r.done
    decreases t + 1, 0
  {
    SearchNext(rowStep, image, vocabSize, beamSize, seqLength, t,
               SearchAfter(rowStep, image, init, vocabSize, beamSize, seqLength, t))
  }

  /** Step t of `beam_search` from state s: the beams are forked from the
      ranked candidates of the suppressed log-probability rows, the beams
      that end at step t (or every beam at the last step) join the finished
      ones, their joint log-probability is reset to -1000, and every beam is
      fed its word of step t. */
  function SearchNext<S(!new)>(rowStep: RowStep<S>, image: nat, vocabSize: nat, beamSize: nat,
                               seqLength: nat, t: nat, s: SearchState<S>): (r: SearchState<S>)
    requires forall k, tok, st :: |rowStep(k, tok, st).0| == CaptionRollout.LogitWidth(vocabSize)
    requires t < seqLength && BeamGuard(beamSize, vocabSize)
    requires SearchShaped(s, beamSize, seqLength, CaptionRollout.LogitWidth(vocabSize), t)
    ensures SearchShaped(r, beamSize, seqLength, CaptionRollout.LogitWidth(vocabSize), t + 1)
    ensures s.done <= r.done
  {
    var stepped := StepSpec(SuppressAll(s.logprobs), s.beams, vocabSize, beamSize, t, seqLength);
    var b := stepped.0;
    FinalizedFinished(b, t, seqLength, beamSize);
    assert t == seqLength - 1 ==> |FinalizedUpTo(b, t, seqLength, beamSize)| == beamSize by {
      if t == seqLength - 1 {
        FinalizedAtLast(b, t, seqLength, beamSize);
      }
    }
    var done := s.done + FinalizedUpTo(b, t, seqLength, beamSize);
    AllFinishedAppend(s.done, FinalizedUpTo(b, t, seqLength, beamSize), seqLength);
    var next := Advance(rowStep, image, CaptionRollout.LogitWidth(vocabSize), WordsAt(b.seqs, t),
                        StatesOf(stepped.1, s.states, beamSize));
    SearchState(Beams(b.seqs, b.logps, ResetSums(b, t, seqLength)), next.0, next.1, done)
  }

  /** The state after t + 1 steps is one step from the state after t. */
  lemma SearchAfterNext<S(!new)>(rowStep: RowStep<S>, image: nat, init: S, vocabSize: nat, beamSize: nat,
                                 seqLength: nat, t: nat)
    requires forall k, tok, st :: |rowStep(k, tok, st).0| == CaptionRollout.LogitWidth(vocabSize)
    requires t < seqLength && BeamGuard(beamSize, vocabSize)
    ensures SearchAfter(rowStep, image, init, vocabSize, beamSize, seqLength, t + 1) ==
            SearchNext(rowStep, image, vocabSize, beamSize, seqLength, t,
                       SearchAfter(rowStep, image, init, vocabSize, beamSize, seqLength, t))
  {
  }

  /** The result of `beam_search`: the `beam_size` best of the beams finished
      over `seq_length` steps, each `seq_length` long and finished, with ties
      in the order they finished. */
  function SearchOutcome<S(!new)>(rowStep: RowStep<S>, image: nat, init: S, vocabSize: nat, beamSize: nat,
                                  seqLength: nat): (done: seq<DoneBeam>)
    requires forall k, tok, st :: |rowStep(k, tok, st).0| == CaptionRollout.LogitWidth(vocabSize)
    requires seqLength >= 1 ==> BeamGuard(beamSize, vocabSize)
    ensures |done| == if seqLength == 0 then 0 else beamSize
    ensures SortedDesc(done, DoneScore) && AllFinished(done, seqLength)
  {
    Best(SearchAfter(rowStep, image, init, vocabSize, beamSize, seqLength, seqLength).done, beamSize, seqLength)
  }

  /** The arrays and values of the loop hold the search state `s`. */
  ghost predicate Holds<S>(s: SearchState<S>, beamSeq: array<seq<nat>>, beamLogps: array<seq<real>>, sums: array<real>,
                           logprobs: seq<seq<real>>, states: seq<S>, all: seq<DoneBeam>)
    reads beamSeq, beamLogps, sums
  {
    beamSeq[..] == s.beams.seqs && beamLogps[..] == s.beams.logps && sums[..] == s.beams.sums &&
    logprobs == s.logprobs && states == s.states && all == s.done
  }

  // ---------------------------------------------------------------------------
  // The search on arrays

  /** The end-of-step loop of `beam_search`: a beam whose word at step t is 0,
      or every beam at the last step, is copied to the finished beams, and its
      joint log-probability is reset to -1000. */
  method Finalize(beamSeq: array<seq<nat>>, beamLogps: array<seq<real>>, sums: array<real>, t: nat, seqLength: nat,
                  all: seq<DoneBeam>, ghost b: Beams)
    returns (all': seq<DoneBeam>)
    requires BeamsShaped(b, beamSeq.Length, seqLength) && t < seqLength
    requires beamSeq[..] == b.seqs && beamLogps[..] == b.logps && sums[..] == b.sums
    modifies sums
    ensures all' == all + FinalizedUpTo(b, t, seqLength, beamSeq.Length)
    ensures sums[..] == ResetSums(b, t, seqLength)
  {
    all' := all;
    for vix := 0 to beamSeq.Length
      invariant all' == all + FinalizedUpTo(b, t, seqLength, vix)
      invariant forall v :: 0 <= v < vix ==> sums[v] == ResetSums(b, t, seqLength)[v]
      invariant forall v :: vix <= v < sums.Length ==> sums[v] == b.sums[v]
    {
      assert beamSeq[vix] == b.seqs[vix] && beamLogps[vix] == b.logps[vix];
      if beamSeq[vix][t] == 0 || t == seqLength - 1 {
        all' := all' + [DoneBeam(beamSeq[vix], beamLogps[vix], sums[vix], t)];
        sums[vix] := -1000.0;
      }
    }
  }

  /** One iteration of the step loop of `beam_search` on the arrays: it takes
      the state after t steps to the state after step t. */
  method SearchStep<S(!new)>(rowStep: RowStep<S>, image: nat, vocabSize: nat, beamSize: nat,
                             seqLength: nat, t: nat, beamSeq: array<seq<nat>>, beamLogps: array<seq<real>>,
                             sums: array<real>, logprobs: seq<seq<real>>, states: seq<S>, all: seq<DoneBeam>,
                             ghost s: SearchState<S>)
    returns (logprobs': seq<seq<real>>, states': seq<S>, all': seq<DoneBeam>)
    requires forall k, tok, st :: |rowStep(k, tok, st).0| == CaptionRollout.LogitWidth(vocabSize)
    requires BeamGuard(beamSize, vocabSize) && t < seqLength
    requires SearchShaped(s, beamSize, seqLength, CaptionRollout.LogitWidth(vocabSize), t)
    requires Holds(s, beamSeq, beamLogps, sums, logprobs, states, all)
    modifies beamSeq, beamLogps, sums
    ensures Holds(SearchNext(rowStep, image, vocabSize, beamSize, seqLength, t, s), beamSeq, beamLogps, sums,
                  logprobs', states', all')
  {
    var width := CaptionRollout.LogitWidth(vocabSize);
    var lpf := SuppressAll(logprobs);
    var forked := StepBeams(lpf, vocabSize, beamSize, seqLength, t, beamSeq, beamLogps, sums, states, s.beams);
    ghost var stepped := StepSpec(lpf, s.beams, vocabSize, beamSize, t, seqLength);
    all' := Finalize(beamSeq, beamLogps, sums, t, seqLength, all, stepped.0);
    var next := Advance(rowStep, image, width, WordsAt(beamSeq[..], t), forked);
    logprobs', states' := next.0, next.1;
  }

  /** The beam step of one iteration on the arrays: the beams become those of
      `StepSpec`, and every beam takes the recurrent state of the beam it
      continues. */
  method StepBeams<S>(lpf: seq<seq<real>>, vocabSize: nat, beamSize: nat, seqLength: nat, t: nat,
                      beamSeq: array<seq<nat>>, beamLogps: array<seq<real>>, sums: array<real>, states: seq<S>,
                      ghost b: Beams)
    returns (forked: seq<S>)
    requires BeamGuard(beamSize, vocabSize) && t < seqLength
    requires Rows(lpf, beamSize, CaptionRollout.LogitWidth(vocabSize)) && |states| == beamSize
    requires BeamsShaped(b, beamSize, seqLength)
    requires beamSeq[..] == b.seqs && beamLogps[..] == b.logps && sums[..] == b.sums
    modifies beamSeq, beamLogps, sums
    ensures var r := StepSpec(lpf, b, vocabSize, beamSize, t, seqLength);
      beamSeq[..] == r.0.seqs && beamLogps[..] == r.0.logps && sums[..] == r.0.sums &&
      forked == StatesOf(r.1, states, beamSize)
  {
    BeamGuardSuffices(vocabSize, beamSize, lpf, sums[..], t);
    var ranked;
    forked, ranked := BeamStep(lpf, beamSize, CaptionRollout.LogitWidth(vocabSize), t, beamSeq, beamLogps, sums, states);
    ghost var r := StepSpec(lpf, b, vocabSize, beamSize, t, seqLength);
    assert ranked == r.1;
    assert beamSeq[..] == r.0.seqs;
    assert beamLogps[..] == r.0.logps;
    forall v | 0 <= v < beamSize ensures sums[v] == r.0.sums[v] {
      assert old(sums[ranked[v].q]) == b.sums[ranked[v].q];
    }
    assert sums[..] == r.0.sums;
  }

  /** Step 0 of `sample_beam`: the beam tensors of `beam_search` start at zero
      and every beam is fed the start token 0. */
  method StartArrays<S>(rowStep: RowStep<S>, image: nat, init: S, beamSize: nat, seqLength: nat)
    returns (beamSeq: array<seq<nat>>, beamLogps: array<seq<real>>, sums: array<real>,
             logprobs: seq<seq<real>>, states: seq<S>)
    ensures fresh(beamSeq) && fresh(beamLogps) && fresh(sums)
    ensures Holds(SearchStart(rowStep, image, init, beamSize, seqLength),
                  beamSeq, beamLogps, sums, logprobs, states, [])
  {
    var start := SearchStart(rowStep, image, init, beamSize, seqLength);
    logprobs, states := start.logprobs, start.states;
    beamSeq := new seq<nat>[beamSize](v requires 0 <= v < beamSize => start.beams.seqs[v]);
    beamLogps := new seq<real>[beamSize](v requires 0 <= v < beamSize => start.beams.logps[v]);
    sums := new real[beamSize](v requires 0 <= v < beamSize => start.beams.sums[v]);
  }

  /** `beam_search`: `seq_length` steps from the start state on the arrays;
      the result is `SearchOutcome`. */
  method Search<S(!new)>(rowStep: RowStep<S>, image: nat, init: S, beamSize: nat, seqLength: nat, vocabSize: nat)
    returns (done: seq<DoneBeam>)
    requires forall k, tok, st :: |rowStep(k, tok, st).0| == CaptionRollout.LogitWidth(vocabSize)
    requires seqLength >= 1 ==> BeamGuard(beamSize, vocabSize)
    ensures done == SearchOutcome(rowStep, image, init, vocabSize, beamSize, seqLength)
  {
    var beamSeq, beamLogps, sums, logprobs, states := StartArrays(rowStep, image, init, beamSize, seqLength);
    var all: seq<DoneBeam> := [];
    ghost var s := SearchStart(rowStep, image, init, beamSize, seqLength);
    for t := 0 to seqLength
      invariant s == SearchAfter(rowStep, image, init, vocabSize, beamSize, seqLength, t)
      invariant Holds(s, beamSeq, beamLogps, sums, logprobs, states, all)
    {
      logprobs, states, all := SearchStep(rowStep, image, vocabSize, beamSize, seqLength, t, beamSeq, beamLogps, sums,
                                          logprobs, states, all, s);
      SearchAfterNext(rowStep, image, init, vocabSize, beamSize, seqLength, t);
      s := SearchNext(rowStep, image, vocabSize, beamSize, seqLength, t, s);
    }
    done := Best(all, beamSize, seqLength);
  }

  /** Beams drawn from finished beams are finished. */
  lemma AllFinishedSub(some: seq<DoneBeam>, all: seq<DoneBeam>, seqLength: nat)
    requires AllFinished(all, seqLength) && multiset(some) <= multiset(all)
    ensures AllFinished(some, seqLength)
  {
    forall k | 0 <= k < |some|
      ensures Finished(some[k], seqLength)
    {
      assert some[k] in multiset(all);
      var j :| 0 <= j < |all| && all[j] == some[k];
    }
  }

  /** The first `n` finished beams of the stable sort by descending joint
      log-probability, with ties in the order they finished. */
  function Best(all: seq<DoneBeam>, n: nat, ghost seqLength: nat): (done: seq<DoneBeam>)
    requires AllFinished(all, seqLength)
    ensures |done| == Min(n, |all|)
    ensures SortedDesc(done, DoneScore)
    ensures AllFinished(done, seqLength)
    ensures multiset(done) <= multiset(all)
    ensures forall v :: WithKey(done, DoneScore, v) <= WithKey(all, DoneScore, v)
  {
    var ranked := SortDesc(all, DoneScore);
    var m := Min(n, |ranked|);
    PrefixKeeps(ranked, m, DoneScore);
    AllFinishedSub(ranked[..m], all, seqLength);
    ranked[..m]
  }

  /** The kept beams are the best: each scores at least as high as every
      finished beam that is dropped. */
  lemma BestDominates(all: seq<DoneBeam>, n: nat, seqLength: nat)
    requires AllFinished(all, seqLength)
    ensures forall k, d :: 0 <= k < |Best(all, n, seqLength)| && d in all && d !in Best(all, n, seqLength) ==>
      Best(all, n, seqLength)[k].p >= d.p
  {
    var ranked := SortDesc(all, DoneScore);
    var m := Min(n, |ranked|);
    var done := Best(all, n, seqLength);
    assert done == ranked[..m];
    forall k, d | 0 <= k < |done| && d in all && d !in done ensures done[k].p >= d.p {
      assert d in multiset(ranked);
      var i :| 0 <= i < |ranked| && ranked[i] == d;
      assert i >= m;
      assert DoneScore(ranked[k]) >= DoneScore(ranked[i]);
    }
  }

  /** The first kept beam is the first finished beam with the highest joint
      log-probability. */
  lemma BestHead(all: seq<DoneBeam>, n: nat, seqLength: nat)
    requires AllFinished(all, seqLength) && n >= 1 && all != []
    ensures Best(all, n, seqLength)[0] == MaxFirst(all, DoneScore)
  {
    SortDescHead(all, DoneScore);
  }

  /** The best finished beam of the search of image k, started from that
      image's recurrent state: the first finished beam with the highest joint
      log-probability, which is `done_beams[k][0]` (`OutcomeHead`). */
  function BestOfImage<S(!new)>(rowStep: RowStep<S>, inits: seq<S>, k: nat, vocabSize: nat,
                                beamSize: nat, seqLength: nat): (best: DoneBeam)
    requires forall k, tok, st :: |rowStep(k, tok, st).0| == CaptionRollout.LogitWidth(vocabSize)
    requires k < |inits| && seqLength >= 1 && BeamGuard(beamSize, vocabSize)
    ensures Finished(best, seqLength)
  {
    var all := SearchAfter(rowStep, k, inits[k], vocabSize, beamSize, seqLength, seqLength).done;
    MaxFirst(all, DoneScore)
  }

  /** The head of the result of the search of image k is `BestOfImage`. */
  lemma OutcomeHead<S(!new)>(rowStep: RowStep<S>, inits: seq<S>, k: nat, vocabSize: nat,
                             beamSize: nat, seqLength: nat)
    requires forall k, tok, st :: |rowStep(k, tok, st).0| == CaptionRollout.LogitWidth(vocabSize)
    requires k < |inits| && seqLength >= 1 && BeamGuard(beamSize, vocabSize)
    ensures SearchOutcome(rowStep, k, inits[k], vocabSize, beamSize, seqLength) != []
    ensures SearchOutcome(rowStep, k, inits[k], vocabSize, beamSize, seqLength)[0] ==
            BestOfImage(rowStep, inits, k, vocabSize, beamSize, seqLength)
  {
    var all := SearchAfter(rowStep, k, inits[k], vocabSize, beamSize, seqLength, seqLength).done;
    var done := Best(all, beamSize, seqLength);
    assert done[0] in multiset(all);
    BestHead(all, beamSize, seqLength);
  }

  /** The tokens and log-probabilities of the best beams of images 0 .. n-1. */
  function BestOfImages<S(!new)>(rowStep: RowStep<S>, inits: seq<S>, n: nat, vocabSize: nat,
                                 beamSize: nat, seqLength: nat): (r: (seq<seq<nat>>, seq<seq<real>>))
    requires forall k, tok, st :: |rowStep(k, tok, st).0| == CaptionRollout.LogitWidth(vocabSize)
    requires n <= |inits| && (n >= 1 ==> seqLength >= 1) && BeamGuard(beamSize, vocabSize)
    ensures |r.0| == n && |r.1| == n
  {
    if n == 0 then ([], [])
    else
      var prev := BestOfImages(rowStep, inits, n - 1, vocabSize, beamSize, seqLength);
      var best := BestOfImage(rowStep, inits, n - 1, vocabSize, beamSize, seqLength);
      (prev.0 + [best.tokens], prev.1 + [best.logps])
  }

  /** Entry k of the best beams of images 0 .. n-1 is the best beam of image k. */
  lemma {:induction false} BestOfImagesAt<S(!new)>(rowStep: RowStep<S>, inits: seq<S>, n: nat,
                                                   vocabSize: nat, beamSize: nat, seqLength: nat, k: nat)
    requires forall k, tok, st :: |rowStep(k, tok, st).0| == CaptionRollout.LogitWidth(vocabSize)
    requires k < n <= |inits| && seqLength >= 1 && BeamGuard(beamSize, vocabSize)
    ensures var best := BestOfImage(rowStep, inits, k, vocabSize, beamSize, seqLength);
      BestOfImages(rowStep, inits, n, vocabSize, beamSize, seqLength).0[k] == best.tokens &&
      BestOfImages(rowStep, inits, n, vocabSize, beamSize, seqLength).1[k] == best.logps
  {
    if k < n - 1 {
      BestOfImagesAt(rowStep, inits, n - 1, vocabSize, beamSize, seqLength, k);
    }
  }

  /** The search of image k, from that image's recurrent state. */
  method SearchImage<S(!new)>(rowStep: RowStep<S>, inits: seq<S>, k: nat, beamSize: nat,
                              seqLength: nat, vocabSize: nat)
    returns (done: seq<DoneBeam>)
    requires forall k, tok, st :: |rowStep(k, tok, st).0| == CaptionRollout.LogitWidth(vocabSize)
    requires k < |inits| && BeamGuard(beamSize, vocabSize)
    ensures |done| == if seqLength == 0 then 0 else beamSize
    ensures seqLength >= 1 ==> done[0] == BestOfImage(rowStep, inits, k, vocabSize, beamSize, seqLength)
  {
    done := Search(rowStep, k, inits[k], beamSize, seqLength, vocabSize);
    if seqLength >= 1 {
      BestHead(SearchAfter(rowStep, k, inits[k], vocabSize, beamSize, seqLength, seqLength).done,
               beamSize, seqLength);
    }
  }

  /** The loop over the images of `sample_beam`: the best beam of every image,
      or None when an image has no finished beam. */
  method SampleImages<S(!new)>(rowStep: RowStep<S>, inits: seq<S>, beamSize: nat,
                               seqLength: nat, vocabSize: nat)
    returns (r: Option<(seq<seq<nat>>, seq<seq<real>>)>)
    requires forall k, tok, st :: |rowStep(k, tok, st).0| == CaptionRollout.LogitWidth(vocabSize)
    requires BeamGuard(beamSize, vocabSize)
    ensures r.Some? <==> inits == [] || seqLength >= 1
    ensures r.Some? ==> r.value == BestOfImages(rowStep, inits, |inits|, vocabSize, beamSize, seqLength)
  {
    var images: (seq<seq<nat>>, seq<seq<real>>) := ([], []);
    for k := 0 to |inits|
      invariant k >= 1 ==> seqLength >= 1
      invariant images == BestOfImages(rowStep, inits, k, vocabSize, beamSize, seqLength)
    {
      var done := SearchImage(rowStep, inits, k, beamSize, seqLength, vocabSize);
      if done == [] {
        return None;
      }
      // the first beam has the highest joint log-probability
      images := (images.0 + [done[0].tokens], images.1 + [done[0].logps]);
    }
    return Some(images);
  }

  /** `sample_beam`: every image is decoded on its own by `Search`, started
      from that image's recurrent state, and contributes the tokens and
      per-step log-probabilities of its best finished beam. A batch without
      images fails first, in the padding step (`torch.cat` of an empty list).
      The beam-size guard is the corrected `BeamGuard`; with it, the only
      remaining failure is an empty list of finished beams, which happens when
      `seq_length` is 0. */
  method SampleBeam<S(!new)>(rowStep: RowStep<S>, inits: seq<S>, beamSize: nat, seqLength: nat,
                             vocabSize: nat)
    returns (r: Result<(seq<seq<nat>>, seq<seq<real>>), string>)
    requires forall k, tok, st :: |rowStep(k, tok, st).0| == CaptionRollout.LogitWidth(vocabSize)
    ensures r.Ok? <==> inits != [] && BeamGuard(beamSize, vocabSize) && seqLength >= 1
    ensures inits == [] ==> r == Err(RelPadding.EmptyCatError)
    ensures r.Ok? ==> |r.value.0| == |inits| && |r.value.1| == |inits|
    ensures r.Ok? ==> forall k :: 0 <= k < |inits| ==>
      |r.value.1[k]| == seqLength &&
      EndedAt(r.value.0[k], BestOfImage(rowStep, inits, k, vocabSize, beamSize, seqLength).step, seqLength)
    ensures r.Ok? ==> forall k :: 0 <= k < |inits| ==>
      r.value.0[k] == BestOfImage(rowStep, inits, k, vocabSize, beamSize, seqLength).tokens &&
      r.value.1[k] == BestOfImage(rowStep, inits, k, vocabSize, beamSize, seqLength).logps
  {
    if inits == [] {
      return Err(RelPadding.EmptyCatError);
    }
    if !BeamGuard(beamSize, vocabSize) {
      return Err(BeamSizeError);
    }
    var images := SampleImages(rowStep, inits, beamSize, seqLength, vocabSize);
    if images.None? {
      return Err(NoFinishedBeamError);
    }
    forall k | 0 <= k < |inits|
      ensures images.value.0[k] == BestOfImage(rowStep, inits, k, vocabSize, beamSize, seqLength).tokens
      ensures images.value.1[k] == BestOfImage(rowStep, inits, k, vocabSize, beamSize, seqLength).logps
    {
      BestOfImagesAt(rowStep, inits, |inits|, vocabSize, beamSize, seqLength, k);
    }
    return Ok(images.value);
  }
}
