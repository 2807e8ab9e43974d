# Scene-graph caption and context heads: a Dafny model of their control logic

This project models the discrete control that surrounds the neural layers of
three modules of a scene-graph generation code base:

- **Relation caption model** (`RelCaptionModel.py`):
  - the per-image relation padding of `_PadRelFeats` and `_EvalPadRelFeats`
    (frequency re-ranking, truncation, oversampling, replication per caption);
  - the teacher-forced training rollout of `forward`, with scheduled sampling and a
    batch-level early stop;
  - the greedy/sampled decoding of `sample`, with its `unfinished` mask;
  - beam search (`beam_step`, `beam_search`, `sample_beam`);
  - the vocabulary re-keying done in `__init__`.
- **IMP context** (`model_imp.py`):
  - mode selection in `IMPContext.__init__`;
  - in `IMPContext.forward`: the per-image offsets, the global subject and object
    indices, the `sub2rel`/`obj2rel` incidence matrices, `sub2rel @ pre_out +
    obj2rel @ pre_in` as a scatter-sum, the growing `vert_factor`/`edge_factor`
    histories, and the `predcls` one-hot bypass.
- **Tree-LSTM object decoder** (`decoder_hrtree_lstm.py`):
  - the direction switch of `__init__`;
  - the post-processing of `DecoderHrTreeLSTM.forward`: re-ordering and
    `[:-batch_size]` slicing, the greedy per-class NMS that commits one class to
    every box, and the label override / zero padding.

The neural parts are oracles passed in as functions:

- the recurrent step of the caption core with its projection and log-softmax;
- the token chooser (`torch.max` or `multinomial`);
- the scheduled-sampling mask and draw;
- the IMP GRU cells, gates and linear heads;
- `to_onehot`, `softmax` and the box IoU of `nms_overlaps`.

Feature rows are `seq<real>`, and scores are `real`; only their order and sums matter.
A finished beam of `beam_search` is a copy of a beam taken at some step t.
The model records t with the copy. The beam is finished when its word at t
is 0 (or t is the last step) and every later word is 0.
Randomness (`np.random.choice`, `uniform_`, `multinomial`) is replaced by
caller-supplied indices, masks and oracles.

Modules, one per file: `Common` (options, results, sums, gathers, the stable
descending sort and argsort), `RelPadding`, `CaptionRollout`, `BeamSearch`,
`ImpContext`, `TreeDecoder`. Code that updates state in place is modelled
imperatively and proved against a specification function:

- the per-image loops;
- the rollout loops;
- the beam arrays;
- the incidence matrices (`array2`);
- the NMS score matrix (`array2`) and its commitments array.

Three behaviours of the code are easy to misread from its names and comments;
the model follows the code in each:

- The frequency re-ranking uses `np.argsort` with its default, non-stable kind,
  so ties may come out in any order. The padding lemmas hold for *every*
  descending order (`IsDescendingOrder`). The executable model picks the stable one.
- Oversampling draws with replacement. It does not guarantee that every relation
  of a short run appears (`OversamplingMayMissRows`).
- Every beam is finalised at the last step, so `beam_search` always has at least
  `beam_size` finished beams; no padding "from whatever remains" exists.

Two places in the code look wrong (see Findings). The model keeps the code in
one of them and the corrected guard in the other:

- `sample_beam` asserts `beam_size <= vocab_size + 1` with the already
  incremented `vocab_size`. That admits one beam more than there are logit
  columns (see Findings). The model uses the guard the code needs.
- The greedy NMS of `DecoderHrTreeLSTM.forward` runs as written: its class
  suppression also reaches boxes already retired, so a box can be picked twice
  and another never (see Findings). `NmsCommitments`, `Commitments` and
  `Forward` use this loop (`Nms(..., true)`); the loop with suppression kept
  off retired boxes (`Nms(..., false)`) is modelled beside it as the reference
  for what the loop is meant to do.

## Model

| member | source | states |
|---|---|---|
| Common.Gather | models/modeling/roi_heads/scenegraph_head/caption_lstm/RelCaptionModel.py:44-46 | indexing by an index tensor: one element per index, element k is `xs[idx[k]]` |
| Common.Insert | models/modeling/roi_heads/scenegraph_head/caption_lstm/RelCaptionModel.py:421 | inserting into a descending sequence adds exactly that element (multiset) and keeps it descending |
| Common.SortDesc | models/modeling/roi_heads/scenegraph_head/caption_lstm/RelCaptionModel.py:421 | `sorted(..., key=-p)`: a permutation of the input (multiset equality) with non-increasing keys, and stable: for every key, its elements keep their input order |
| Common.InsertWithKey | models/modeling/roi_heads/scenegraph_head/caption_lstm/RelCaptionModel.py:421 | inserting x puts it ahead of every element with an equal key and leaves the order of every key's elements otherwise unchanged |
| Common.WithKeyPrefix | models/modeling/roi_heads/scenegraph_head/caption_lstm/RelCaptionModel.py:489 | a prefix keeps, for every key, a prefix of that key's elements, in order |
| Common.PrefixKeeps | models/modeling/roi_heads/scenegraph_head/caption_lstm/RelCaptionModel.py:489 | `[:n]` keeps a sub-multiset of the elements, a prefix of every key's elements, and a descending order |
| Common.MaxFirstIsFirstMax | models/modeling/roi_heads/scenegraph_head/caption_lstm/RelCaptionModel.py:387 | `MaxFirst` has the highest key of all elements, and every element ahead of its position has a strictly lower key |
| Common.SortDescHead | models/modeling/roi_heads/scenegraph_head/caption_lstm/RelCaptionModel.py:387 | the head of the stable descending sort is the first element with the highest key |
| Common.MultisetRangeIsPermutation | models/modeling/roi_heads/scenegraph_head/caption_lstm/RelCaptionModel.py:43 | a sequence with the same elements as `arange(n)` lists every index below n exactly once |
| Common.ArgsortDesc | models/modeling/roi_heads/scenegraph_head/caption_lstm/RelCaptionModel.py:43 | the descending argsort is a permutation of the indices whose keys never increase |
| RelPadding.Triples | models/modeling/roi_heads/scenegraph_head/caption_lstm/RelCaptionModel.py:30-35 | one triple per relation of the run: (class of its subject box, class of its object box, its predicate class) |
| RelPadding.FreqKeys | models/modeling/roi_heads/scenegraph_head/caption_lstm/RelCaptionModel.py:39-42 | one frequency-table count per triple, in run order |
| RelPadding.RunOrder | models/modeling/roi_heads/scenegraph_head/caption_lstm/RelCaptionModel.py:43 | the order used to re-rank a run is a descending argsort of its triple counts |
| RelPadding.PadImagePairing | models/modeling/roi_heads/scenegraph_head/caption_lstm/RelCaptionModel.py:44-57 | every image yields exactly `num_relation` rows, and feature row k and triple row k are read from the same relation of the run |
| RelPadding.TruncationKeepsTopRows | models/modeling/roi_heads/scenegraph_head/caption_lstm/RelCaptionModel.py:38-51 | a long run keeps its first `num_relation` rows (the run's own prefix without a table); the rows come from distinct relations; with a table their counts never increase |
| RelPadding.OversamplingMayMissRows | models/modeling/roi_heads/scenegraph_head/caption_lstm/RelCaptionModel.py:52-57 | oversampling with replacement can repeat a relation and leave another out |
| RelPadding.PadRun | models/modeling/roi_heads/scenegraph_head/caption_lstm/RelCaptionModel.py:29-57 | the per-image loop body computes exactly the padding of that image |
| RelPadding.Repeat | models/modeling/roi_heads/scenegraph_head/caption_lstm/RelCaptionModel.py:59-60 | `[x] * n` has n elements, all x |
| RelPadding.AllPaddings | models/modeling/roi_heads/scenegraph_head/caption_lstm/RelCaptionModel.py:29 | one padding per image, in image order |
| RelPadding.ExpandLength | models/modeling/roi_heads/scenegraph_head/caption_lstm/RelCaptionModel.py:59-62 | replication yields images x copies rows |
| RelPadding.ExpandConcat | models/modeling/roi_heads/scenegraph_head/caption_lstm/RelCaptionModel.py:59-62 | replication distributes over concatenation of the image list |
| RelPadding.ExpandBlock | models/modeling/roi_heads/scenegraph_head/caption_lstm/RelCaptionModel.py:59-62 | rows `j*c` up to `j*c + c` of the training output are c identical copies of image j's padding |
| RelPadding.NoCopies | models/modeling/roi_heads/scenegraph_head/caption_lstm/RelCaptionModel.py:59-61 | images x copies is 0 exactly when there is no image or no copy per image, which is when the concatenated output is empty |
| RelPadding.PadRelFeats | models/modeling/roi_heads/scenegraph_head/caption_lstm/RelCaptionModel.py:17-63 | `_PadRelFeats` fails (empty `torch.cat`) iff there is no image or `seq_per_img` is 0; otherwise it returns `seq_per_img` consecutive copies of every image's padding, in image order, images x copies rows |
| RelPadding.EvalPadRelFeats | models/modeling/roi_heads/scenegraph_head/caption_lstm/RelCaptionModel.py:66-111 | `_EvalPadRelFeats` fails iff there is no image; otherwise it returns exactly one padding per image, in image order |
| RelPadding.ExpandOnce | models/modeling/roi_heads/scenegraph_head/caption_lstm/RelCaptionModel.py:107-108 | with one copy per image the output is the list of paddings itself |
| CaptionRollout.MaskColumn | models/modeling/roi_heads/scenegraph_head/caption_lstm/RelCaptionModel.py:255-261 | scheduled sampling: rows picked by the mask take the drawn token, every other row its ground-truth label |
| CaptionRollout.Cat | models/modeling/roi_heads/scenegraph_head/caption_lstm/RelCaptionModel.py:273 | stacking the step outputs fails exactly when there are none |
| CaptionRollout.OutputsSnoc | models/modeling/roi_heads/scenegraph_head/caption_lstm/RelCaptionModel.py:272 | appending a step appends its output |
| CaptionRollout.TeacherForcedRollout | models/modeling/roi_heads/scenegraph_head/caption_lstm/RelCaptionModel.py:250-273 | the step loop of `forward` returns the stacked outputs of the specified rollout `Teacher` |
| CaptionRollout.TeacherFromStops | models/modeling/roi_heads/scenegraph_head/caption_lstm/RelCaptionModel.py:251-266 | from step i: at most `size(1) - 1 - i` steps, no stop at step 0, no stop before the first later step whose label column sums to 0, and a stop there |
| CaptionRollout.TeacherStopRule | models/modeling/roi_heads/scenegraph_head/caption_lstm/RelCaptionModel.py:251-273 | at most `seq_labels.size(1) - 1` outputs; at least one when there are two columns (stacking fails iff fewer); batch-level stop at the first step i >= 1 whose whole label column is 0 |
| CaptionRollout.TeacherFromInputs | models/modeling/roi_heads/scenegraph_head/caption_lstm/RelCaptionModel.py:252-264 | every step from i on is fed the labels, except rows picked by the mask when training at a step >= 1 with `ss_prob > 0`, which get the token drawn from the previous step's output |
| CaptionRollout.TeacherInputs | models/modeling/roi_heads/scenegraph_head/caption_lstm/RelCaptionModel.py:252-264 | the whole rollout is fed as scheduled, and step 0 always gets the ground truth |
| CaptionRollout.StillUnfinished | models/modeling/roi_heads/scenegraph_head/caption_lstm/RelCaptionModel.py:330-333 | a row is unfinished iff it was unfinished and its token is non-zero |
| CaptionRollout.MaskFinished | models/modeling/roi_heads/scenegraph_head/caption_lstm/RelCaptionModel.py:336 | finished rows emit 0; unfinished rows emit their token |
| CaptionRollout.SampleRollout | models/modeling/roi_heads/scenegraph_head/caption_lstm/RelCaptionModel.py:311-341 | the step loop of `sample` returns the stacked columns of the specified decoding `Sample` |
| CaptionRollout.SampleFromLength | models/modeling/roi_heads/scenegraph_head/caption_lstm/RelCaptionModel.py:313 | from step t at most `seq_length + 1 - t` columns are emitted |
| CaptionRollout.ConsEmitted | models/modeling/roi_heads/scenegraph_head/caption_lstm/RelCaptionModel.py:329-338 | one more step keeps the column shape, non-ended columns, "only unfinished rows emit words" and "0 sticks" |
| CaptionRollout.SampleFromShape | models/modeling/roi_heads/scenegraph_head/caption_lstm/RelCaptionModel.py:329-338 | every emitted column has `bs` tokens and a non-zero one, a row emits a word only while unfinished, and a row that emitted 0 emits only 0 afterwards |
| CaptionRollout.SampleShape | models/modeling/roi_heads/scenegraph_head/caption_lstm/RelCaptionModel.py:313-341 | at most `seq_length` columns of `bs` tokens, each with a row still producing words; a row emits words only while unfinished; a row that emitted 0 emits only 0; stacking fails iff `seq_length` is 0 or every first chosen token is 0 |
| CaptionRollout.NatToString | models/modeling/roi_heads/scenegraph_head/caption_lstm/RelCaptionModel.py:166 | `str(i)` is non-empty, and a single character exactly when i is below 10 |
| CaptionRollout.NatToStringInjective | models/modeling/roi_heads/scenegraph_head/caption_lstm/RelCaptionModel.py:166 | distinct indices have distinct decimal keys |
| CaptionRollout.IndexKeysCard | models/modeling/roi_heads/scenegraph_head/caption_lstm/RelCaptionModel.py:166 | the keys `str(0) .. str(n-1)` are n distinct strings |
| CaptionRollout.FirstMissing | models/modeling/roi_heads/scenegraph_head/caption_lstm/RelCaptionModel.py:166 | finds the first index whose key is missing, or reports that none is |
| CaptionRollout.RekeyVocab | models/modeling/roi_heads/scenegraph_head/caption_lstm/RelCaptionModel.py:165-166 | re-keying fails (`KeyError`) iff some `str(i)`, i below the size, is missing, and it names the first such key; otherwise it maps every i below the size to `vocabs[str(i)]` |
| CaptionRollout.RekeyVocabKeys | models/modeling/roi_heads/scenegraph_head/caption_lstm/RelCaptionModel.py:165-167 | index 0 maps to `__SENTSIGN__` and every other index to its word; re-keying succeeds iff the keys are exactly `str(0) .. str(n-1)`, so no word is dropped |
| BeamSearch.SuppressUnk | models/modeling/roi_heads/scenegraph_head/caption_lstm/RelCaptionModel.py:461 | the last column is lowered by 1000; every other column is unchanged |
| BeamSearch.CandColumn | models/modeling/roi_heads/scenegraph_head/caption_lstm/RelCaptionModel.py:407-420 | rank c of every expanded beam: word `ix[q, c]`, `r = ys[q, c]`, `p = sum[q] + r` |
| BeamSearch.CandidatesUpTo | models/modeling/roi_heads/scenegraph_head/caption_lstm/RelCaptionModel.py:413-420 | cols x rows candidates; each extends a beam below rows with one of its words, at `p = sum[q] + r` |
| BeamSearch.Candidates | models/modeling/roi_heads/scenegraph_head/caption_lstm/RelCaptionModel.py:408-420 | `min(beam_size, width)` words of beam 0 at step 0 and of every beam later |
| BeamSearch.Ranked | models/modeling/roi_heads/scenegraph_head/caption_lstm/RelCaptionModel.py:421 | the ranking is a permutation of the candidates in non-increasing `p`; candidates with equal `p` keep their order (Python's sort is stable) |
| BeamSearch.RankedAreCandidates | models/modeling/roi_heads/scenegraph_head/caption_lstm/RelCaptionModel.py:413-421 | every ranked candidate extends an expanded beam with one of its words, at that word's log-probability |
| BeamSearch.RankedKeepsBest | models/modeling/roi_heads/scenegraph_head/caption_lstm/RelCaptionModel.py:421-430 | the `beam_size` kept candidates score at least as high as every dropped one |
| BeamSearch.GuardAsWrittenAdmitsShortCandidates | models/modeling/roi_heads/scenegraph_head/caption_lstm/RelCaptionModel.py:364 | the assert admits `beam_size` = columns + 1, and then step 0 offers fewer candidates than beams |
| BeamSearch.BeamGuardSuffices | models/modeling/roi_heads/scenegraph_head/caption_lstm/RelCaptionModel.py:409-430 | with 1 <= `beam_size` <= columns every step has at least `beam_size` candidates, and at step 0 this guard is also necessary |
| BeamSearch.Forked | models/modeling/roi_heads/scenegraph_head/caption_lstm/RelCaptionModel.py:433-441 | a forked beam keeps its length |
| BeamSearch.ForkedParts | models/modeling/roi_heads/scenegraph_head/caption_lstm/RelCaptionModel.py:433-441 | a forked beam equals its parent before t, holds the new entry at t, and keeps its own entries after t |
| BeamSearch.BeamStep | models/modeling/roi_heads/scenegraph_head/caption_lstm/RelCaptionModel.py:394-444 | `beam_step`: the candidates ranked; beam v continues the parent of the v-th ranked candidate (the parent's pre-step tokens and log-probs before t, the word and r at t) with sum p and the parent's state |
| BeamSearch.Fork | models/modeling/roi_heads/scenegraph_head/caption_lstm/RelCaptionModel.py:423-443 | the forking loop reads parents from copies made before any write, so no beam sees a sibling's new history; states are gathered by parent |
| BeamSearch.ForkBeam | models/modeling/roi_heads/scenegraph_head/caption_lstm/RelCaptionModel.py:432-442 | one fork writes beam v only; every other beam is unchanged |
| BeamSearch.StatesOf | models/modeling/roi_heads/scenegraph_head/caption_lstm/RelCaptionModel.py:436-438 | beam v's new state is its parent's state |
| BeamSearch.ForkKeepsZeros | models/modeling/roi_heads/scenegraph_head/caption_lstm/RelCaptionModel.py:433-441 | forking at step t writes nothing after t |
| BeamSearch.StepSpec | models/modeling/roi_heads/scenegraph_head/caption_lstm/RelCaptionModel.py:407-443 | `beam_step` on the beam tensors: the candidates are ranked as `Ranked` says, the first `beam_size` continue beams below `beam_size`, every beam stays `seq_length` long, and nothing is written after t |
| BeamSearch.FinalizedExactly | models/modeling/roi_heads/scenegraph_head/caption_lstm/RelCaptionModel.py:474-482 | the beams copied at step t are exactly those whose word at t is 0 or every beam at the last step, each with its tokens, log-probs and joint log-probability before the reset |
| BeamSearch.FinalizedAtLast | models/modeling/roi_heads/scenegraph_head/caption_lstm/RelCaptionModel.py:476 | at the last step every beam is copied |
| BeamSearch.FinalizedFinished | models/modeling/roi_heads/scenegraph_head/caption_lstm/RelCaptionModel.py:474-482 | when nothing was written after t, every beam copied at step t records step t and is finished: `seq_length` long, with word 0 at t (unless t is the last step) and 0 at every later step |
| BeamSearch.Finalize | models/modeling/roi_heads/scenegraph_head/caption_lstm/RelCaptionModel.py:474-484 | the finished list grows by exactly the copied beams of `FinalizedUpTo`, in beam order, and the joint log-probabilities become `ResetSums`: -1000 for every copied beam, unchanged for the rest |
| BeamSearch.Advance | models/modeling/roi_heads/scenegraph_head/caption_lstm/RelCaptionModel.py:486-487 | every beam is fed its word of step t with its own state |
| BeamSearch.StepBeams | models/modeling/roi_heads/scenegraph_head/caption_lstm/RelCaptionModel.py:463-473 | the beam arrays become the beams of `StepSpec` (beam v continues the parent of the v-th ranked candidate) and each beam takes its parent's recurrent state |
| BeamSearch.SearchAfter | models/modeling/roi_heads/scenegraph_head/caption_lstm/RelCaptionModel.py:447-487 | the state after t steps: `beam_size` beams of `seq_length` with nothing written from t on, one row and state per beam, only finished beams copied, and after the last step at least `beam_size` of them |
| BeamSearch.SearchAfterStep | models/modeling/roi_heads/scenegraph_head/caption_lstm/RelCaptionModel.py:454-487 | step t only appends to the finished beams |
| BeamSearch.SearchNext | models/modeling/roi_heads/scenegraph_head/caption_lstm/RelCaptionModel.py:459-487 | one step keeps that shape from t to t + 1 and only appends to the finished beams |
| BeamSearch.SearchStep | models/modeling/roi_heads/scenegraph_head/caption_lstm/RelCaptionModel.py:454-487 | one loop iteration on the arrays takes the state after t steps to `SearchNext` of it: tensors, log-probability rows, recurrent states and finished beams |
| BeamSearch.StartArrays | models/modeling/roi_heads/scenegraph_head/caption_lstm/RelCaptionModel.py:376-386 | the arrays start as `SearchStart`: zero tensors, and every beam fed the start token 0 from the image's state |
| BeamSearch.SearchOutcome | models/modeling/roi_heads/scenegraph_head/caption_lstm/RelCaptionModel.py:447-490 | the result of the search: `beam_size` finished beams (none when `seq_length` is 0) in non-increasing joint log-probability |
| BeamSearch.Best | models/modeling/roi_heads/scenegraph_head/caption_lstm/RelCaptionModel.py:489 | `sorted(done_beams, key=-p)[:beam_size]`: `min(beam_size, n)` beams drawn from the finished ones (sub-multiset), in non-increasing joint log-probability, all still finished, and beams with equal joint log-probability in the order they finished |
| BeamSearch.BestDominates | models/modeling/roi_heads/scenegraph_head/caption_lstm/RelCaptionModel.py:489-490 | every kept beam scores at least as high as every finished beam that is dropped |
| BeamSearch.BestHead | models/modeling/roi_heads/scenegraph_head/caption_lstm/RelCaptionModel.py:387-388 | the first kept beam is the first finished beam with the highest joint log-probability |
| BeamSearch.Search | models/modeling/roi_heads/scenegraph_head/caption_lstm/RelCaptionModel.py:447-490 | `beam_search` on the arrays returns exactly `SearchOutcome`, the best `beam_size` of the beams finished over `seq_length` steps |
| BeamSearch.BestOfImage | models/modeling/roi_heads/scenegraph_head/caption_lstm/RelCaptionModel.py:386-388 | the best beam of image k is finished: `seq_length` long, with word 0 at the step it was copied (unless that is the last step) and 0 after it |
| BeamSearch.OutcomeHead | models/modeling/roi_heads/scenegraph_head/caption_lstm/RelCaptionModel.py:386-388 | the search result of image k is non-empty and its head `done_beams[k][0]` is `BestOfImage` |
| BeamSearch.BestOfImages | models/modeling/roi_heads/scenegraph_head/caption_lstm/RelCaptionModel.py:366-388 | the stacked result holds one token row and one log-prob row per image |
| BeamSearch.BestOfImagesAt | models/modeling/roi_heads/scenegraph_head/caption_lstm/RelCaptionModel.py:371-388 | row k of the stacked result is the tokens and log-probs of image k's best beam |
| BeamSearch.SearchImage | models/modeling/roi_heads/scenegraph_head/caption_lstm/RelCaptionModel.py:372-386 | the search of image k from its own state returns `beam_size` beams whose head is `BestOfImage` |
| BeamSearch.SampleImages | models/modeling/roi_heads/scenegraph_head/caption_lstm/RelCaptionModel.py:369-390 | the loop over the images yields `BestOfImages`, and fails iff an image has no finished beam |
| BeamSearch.SampleBeam | models/modeling/roi_heads/scenegraph_head/caption_lstm/RelCaptionModel.py:343-390 | fails iff there is no image (the empty `torch.cat` of the padding step at line 350), the beam size is out of range, or `seq_length` is 0; otherwise row k is the tokens and log-probs of image k's best beam, the head of its `SearchOutcome` (`OutcomeHead`): `seq_length` long, with word 0 at the step that beam was copied (unless that is the last step) and 0 after it |
| ImpContext.ModeOf | segmentationsg/modeling/roi_heads/scenegraph_head/imp/model_imp.py:21-27 | `predcls` iff both switches are on, `sgcls` iff only `USE_GT_BOX`, `sgdet` iff not `USE_GT_BOX` |
| ImpContext.IMPContext.constructor | segmentationsg/modeling/roi_heads/scenegraph_head/imp/model_imp.py:12-27 | class counts include the background class (`num_obj + 1`, `num_rel + 1`), and the mode is `ModeOf` the switches |
| ImpContext.Lengths | segmentationsg/modeling/roi_heads/scenegraph_head/imp/model_imp.py:51 | one object count per image |
| ImpContext.Endpoints | segmentationsg/modeling/roi_heads/scenegraph_head/imp/model_imp.py:68-69 | each pair's subject (object) index plus the object offset |
| ImpContext.SumPrefix | segmentationsg/modeling/roi_heads/scenegraph_head/imp/model_imp.py:78 | the object offset grows by the image's count and stays within the total |
| ImpContext.RelOffsetStep | segmentationsg/modeling/roi_heads/scenegraph_head/imp/model_imp.py:79 | the relation offset grows by the image's pair count |
| ImpContext.GlobalIndsLength | segmentationsg/modeling/roi_heads/scenegraph_head/imp/model_imp.py:72-82 | the concatenated index lists have one entry per relation of the batch |
| ImpContext.GlobalIndAt | segmentationsg/modeling/roi_heads/scenegraph_head/imp/model_imp.py:66-82 | relation k of image j sits at the relation offset of j plus k; its index is its pair index plus the object offset of j |
| ImpContext.GlobalIndsBound | segmentationsg/modeling/roi_heads/scenegraph_head/imp/model_imp.py:66-69 | with valid pairs every global index names one of the batch's objects |
| ImpContext.Incidence | segmentationsg/modeling/roi_heads/scenegraph_head/imp/model_imp.py:60-76 | one row per object, one column per index |
| ImpContext.IncidenceOfArray | segmentationsg/modeling/roi_heads/scenegraph_head/imp/model_imp.py:75-76 | the built array is that incidence matrix |
| ImpContext.Mark | segmentationsg/modeling/roi_heads/scenegraph_head/imp/model_imp.py:75-76 | `m[idx, rel_idx] = 1.0` extends the marked columns by the image's relations, each with one 1 in the row its index names |
| ImpContext.Zero | segmentationsg/modeling/roi_heads/scenegraph_head/imp/model_imp.py:60-61 | fresh zero matrices of objects x relations |
| ImpContext.MarkImage | segmentationsg/modeling/roi_heads/scenegraph_head/imp/model_imp.py:66-77 | the per-image loop body appends the image's global indices and marks its columns in both matrices |
| ImpContext.BuildMapping | segmentationsg/modeling/roi_heads/scenegraph_head/imp/model_imp.py:56-82 | the global index lists and two matrices whose column r holds one 1, in row `sub_global[r]` (resp. `obj_global[r]`), and 0 elsewhere |
| ImpContext.IncidenceColumn | segmentationsg/modeling/roi_heads/scenegraph_head/imp/model_imp.py:75-76 | every column of an incidence matrix holds exactly one 1 and sums to 1 |
| ImpContext.MatMul | segmentationsg/modeling/roi_heads/scenegraph_head/imp/model_imp.py:105 | `m @ x`: entry (o, d) is row o of m dotted with column d of x |
| ImpContext.IncidenceRowDot | segmentationsg/modeling/roi_heads/scenegraph_head/imp/model_imp.py:105 | a row of an incidence matrix dotted with a vector is the scatter-sum over the relations of that row |
| ImpContext.VertContext | segmentationsg/modeling/roi_heads/scenegraph_head/imp/model_imp.py:105 | `sub2rel @ pre_out + obj2rel @ pre_in` has one row of width `hidden_dim` per object |
| ImpContext.VertContextIsScatterSum | segmentationsg/modeling/roi_heads/scenegraph_head/imp/model_imp.py:105 | row o of the vertex context is the sum of `pre_out` over relations with subject o plus the sum of `pre_in` over relations with object o |
| ImpContext.GruRows | segmentationsg/modeling/roi_heads/scenegraph_head/imp/model_imp.py:88-89 | a GRU cell applied row by row to input and hidden state |
| ImpContext.EdgeMessages | segmentationsg/modeling/roi_heads/scenegraph_head/imp/model_imp.py:93-98 | one edge context per relation |
| ImpContext.OutMessages | segmentationsg/modeling/roi_heads/scenegraph_head/imp/model_imp.py:103 | one outgoing message of width `hidden_dim` per relation |
| ImpContext.InMessages | segmentationsg/modeling/roi_heads/scenegraph_head/imp/model_imp.py:104 | one incoming message of width `hidden_dim` per relation |
| ImpContext.EdgeUpdate | segmentationsg/modeling/roi_heads/scenegraph_head/imp/model_imp.py:100 | one new edge state per relation |
| ImpContext.VertUpdate | segmentationsg/modeling/roi_heads/scenegraph_head/imp/model_imp.py:102-106 | one new vertex state per object |
| ImpContext.Round | segmentationsg/modeling/roi_heads/scenegraph_head/imp/model_imp.py:91-106 | one round keeps one state row of width `hidden_dim` per object and per relation |
| ImpContext.Factors | segmentationsg/modeling/roi_heads/scenegraph_head/imp/model_imp.py:85-106 | after any number of rounds, one state row of width `hidden_dim` per object and per relation |
| ImpContext.MessagePassing | segmentationsg/modeling/roi_heads/scenegraph_head/imp/model_imp.py:85-106 | `vert_factor`/`edge_factor` end with `num_iter + 1` entries; entry i is the state after i rounds, where round i's vertex update reads `edge_factor[i]` and not the entry appended in that round |
| ImpContext.PairGraph | segmentationsg/modeling/roi_heads/scenegraph_head/imp/model_imp.py:59-82 | the graph of the batch: indices below the object count, one per relation |
| ImpContext.ConcatLength | segmentationsg/modeling/roi_heads/scenegraph_head/imp/model_imp.py:109 | the concatenated labels have one entry per object |
| ImpContext.OneHots | segmentationsg/modeling/roi_heads/scenegraph_head/imp/model_imp.py:109-110 | one one-hot row per label |
| ImpContext.IMPContext.Forward | segmentationsg/modeling/roi_heads/scenegraph_head/imp/model_imp.py:50-116 | fails iff there is no image (empty `torch.cat`); otherwise `rel_dists` is `rel_fc` of the last edge entry; `obj_dists` is `obj_fc` of the last vertex entry, or in `predcls` the one-hot of the concatenated labels; widths `num_obj + 1` and `num_rel + 1` |
| TreeDecoder.DirectionOf | models/modeling/roi_heads/scenegraph_head/tree_lstm/decoder_hrtree_lstm.py:46-57 | `backward` and `foreward` select their tree LSTM; any other string leaves the decoder unset |
| TreeDecoder.DecoderHrTreeLSTM.constructor | models/modeling/roi_heads/scenegraph_head/tree_lstm/decoder_hrtree_lstm.py:17-57 | the NMS threshold is 0.5, the decoder is set by the direction switch, and a new module is in training mode |
| TreeDecoder.DropLast | models/modeling/roi_heads/scenegraph_head/tree_lstm/decoder_hrtree_lstm.py:92-93 | `xs[:-b]`: empty for b = 0 and for b beyond the length, otherwise all but the last b |
| TreeDecoder.ScanRow | models/modeling/roi_heads/scenegraph_head/tree_lstm/decoder_hrtree_lstm.py:108 | the scan of one row stays in range |
| TreeDecoder.ScanRowFirstMax | models/modeling/roi_heads/scenegraph_head/tree_lstm/decoder_hrtree_lstm.py:108 | scanning a row keeps "largest so far, first in row-major order" |
| TreeDecoder.ScanRowsFirstMax | models/modeling/roi_heads/scenegraph_head/tree_lstm/decoder_hrtree_lstm.py:108 | scanning whole rows keeps the same invariant |
| TreeDecoder.FirstMax | models/modeling/roi_heads/scenegraph_head/tree_lstm/decoder_hrtree_lstm.py:108 | `unravel_index(argmax)`: a largest entry, with every earlier position in row-major order strictly smaller |
| TreeDecoder.ArgMax | models/modeling/roi_heads/scenegraph_head/tree_lstm/decoder_hrtree_lstm.py:108 | the nested scan over the array returns that first maximum |
| TreeDecoder.Suppress | models/modeling/roi_heads/scenegraph_head/tree_lstm/decoder_hrtree_lstm.py:110 | suppression keeps the shape of the score matrix |
| TreeDecoder.SuppressAt | models/modeling/roi_heads/scenegraph_head/tree_lstm/decoder_hrtree_lstm.py:110 | only the `cls` entries of overlapping boxes become 0; every other entry is unchanged |
| TreeDecoder.Retired | models/modeling/roi_heads/scenegraph_head/tree_lstm/decoder_hrtree_lstm.py:111 | a retired row is all -1 |
| TreeDecoder.NmsStep | models/modeling/roi_heads/scenegraph_head/tree_lstm/decoder_hrtree_lstm.py:108-111 | one iteration keeps the shape and records one more pick |
| TreeDecoder.NoClass | models/modeling/roi_heads/scenegraph_head/tree_lstm/decoder_hrtree_lstm.py:105 | n commitments, all 0 |
| TreeDecoder.Nms | models/modeling/roi_heads/scenegraph_head/tree_lstm/decoder_hrtree_lstm.py:105-111 | after k iterations: same shape, one commitment per box, k picks |
| TreeDecoder.FirstMaxUnpicked | models/modeling/roi_heads/scenegraph_head/tree_lstm/decoder_hrtree_lstm.py:108-111 | while a box is unpicked, the first maximum lies in an unpicked row |
| TreeDecoder.NmsStepPicksFresh | models/modeling/roi_heads/scenegraph_head/tree_lstm/decoder_hrtree_lstm.py:107-111 | with suppression kept off retired rows, a step picks a new box and keeps "picked rows are -1, others >= 0, commitments are classes" |
| TreeDecoder.NmsPicksEveryBoxOnce | models/modeling/roi_heads/scenegraph_head/tree_lstm/decoder_hrtree_lstm.py:107-111 | corrected (suppression kept off retired rows): for non-negative scores, over n iterations every box is picked exactly once (the picks are a permutation) and receives a commitment below the class count |
| TreeDecoder.AsWrittenStep | models/modeling/roi_heads/scenegraph_head/tree_lstm/decoder_hrtree_lstm.py:107-111 | a step as written keeps "picked rows at most 0, other rows non-negative, commitments are classes", and picks a new box whenever an unpicked box still has a positive score |
| TreeDecoder.NmsAsWrittenKeepsClasses | models/modeling/roi_heads/scenegraph_head/tree_lstm/decoder_hrtree_lstm.py:105-111 | as written, on non-negative scores, every commitment stays below the class count after any number of iterations |
| TreeDecoder.AsWrittenRepicksOnlyAtZero | models/modeling/roi_heads/scenegraph_head/tree_lstm/decoder_hrtree_lstm.py:107-111 | as written, an iteration picks a box again only when every unpicked box's scores are all 0 |
| TreeDecoder.AsWrittenPicksRetiredBox | models/modeling/roi_heads/scenegraph_head/tree_lstm/decoder_hrtree_lstm.py:107-111 | as written, on these scores box 1 is picked twice and box 2 never; the corrected loop picks boxes 1, 0, 2 |
| TreeDecoder.ReselectFirstStep | models/modeling/roi_heads/scenegraph_head/tree_lstm/decoder_hrtree_lstm.py:108-111 | first iteration of the counterexample: box 1 in class 2 |
| TreeDecoder.ReselectSecondStep | models/modeling/roi_heads/scenegraph_head/tree_lstm/decoder_hrtree_lstm.py:108-111 | second iteration as written: box 0 in class 1, and the retired row 1 gets a 0 in class 1 |
| TreeDecoder.ReselectSecondStepCorrected | models/modeling/roi_heads/scenegraph_head/tree_lstm/decoder_hrtree_lstm.py:108-111 | second iteration corrected: box 0 in class 1, and row 1 stays all -1 |
| TreeDecoder.ReselectThirdStep | models/modeling/roi_heads/scenegraph_head/tree_lstm/decoder_hrtree_lstm.py:108-111 | third iteration as written re-picks box 1 and overwrites its commitment |
| TreeDecoder.ReselectThirdStepCorrected | models/modeling/roi_heads/scenegraph_head/tree_lstm/decoder_hrtree_lstm.py:108-111 | third iteration corrected picks box 2 |
| TreeDecoder.FirstMaxAt | models/modeling/roi_heads/scenegraph_head/tree_lstm/decoder_hrtree_lstm.py:108 | a position with the largest entry and only smaller entries before it is the first maximum |
| TreeDecoder.SuppressColumn | models/modeling/roi_heads/scenegraph_head/tree_lstm/decoder_hrtree_lstm.py:110 | the in-place suppression of column `cls` leaves the matrix `Suppress` specifies: as written on every overlapping box, corrected only on boxes not yet retired |
| TreeDecoder.RetireRow | models/modeling/roi_heads/scenegraph_head/tree_lstm/decoder_hrtree_lstm.py:111 | the in-place retirement sets exactly that row to -1 |
| TreeDecoder.GreedyNms | models/modeling/roi_heads/scenegraph_head/tree_lstm/decoder_hrtree_lstm.py:105-111 | the in-place loop leaves the scores, commitments and picks of n iterations of `Nms` |
| TreeDecoder.NmsIteration | models/modeling/roi_heads/scenegraph_head/tree_lstm/decoder_hrtree_lstm.py:108-111 | one in-place iteration (argmax, commit, suppress, retire) is `NmsStep` |
| TreeDecoder.NmsScores | models/modeling/roi_heads/scenegraph_head/tree_lstm/decoder_hrtree_lstm.py:102-103 | softmax rows with column 0 set to 0: non-negative, one row per box |
| TreeDecoder.OverlapAt | models/modeling/roi_heads/scenegraph_head/tree_lstm/decoder_hrtree_lstm.py:97-99 | boxes overlap in a class iff their IoU reaches the threshold |
| TreeDecoder.NmsCommitments | models/modeling/roi_heads/scenegraph_head/tree_lstm/decoder_hrtree_lstm.py:96-113 | the post-processing NMS as written: its commitments are those of `Nms(..., true)`, one class below the class count per box |
| TreeDecoder.DecoderHrTreeLSTM.Commitments | models/modeling/roi_heads/scenegraph_head/tree_lstm/decoder_hrtree_lstm.py:96-121 | fails iff evaluation with boxes meets no class column (the `IndexError` of line 103); otherwise the labels when training with labels, else the tree's commitments (or, in evaluation with boxes, the as-written NMS's) followed by `batch_size` zeros |
| TreeDecoder.DecoderHrTreeLSTM.Forward | models/modeling/roi_heads/scenegraph_head/tree_lstm/decoder_hrtree_lstm.py:62-123 | fails iff the forest is empty (the tree LSTM writes no outputs, and `index_select` meets None), a forest is decoded without a decoder, the tree LSTM left no outputs, or evaluation with boxes meets no class column; otherwise the dists re-ordered and cut by `[:-batch_size]`, with commitments as `Commitments` states |

## Left out

- Neural numerics are oracles (the `relu` after `edge_unary` is part of the edge oracle): the attention core, the LSTM/GRU cells, gates,
  linear layers, embeddings, dropout, `log_softmax`, `softmax`, `to_onehot` and
  `nms_overlaps`. Their floating-point behaviour is not modelled. Log-probabilities
  and scores are `real`.
- Randomness is supplied by the caller. This covers the oversampling indices, the
  scheduled-sampling mask and draws, and the `multinomial` choice in `sample`.
  The dropout mask of `get_dropout_mask` is not modelled, because it is random
  float data.
- `enumerate_by_image` is not part of this model. Its runs are an input, assumed
  contiguous and non-empty.
- `IMPSegmentationContext` (model_imp.py:120-190) is not modelled. It is debugging
  code with a breakpoint, and it reads names that are undefined on one branch.
- The caption model's construction-time I/O (word vectors, dataset counts), the
  `init_hidden` projection and the triplet embedding are oracles or left out.
- ImpContext.IMPContext.Forward: requires one pair list per image. `zip` would
  silently truncate the longer list, and that truncation is not modelled. It
  also requires every pair index to be below its own image's object count
  (`ValidPairs`). The code accepts an index at or past its image's count as
  long as the global index stays below the batch's object count: it then names
  an object of a later image, without any error. Only a global index past the
  batch total raises an indexing error. Neither case is modelled.
- `DecoderHrTreeLSTM.Forward` requires every entry of `order` to index the
  dists. An out-of-range `index_select` is excluded rather than modelled as an
  error. The IoU oracle is total, so a `boxes_for_nms` tensor whose size
  disagrees with the dists is not modelled. The unused `out_tree_h` is left out.
- BeamSearch.SampleBeam: uses the corrected beam-size guard
  `1 <= beam_size <= columns` and returns an error otherwise. The assertion as
  written is modelled separately (see Findings). `beam_size` 0, which the
  caller never passes, is rejected by the same error.
- The tie order of `np.argsort` and `torch.sort`, which are not stable here, is
  fixed to the stable order in the executable model. The padding lemmas are
  proved for every descending order, and `RankedKeepsBest` holds for any tie order.
- CUDA transfers and `.cpu()` round trips have no effect on the values.
- BeamSearch.FinalizedUpTo: a copied beam's joint log-probability `p` is the value
  it has when the beam is copied. In PyTorch 0.4 and later, `beam_logprobs_sum[vix]`
  is a 0-dimensional view of the running sums, and the reset to -1000 and later
  forks would overwrite it. The model follows the scalar reading, in which the
  final sort ranks the copies by their scores at copy time.
- CaptionRollout.RekeyVocab: `vocabs['0'] = '__SENTSIGN__'` also writes into the
  caller's dictionary. The model returns the re-keyed map and leaves the
  caller's map unchanged.

## Findings

| source | as written | input that shows it | evidently intended | confidence | as-written member | corrected member |
|---|---|---|---|---|---|---|
| models/modeling/roi_heads/scenegraph_head/caption_lstm/RelCaptionModel.py:364 | `assert beam_size <= self.vocab_size + 1`, where `self.vocab_size` (line 168) already counts every logit column (line 199) | `beam_size = vocab_size + 2` for the constructor's `vocab_size`: the assert passes, step 0 offers `vocab_size + 1` candidates, and `candidates[vix]` (line 430) is out of range for the last beam | at least one beam and no more beams than logit columns | not executed | BeamSearch.GuardAsWrittenAdmitsShortCandidates | BeamSearch.BeamGuardSuffices |
| models/modeling/roi_heads/scenegraph_head/tree_lstm/decoder_hrtree_lstm.py:110 | the class suppression also writes 0 into rows already retired with -1, so a retired box can become the first maximum again | scores `[[0,0.6,0.3],[0,0.05,0.9],[0,0.5,0.4]]`; every box overlaps itself; in class 1 all boxes overlap; in class 2 boxes 1 and 2 overlap. Picks are boxes 1, 0, 1: box 1's class 2 is replaced by class 1, and box 2 is never committed | every box picked exactly once, so suppression must leave retired rows at -1 | not executed | TreeDecoder.AsWrittenPicksRetiredBox | TreeDecoder.NmsPicksEveryBoxOnce |
