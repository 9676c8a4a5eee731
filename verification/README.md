# Subject-array projection of BLAST hits

This project models the core of `parse_xml.py`, a script that turns the
hits of a BLAST search against one subject sequence into an integer array
with one label per subject coordinate. It also proves properties of that
model.

- `create_subject_array` starts from an array of `subject_length` zeros.
- It visits every hit, every HSP (high-scoring pair) of the hit, and every
  aligned column of the HSP, and writes the column's label to one array index.
- An HSP is reverse exactly when `hit_from > hit_to`.
- Forward column `i` writes index `start - 2 + i` and reads the characters
  at `i`.
- Reverse column `i` writes index `end - 1 - i` and reads the characters at
  `alignment_len - 1 - i`.
- Labels: 0 uncovered; 1 / 5 forward / reverse match; 2 / 6 gap in the
  subject string (this includes a column where both characters are gaps);
  3 / 7 gap in the query string; 4 mismatch on either strand.
- Writes are unconditional, so the last HSP, in hit-then-HSP order, whose
  range contains an index decides that index's final label.

`count_value_occurrences` tallies the labels 0..7 under the keys
`n_of_0`..`n_of_7`. `get_subject_length` returns its argument when that is
truthy and 1600000 otherwise.

Modules, one per concept:

- `Labels` (`labels.dfy`): the label domain and the classification of one
  column.
- `Alignment` (`alignment.dfy`): hits, HSPs, strand, and the mapping from
  columns to indices and characters.
- `Projection` (`projection.dfy`): the functional meaning of
  `create_subject_array`, the last-writer theorems, and the nested-loop
  algorithm over a Dafny array, which is proved equal to the functional
  meaning.
- `Counting` (`counting.dfy`): `count_value_occurrences`.
- `SubjectLength` (`subject_length.dfy`): `get_subject_length`.
- `Examples` (`examples.dfy`): concrete arrays for small inputs.
- `Wrappers` (`wrappers.dfy`): an `Option` type.

Behaviour of the code that a reader might not expect, kept in the model:

- The two strands use different offsets, -2 forward and -1 reverse. Because
  the start/end swap puts hit-from in `start` for a forward HSP and in `end`
  for a reverse one, both strands count from hit-from.
- The range an HSP writes is fixed by hit-from and the alignment length;
  hit-to only selects the strand (`Alignment.RangeFromHitFrom`). A forward
  HSP writes hit_from-2 .. hit_from-3+alignment_len, so one with gaps in its
  subject string writes past hit_to-2.
- When the alignment length equals the coordinate span
  (`alignment_len == hit_to - hit_from + 1`), a forward HSP and the same HSP
  with its coordinates exchanged write ranges one index apart
  (`Alignment.SwappedRangeShifted`). Without that condition the two ranges
  need not be related this way. This is recorded as observed behaviour, not
  as a symmetry.
- A gap in the subject string still writes a label (2 or 6) at its own index.
- There is no ordering of HSPs, no set of filled positions, and no sign
  flip for insertions.

## Model

| member | source | states |
|---|---|---|
| Labels.KindOf | parse_xml.py:78-87 | A column is a match exactly when the characters are equal and not a gap. It is a subject gap exactly when the subject character is a gap, whatever the query character is. It is a query gap exactly when only the query character is a gap. It is a mismatch exactly when the characters differ and neither is a gap. |
| Labels.Classify | parse_xml.py:78-87 | The label is never 0 and lies in 1..7. Each label holds exactly under its condition: 1/5 for a non-gap match, 2/6 whenever the subject character is a gap, 3/7 for a gap in the query only, 4 for a mismatch. The strand picks the low or high code. Forward gives only {1,2,3,4} and reverse only {4,5,6,7}. |
| Labels.ClassifyDecodes | parse_xml.py:78-87 | Reading a written label back gives the column's kind. Except for a mismatch it also gives the strand. A mismatch gets the same label on both strands. |
| Alignment.Target | parse_xml.py:61-75 | Forward column i writes min(from,to)-2+i, and reverse column i writes max(from,to)-1-i. Reverse holds exactly when from > to. Either way the index counts from hit-from. |
| Alignment.Source | parse_xml.py:68-75 | Reverse column i reads string position alignment_len-1-i and forward column i reads position i. Either position lies within the alignment, and on both strands the index written is the range's lowest index plus the position read, so the strings are laid onto the subject left to right. |
| Alignment.RangeFromHitFrom | parse_xml.py:62-73 | A forward HSP writes hit_from-2 .. hit_from-3+alignment_len and a reverse one hit_from-alignment_len .. hit_from-1; either range holds alignment_len indices, and hit_to plays no part beyond choosing the strand. |
| Alignment.ColumnOf | parse_xml.py:66-75 | Every index in an HSP's range is written by exactly one of its columns. So the indices that one HSP writes are pairwise distinct. |
| Alignment.TargetCovers | parse_xml.py:66-75 | Every column writes inside the HSP's range, and ColumnOf recovers that column from its index. |
| Alignment.ValidTargetsInBounds | parse_xml.py:66-75 | Under the precondition that excludes IndexError and negative-index wrap-around, every written index lies in [0, subject_length). |
| Alignment.ColumnLabel | parse_xml.py:68-87 | The label written by a column is non-zero and encodes the kind of the characters read at that column's source position. Forward HSPs write only {1,2,3,4} and reverse HSPs only {4,5,6,7}. |
| Alignment.SwappedRangeShifted | parse_xml.py:61-75 | Take a forward HSP whose alignment length equals its coordinate span. It writes hit_from-2..hit_to-2. The same HSP with its coordinates exchanged is reverse and writes one index higher. |
| Projection.Size | parse_xml.py:50 | The array length is subject_length when that is 0 or more, and 0 for a negative subject_length, as `[0] * n` gives an empty list. |
| Projection.Zeros | parse_xml.py:50 | The initial array has the requested length and holds 0 everywhere. |
| Projection.Flatten | parse_xml.py:53-54 | The HSPs visited are exactly the HSPs of the hits. |
| Projection.ApplyColumns | parse_xml.py:66-87 | After the first c columns, the length is unchanged and labels stay labels. An index not written by those columns keeps its old value. An index written by one of them holds that column's label. |
| Projection.ApplyHsps | parse_xml.py:53-54 | Processing HSPs in order keeps the array length and keeps every entry a label. |
| Projection.SubjectArray | parse_xml.py:48-90 | The result has exactly Size(subject_length) entries, each in 0..7. |
| Projection.LastCovering | parse_xml.py:53-54 | Finds the last HSP in visiting order whose range contains p. It is None exactly when no HSP's range contains p. |
| Projection.ApplyHspEffect | parse_xml.py:66-87 | Processing one HSP changes no index outside its range. It sets each index inside the range to the label of the one column mapped there. |
| Projection.ApplyHspsLastWriter | parse_xml.py:53-87 | After a sequence of HSPs, each index holds the label of the last HSP covering it, or its old value when none does. |
| Projection.LastWriterWins | parse_xml.py:48-90 | The final label at p is the one written by the last (hit, HSP) in visiting order whose range contains p, at its one column mapped to p. That label is in {4..7} when the HSP is reverse and in {1..4} otherwise. The label is 0 when no HSP reaches p. |
| Projection.UncoveredStaysZero | parse_xml.py:50-87 | An index that no HSP of any hit reaches keeps the value 0. |
| Projection.NoColumnsAllZero | parse_xml.py:50-66 | With no hits, or only HSPs whose alignment length is 0 or negative, the result is all zeros. |
| Projection.ApplyHspsAppend | parse_xml.py:53-54 | Processing one run of HSPs and then another gives the same array as processing their concatenation, which is how the per-hit loops compose. |
| Projection.WriteHit | parse_xml.py:54-87 | The HSP loop of one hit leaves the array equal to the functional ApplyHsps of its previous contents over that hit's HSPs. |
| Projection.WriteHsp | parse_xml.py:55-87 | The column loop of one HSP leaves the array equal to the functional ApplyHsp of its previous contents. |
| Projection.CreateSubjectArray | parse_xml.py:48-90 | The nested hit/HSP/column loop over an array returns Size(subject_length) labels in 0..7. Each index holds the label its last writer put there. The result equals the functional definition. |
| Counting.Occurrences | parse_xml.py:103 | The count is at most the length, and it is 0 exactly when the value does not occur. |
| Counting.OccurrencesIsMultiplicity | parse_xml.py:103 | The count equals the value's multiplicity in the multiset of the array, as Counter counts. |
| Counting.CountValueOccurrences | parse_xml.py:102-107 | The keys are exactly n_of_0..n_of_7. Each value is the number of occurrences of its label, and it is 0 for a label that is absent. |
| Counting.LabelCountsSum | parse_xml.py:102-107 | For an array of labels, the eight occurrence counts add up to its length. |
| Counting.CountsSumToLength | parse_xml.py:102-107 | For an array of labels, the eight values of the tally add up to its length. |
| Counting.SubjectArrayCountsSum | parse_xml.py:48-107 | For any output of create_subject_array, the eight counts sum to subject_length. |
| SubjectLength.GetSubjectLength | parse_xml.py:8-11 | A present, non-zero length is returned unchanged. None or 0 gives 1600000. The result is never 0. |
| SubjectLength.GetSubjectLengthStable | parse_xml.py:8-11 | Feeding a returned length back in returns it unchanged. |
| Examples.SingleHsp | parse_xml.py:50-54 | With one hit holding one HSP, the array is that HSP's writes over zeros. |
| Examples.ForwardMatch | parse_xml.py:72-81 | A forward match from hit-from 3 to hit-to 6 yields 1 at indices 1..4 of a ten-entry array. |
| Examples.ReverseMatch | parse_xml.py:68-81 | The same HSP with from and to exchanged yields 5 at indices 2..5. |
| Examples.ForwardGapsAndMismatch | parse_xml.py:72-87 | In the columns of "AC-GT" against "A-CTT" from hit-from 3, the labels are 1, 2, 3, 4 and 1, at indices 1..5. |
| Examples.LaterHitOverwrites | parse_xml.py:53-87 | A later hit's mismatches replace an earlier hit's matches where the two overlap. |

## Left out

- `parse_hits_from_xml` (XML parsing through ElementTree and catch-all error printing) is not modelled. Its output is taken as a ready-made sequence of `Hit` values whose integer fields are already converted. Hit number, id and length are dropped because the projection never reads them.
- `save_subject_array_to_binary` is not modelled: it is file I/O and pickle serialisation.
- `process_csv` and the module-level driver are not modelled. They cover CSV reading and writing, the timestamp in output file names, and the all-zero counts written for a row without hits. The driver reads `subject_length` with `int(...)` and never calls `get_subject_length`.
- The `print` calls are not modelled: they are debug output.
- Python's negative-index wrap-around and IndexError are excluded by preconditions, not modelled. `ValidHsp` requires both strings to be at least `alignment_len` long and every written index to lie in `[0, subject_length)`. On an input outside these, the source either raises or writes a wrapped index.
- A negative `subject_length` is modelled as Python's `[0] * n` treats it: the array is empty (`Size`).
- SubjectLength.GetSubjectLength: takes an optional integer only, because other truthy Python values are not lengths.
- Counting.CountValueOccurrences: the model counts integer arrays only. Counter accepts any hashable values, but only the integer keys 0..7 are read.
