/**
 * count_value_occurrences (parse_xml.py, lines 102-107): the number of
 * times each label 0..7 occurs in an array, under the keys n_of_0..n_of_7.
 */
module Counting {
  import opened Labels
  import opened Alignment
  import opened Projection

  /** The keys of the result, indexed by the label they count. */
  const CountKeys: seq<string> :=
    ["n_of_0", "n_of_1", "n_of_2", "n_of_3", "n_of_4", "n_of_5", "n_of_6", "n_of_7"]

  /** How many entries of `a` equal `v`. */
  function Occurrences(a: seq<int>, v: int): (c: nat)
    ensures c <= |a|
    ensures c == 0 <==> v !in a
  {
    if |a| == 0 then 0
    else
      var prefix := a[..|a| - 1];
      assert a == prefix + [a[|a| - 1]];
      Occurrences(prefix, v) + (if a[|a| - 1] == v then 1 else 0)
  }

  /** Occurrences agrees with the multiplicity of `v` in the multiset of `a`. */
  lemma {:induction false} OccurrencesIsMultiplicity(a: seq<int>, v: int)
    ensures Occurrences(a, v) == multiset(a)[v]
  {
    if |a| > 0 {
      var prefix := a[..|a| - 1];
      assert a == prefix + [a[|a| - 1]];
      OccurrencesIsMultiplicity(prefix, v);
    }
  }

  /**
   * The tally: exactly the eight keys, each holding the number of entries
   * equal to its label, 0 for a label that does not occur.  Values outside
   * 0..7 are counted by nothing.
   */
  function CountValueOccurrences(a: seq<int>): (m: map<string, nat>)
    ensures m.Keys == set d | 0 <= d < 8 :: CountKeys[d]
    ensures forall d :: 0 <= d < 8 ==> m[CountKeys[d]] == multiset(a)[d]
    ensures forall d :: 0 <= d < 8 && d !in a ==> m[CountKeys[d]] == 0
  {
    OccurrencesIsMultiplicity(a, 0);
    OccurrencesIsMultiplicity(a, 1);
    OccurrencesIsMultiplicity(a, 2);
    OccurrencesIsMultiplicity(a, 3);
    OccurrencesIsMultiplicity(a, 4);
    OccurrencesIsMultiplicity(a, 5);
    OccurrencesIsMultiplicity(a, 6);
    OccurrencesIsMultiplicity(a, 7);
    map[CountKeys[0] := Occurrences(a, 0), CountKeys[1] := Occurrences(a, 1),
        CountKeys[2] := Occurrences(a, 2), CountKeys[3] := Occurrences(a, 3),
        CountKeys[4] := Occurrences(a, 4), CountKeys[5] := Occurrences(a, 5),
        CountKeys[6] := Occurrences(a, 6), CountKeys[7] := Occurrences(a, 7)]
  }

  /** The sum of the eight counts in a tally. */
  function Total(m: map<string, nat>): nat
    requires forall d :: 0 <= d < 8 ==> CountKeys[d] in m
  {
    m[CountKeys[0]] + m[CountKeys[1]] + m[CountKeys[2]] + m[CountKeys[3]]
    + m[CountKeys[4]] + m[CountKeys[5]] + m[CountKeys[6]] + m[CountKeys[7]]
  }

  /** When every entry is a label, each entry is counted exactly once. */
  lemma {:induction false} LabelCountsSum(a: seq<int>)
    requires AllLabels(a)
    ensures Occurrences(a, 0) + Occurrences(a, 1) + Occurrences(a, 2) + Occurrences(a, 3)
            + Occurrences(a, 4) + Occurrences(a, 5) + Occurrences(a, 6) + Occurrences(a, 7) == |a|
  {
    if |a| > 0 {
      LabelCountsSum(a[..|a| - 1]);
    }
  }

  /** The counts of any array of labels add up to its length. */
  lemma CountsSumToLength(a: seq<int>)
    requires AllLabels(a)
    ensures Total(CountValueOccurrences(a)) == |a|
  {
    LabelCountsSum(a);
    OccurrencesIsMultiplicity(a, 0);
    OccurrencesIsMultiplicity(a, 1);
    OccurrencesIsMultiplicity(a, 2);
    OccurrencesIsMultiplicity(a, 3);
    OccurrencesIsMultiplicity(a, 4);
    OccurrencesIsMultiplicity(a, 5);
    OccurrencesIsMultiplicity(a, 6);
    OccurrencesIsMultiplicity(a, 7);
  }

  /** For any output of create_subject_array the eight counts sum to subject_length. */
  lemma SubjectArrayCountsSum(n: int, hits: seq<Hit>)
    requires ValidHits(hits, n)
    ensures Total(CountValueOccurrences(SubjectArray(n, hits))) == Size(n)
  {
    CountsSumToLength(SubjectArray(n, hits));
  }
}
