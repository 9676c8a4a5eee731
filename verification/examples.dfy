/**
 * Concrete runs of create_subject_array on a ten-position subject, showing
 * the forward offset of -2, the reverse offset of -1, the gap labels and
 * the last-writer rule.
 */
module Examples {
  import opened Alignment
  import opened Projection

  /** The run of a single HSP forms the whole array. */
  lemma SingleHsp(n: int, h: Hsp)
    requires ValidHsp(h, Size(n))
    ensures ValidHits([Hit([h])], n)
    ensures SubjectArray(n, [Hit([h])]) == ApplyHsp(Zeros(Size(n)), h)
  {
    assert Flatten([Hit([h])]) == [h] by {
      assert [Hit([h])][..0] == [];
    }
    assert [h][..0] == [];
    assert ApplyHsps(Zeros(Size(n)), [h]) == ApplyHsp(ApplyHsps(Zeros(Size(n)), []), h);
  }

  /** A forward HSP with hit-from 3 and hit-to 6 covers indices 1..4 with matches. */
  lemma ForwardMatch()
    ensures ValidHits([Hit([Hsp("ACGT", "ACGT", 3, 6, 4)])], 10)
    ensures SubjectArray(10, [Hit([Hsp("ACGT", "ACGT", 3, 6, 4)])]) == [0, 1, 1, 1, 1, 0, 0, 0, 0, 0]
  {
  }

  /** The same HSP with its coordinates exchanged is reverse and covers indices 2..5. */
  lemma ReverseMatch()
    ensures ValidHits([Hit([Hsp("ACGT", "ACGT", 6, 3, 4)])], 10)
    ensures SubjectArray(10, [Hit([Hsp("ACGT", "ACGT", 6, 3, 4)])]) == [0, 0, 5, 5, 5, 5, 0, 0, 0, 0]
  {
  }

  /**
   * Gap columns still write their index: a gap in the subject string gives 2,
   * a gap in the query string gives 3, and an unequal pair gives 4.
   */
  lemma ForwardGapsAndMismatch()
    ensures ValidHits([Hit([Hsp("AC-GT", "A-CTT", 3, 7, 5)])], 10)
    ensures SubjectArray(10, [Hit([Hsp("AC-GT", "A-CTT", 3, 7, 5)])]) == [0, 1, 2, 3, 4, 1, 0, 0, 0, 0]
  {
  }

  /** Where a later hit overlaps an earlier one, the later hit's labels remain. */
  lemma LaterHitOverwrites()
    ensures ValidHits([Hit([Hsp("AAA", "AAA", 3, 5, 3)]), Hit([Hsp("AA", "CC", 4, 5, 2)])], 10)
    ensures SubjectArray(10, [Hit([Hsp("AAA", "AAA", 3, 5, 3)]), Hit([Hsp("AA", "CC", 4, 5, 2)])])
            == [0, 1, 4, 4, 0, 0, 0, 0, 0, 0]
  {
    var h1 := Hsp("AAA", "AAA", 3, 5, 3);
    var h2 := Hsp("AA", "CC", 4, 5, 2);
    var hits := [Hit([h1]), Hit([h2])];
    assert Flatten(hits) == [h1, h2] by {
      assert hits[..1] == [Hit([h1])];
      assert hits[..1][..0] == [];
    }
    assert [h1, h2][..1] == [h1];
    assert [h1][..0] == [];
    var z := Zeros(10);
    assert z == [0, 0, 0, 0, 0, 0, 0, 0, 0, 0];
    assert ApplyColumns(z, h1, 1) == [0, 1, 0, 0, 0, 0, 0, 0, 0, 0];
    assert ApplyColumns(z, h1, 2) == [0, 1, 1, 0, 0, 0, 0, 0, 0, 0];
    var a1 := ApplyColumns(z, h1, 3);
    assert a1 == [0, 1, 1, 1, 0, 0, 0, 0, 0, 0];
    assert ApplyColumns(a1, h2, 1) == [0, 1, 4, 1, 0, 0, 0, 0, 0, 0];
    assert ApplyColumns(a1, h2, 2) == [0, 1, 4, 4, 0, 0, 0, 0, 0, 0];
  }
}
