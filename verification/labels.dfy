/**
 * The labels written into the subject array, one per subject coordinate,
 * and the classification of a single aligned column (parse_xml.py, lines 78-87).
 *
 *   0  uncovered
 *   1  forward match            5  reverse match
 *   2  forward gap in subject   6  reverse gap in subject
 *   3  forward gap in query     7  reverse gap in query
 *   4  mismatch, on either strand
 */
module Labels {
  import opened Wrappers

  const Uncovered := 0
  const GapChar := '-'

  /** A value the subject array may hold. */
  predicate IsLabel(x: int) {
    0 <= x <= 7
  }

  /** Every entry of `a` is a label. */
  predicate AllLabels(a: seq<int>) {
    forall p :: 0 <= p < |a| ==> IsLabel(a[p])
  }

  /** What an aligned column says about the subject, independent of strand. */
  datatype Kind = Match | SubjectGap | QueryGap | Mismatch

  /** The strand-independent meaning of a column, in the source's priority order. */
  function KindOf(q: char, h: char): (k: Kind)
    ensures k == Match <==> q == h && q != GapChar
    ensures k == SubjectGap <==> h == GapChar
    ensures k == QueryGap <==> q == GapChar && h != GapChar
    ensures k == Mismatch <==> q != h && q != GapChar && h != GapChar
  {
    if q == h && q != GapChar then Match
    else if h == GapChar then SubjectGap
    else if q == GapChar then QueryGap
    else Mismatch
  }

  /**
   * The label the source writes for a column whose query character is `q`
   * and whose subject character is `h`, on the given strand.  A column in
   * which both characters are gaps counts as a gap in the subject.
   */
  function Classify(q: char, h: char, reverse: bool): (r: int)
    ensures IsLabel(r) && r != Uncovered
    ensures r == 1 <==> !reverse && q == h && q != GapChar
    ensures r == 5 <==> reverse && q == h && q != GapChar
    ensures r == 2 <==> !reverse && h == GapChar
    ensures r == 6 <==> reverse && h == GapChar
    ensures r == 3 <==> !reverse && q == GapChar && h != GapChar
    ensures r == 7 <==> reverse && q == GapChar && h != GapChar
    ensures r == 4 <==> q != h && q != GapChar && h != GapChar
    ensures !reverse ==> r in {1, 2, 3, 4}
    ensures reverse ==> r in {4, 5, 6, 7}
  {
    if q == h && q != GapChar then (if !reverse then 1 else 5)
    else if h == GapChar then (if !reverse then 2 else 6)
    else if q == GapChar then (if !reverse then 3 else 7)
    else 4
  }

  /** Reads a label back: the kind of column it records, or None for 0 and non-labels. */
  function KindOfLabel(l: int): (k: Option<Kind>)
    ensures k.None? <==> !(1 <= l <= 7)
  {
    if l == 1 || l == 5 then Some(Match)
    else if l == 2 || l == 6 then Some(SubjectGap)
    else if l == 3 || l == 7 then Some(QueryGap)
    else if l == 4 then Some(Mismatch)
    else None
  }

  /** A label that records a column of a reverse-strand HSP. */
  predicate IsReverseLabel(l: int) {
    5 <= l <= 7
  }

  /**
   * Reading a written label back recovers the column's kind and, except for
   * a mismatch, its strand: the encoding loses nothing but the strand of a
   * mismatch.
   */
  lemma ClassifyDecodes(q: char, h: char, reverse: bool)
    ensures KindOfLabel(Classify(q, h, reverse)) == Some(KindOf(q, h))
    ensures KindOf(q, h) != Mismatch ==> (IsReverseLabel(Classify(q, h, reverse)) <==> reverse)
    ensures KindOf(q, h) == Mismatch ==> Classify(q, h, reverse) == Classify(q, h, !reverse)
  {
  }
}
