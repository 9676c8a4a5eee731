/**
 * One hit of a BLAST search and its HSPs (high-scoring pairs), as
 * create_subject_array reads them (parse_xml.py, lines 53-75), and the
 * strand-aware mapping from an HSP's aligned columns to subject indices.
 *
 * The integer fields are the results of the `int(...)` conversions at
 * parse_xml.py lines 57-59.  Hit number, id and length are parsed but never
 * read by the projection, so a hit is only its HSPs.
 */
module Alignment {
  import opened Wrappers
  import opened Labels

  datatype Hsp = Hsp(qseq: string, hseq: string, hitFrom: int, hitTo: int, alignLen: int)

  datatype Hit = Hit(hsps: seq<Hsp>)

  /** An HSP is on the reverse strand exactly when its hit-from exceeds its hit-to. */
  predicate IsReverse(h: Hsp) {
    h.hitFrom > h.hitTo
  }

  /** The smaller of the two hit coordinates. */
  function Start(h: Hsp): int {
    if IsReverse(h) then h.hitTo else h.hitFrom
  }

  /** The larger of the two hit coordinates. */
  function End(h: Hsp): int {
    if IsReverse(h) then h.hitFrom else h.hitTo
  }

  /** Number of aligned columns visited: `range(alignment_len)` is empty when it is negative. */
  function Columns(h: Hsp): nat {
    if h.alignLen < 0 then 0 else h.alignLen
  }

  /** The subject index column `i` of `h` writes. */
  function Target(h: Hsp, i: int): (p: int)
    ensures !IsReverse(h) ==> p == Start(h) - 2 + i && Start(h) <= End(h)
    ensures IsReverse(h) ==> p == End(h) - 1 - i && Start(h) < End(h)
    // Both strands count from hit-from, forward upwards and reverse downwards.
    ensures p == (if IsReverse(h) then h.hitFrom - 1 - i else h.hitFrom - 2 + i)
  {
    if IsReverse(h) then End(h) - 1 - i else Start(h) - 2 + i
  }

  /**
   * The position in qseq and hseq whose characters column `i` of `h` reads.
   * On both strands the index written is the lowest index of the range plus
   * this position: the strings are laid onto the subject left to right, so
   * a reverse HSP reads its strings from the end while its index falls.
   */
  function Source(h: Hsp, i: int): (s: int)
    ensures 0 <= i < Columns(h) ==> 0 <= s < Columns(h) && Target(h, i) == Lo(h) + s
    ensures 0 <= i < Columns(h) && IsReverse(h) ==> s == Columns(h) - 1 - i
    ensures 0 <= i < Columns(h) && !IsReverse(h) ==> s == i
  {
    if IsReverse(h) then h.alignLen - 1 - i else i
  }

  /** Lowest subject index the HSP writes (meaningful when it has columns). */
  function Lo(h: Hsp): int {
    if IsReverse(h) then End(h) - Columns(h) else Start(h) - 2
  }

  /** Highest subject index the HSP writes (meaningful when it has columns). */
  function Hi(h: Hsp): int {
    if IsReverse(h) then End(h) - 1 else Start(h) - 3 + Columns(h)
  }

  /** Some column of `h` writes subject index `p`. */
  predicate Covers(h: Hsp, p: int) {
    Lo(h) <= p <= Hi(h)
  }

  /**
   * The one column of `h` that writes index `p`: the inverse of Target on
   * the HSP's range, so no two columns of one HSP share an index.
   */
  function ColumnOf(h: Hsp, p: int): (i: nat)
    requires Covers(h, p)
    ensures i < Columns(h) && Target(h, i) == p
    ensures forall j :: 0 <= j < Columns(h) && Target(h, j) == p ==> j == i
  {
    if IsReverse(h) then End(h) - 1 - p else p - Start(h) + 2
  }

  /** Every column writes inside the HSP's range, and ColumnOf recovers it. */
  lemma TargetCovers(h: Hsp, i: int)
    requires 0 <= i < Columns(h)
    ensures Covers(h, Target(h, i)) && ColumnOf(h, Target(h, i)) == i
  {
  }

  /** Both strings are long enough to be read at every column. */
  predicate Readable(h: Hsp) {
    |h.qseq| >= Columns(h) && |h.hseq| >= Columns(h)
  }

  /**
   * The conditions under which the source neither raises IndexError nor
   * writes through Python's negative-index wrap-around: both strings cover
   * every column and every written index lies in `[0, len)`.
   */
  predicate ValidHsp(h: Hsp, len: nat) {
    && Readable(h)
    && (Columns(h) > 0 ==> 0 <= Lo(h) && Hi(h) < len)
  }

  /** Every column of a valid HSP writes an index of the array. */
  lemma ValidTargetsInBounds(h: Hsp, len: nat, i: int)
    requires ValidHsp(h, len) && 0 <= i < Columns(h)
    ensures 0 <= Target(h, i) < len
  {
  }

  /**
   * The label column `i` of `h` writes: forward HSPs write only 1..4 and
   * reverse HSPs only 4..7.
   */
  function ColumnLabel(h: Hsp, i: int): (l: int)
    requires Readable(h) && 0 <= i < Columns(h)
    ensures IsLabel(l) && l != Uncovered
    ensures !IsReverse(h) ==> l in {1, 2, 3, 4}
    ensures IsReverse(h) ==> l in {4, 5, 6, 7}
    ensures KindOfLabel(l) == Some(KindOf(h.qseq[Source(h, i)], h.hseq[Source(h, i)]))
  {
    ClassifyDecodes(h.qseq[Source(h, i)], h.hseq[Source(h, i)], IsReverse(h));
    Classify(h.qseq[Source(h, i)], h.hseq[Source(h, i)], IsReverse(h))
  }

  /**
   * The range an HSP writes is fixed by hit-from and the alignment length
   * alone; hit-to only selects the strand.  A forward HSP with gaps in its
   * subject string therefore writes past hit_to - 2.
   */
  lemma RangeFromHitFrom(h: Hsp)
    requires Columns(h) > 0
    ensures !IsReverse(h) ==> Lo(h) == h.hitFrom - 2 && Hi(h) == h.hitFrom - 3 + h.alignLen
    ensures IsReverse(h) ==> Lo(h) == h.hitFrom - h.alignLen && Hi(h) == h.hitFrom - 1
    ensures Hi(h) - Lo(h) + 1 == h.alignLen
  {
  }

  /** The same HSP with hit-from and hit-to exchanged. */
  function Swapped(h: Hsp): Hsp {
    h.(hitFrom := h.hitTo, hitTo := h.hitFrom)
  }

  /**
   * Observed behaviour of the offsets: when the alignment length equals the
   * coordinate span, a forward HSP and the same HSP with its coordinates
   * exchanged write ranges one index apart, the reverse one higher.
   */
  lemma SwappedRangeShifted(h: Hsp)
    requires h.hitFrom < h.hitTo && h.alignLen == h.hitTo - h.hitFrom + 1
    ensures IsReverse(Swapped(h)) && !IsReverse(h)
    ensures Lo(Swapped(h)) == Lo(h) + 1 && Hi(Swapped(h)) == Hi(h) + 1
    ensures Lo(h) == h.hitFrom - 2 && Hi(h) == h.hitTo - 2
  {
  }
}
