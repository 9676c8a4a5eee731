/**
 * create_subject_array (parse_xml.py, lines 48-90): a zero-filled array of
 * subject_length entries, overwritten column by column for every HSP of
 * every hit, in order.  Every write is unconditional, so the last HSP whose
 * range contains an index decides its final label.
 *
 * The functional definitions below give the meaning; CreateSubjectArray is
 * the nested-loop algorithm over a Dafny array, proved equal to it.
 */
module Projection {
  import opened Wrappers
  import opened Labels
  import opened Alignment

  /** Length of `[0] * n`: Python yields an empty list for a negative n. */
  function Size(n: int): (len: nat)
    ensures n >= 0 ==> len == n
    ensures n < 0 ==> len == 0
  {
    if n < 0 then 0 else n
  }

  /** The initial, all-uncovered array. */
  function Zeros(len: nat): (z: seq<int>)
    ensures |z| == len && AllLabels(z)
    ensures forall p :: 0 <= p < len ==> z[p] == Uncovered
  {
    seq(len, _ => Uncovered)
  }

  /** Every HSP in `hsps` is valid for an array of length `len`. */
  predicate AllValid(hsps: seq<Hsp>, len: nat) {
    forall h :: h in hsps ==> ValidHsp(h, len)
  }

  /** Every HSP of every hit is valid for a subject of length `n`. */
  predicate ValidHits(hits: seq<Hit>, n: int) {
    forall hit, h :: hit in hits && h in hit.hsps ==> ValidHsp(h, Size(n))
  }

  /** The HSPs of all hits in the order the source visits them. */
  function Flatten(hits: seq<Hit>): (r: seq<Hsp>)
    ensures forall h :: h in r <==> exists hit :: hit in hits && h in hit.hsps
  {
    if |hits| == 0 then []
    else
      var r := Flatten(hits[..|hits| - 1]) + hits[|hits| - 1].hsps;
      assert forall hit :: hit in hits <==> hit in hits[..|hits| - 1] || hit == hits[|hits| - 1];
      r
  }

  /** `a` after the first `c` columns of `h` have been written. */
  function ApplyColumns(a: seq<int>, h: Hsp, c: nat): (r: seq<int>)
    requires ValidHsp(h, |a|) && c <= Columns(h)
    ensures |r| == |a|
    ensures AllLabels(a) ==> AllLabels(r)
    ensures forall p :: 0 <= p < |a| && !(Covers(h, p) && ColumnOf(h, p) < c) ==> r[p] == a[p]
    ensures forall p :: 0 <= p < |a| && Covers(h, p) && ColumnOf(h, p) < c ==>
                          r[p] == ColumnLabel(h, ColumnOf(h, p))
  {
    if c == 0 then a
    else
      var prev := ApplyColumns(a, h, c - 1);
      TargetCovers(h, c - 1);
      prev[Target(h, c - 1) := ColumnLabel(h, c - 1)]
  }

  /** `a` after every column of `h` has been written. */
  function ApplyHsp(a: seq<int>, h: Hsp): seq<int>
    requires ValidHsp(h, |a|)
  {
    ApplyColumns(a, h, Columns(h))
  }

  /** `a` after every HSP of `hsps` has been applied, first to last. */
  function ApplyHsps(a: seq<int>, hsps: seq<Hsp>): (r: seq<int>)
    requires AllValid(hsps, |a|)
    ensures |r| == |a|
    ensures AllLabels(a) ==> AllLabels(r)
  {
    if |hsps| == 0 then a
    else ApplyHsp(ApplyHsps(a, hsps[..|hsps| - 1]), hsps[|hsps| - 1])
  }

  /** The meaning of create_subject_array on inputs it accepts without error. */
  function SubjectArray(n: int, hits: seq<Hit>): (r: seq<int>)
    requires ValidHits(hits, n)
    ensures |r| == Size(n) && AllLabels(r)
  {
    ApplyHsps(Zeros(Size(n)), Flatten(hits))
  }

  /** The position of the last HSP in `hsps` whose range contains `p`, if any. */
  function LastCovering(hsps: seq<Hsp>, p: int): (r: Option<nat>)
    ensures r.None? <==> forall k :: 0 <= k < |hsps| ==> !Covers(hsps[k], p)
    ensures r.Some? ==> r.value < |hsps| && Covers(hsps[r.value], p)
    ensures r.Some? ==> forall k :: r.value < k < |hsps| ==> !Covers(hsps[k], p)
  {
    if |hsps| == 0 then None
    else if Covers(hsps[|hsps| - 1], p) then Some(|hsps| - 1)
    else LastCovering(hsps[..|hsps| - 1], p)
  }

  /** The label at `p` once `hsps` have been applied over `a`. */
  function FinalLabel(a: seq<int>, hsps: seq<Hsp>, p: int): int
    requires AllValid(hsps, |a|) && 0 <= p < |a|
  {
    match LastCovering(hsps, p)
    case None => a[p]
    case Some(k) =>
      assert hsps[k] in hsps;
      ColumnLabel(hsps[k], ColumnOf(hsps[k], p))
  }

  /**
   * Processing one HSP changes no index outside its own range and sets each
   * index inside it to the label of the one column mapped there.
   */
  lemma ApplyHspEffect(a: seq<int>, h: Hsp, p: int)
    requires ValidHsp(h, |a|) && 0 <= p < |a|
    ensures !Covers(h, p) ==> ApplyHsp(a, h)[p] == a[p]
    ensures Covers(h, p) ==> ApplyHsp(a, h)[p] == ColumnLabel(h, ColumnOf(h, p))
  {
  }

  /** Last writer wins over a sequence of HSPs. */
  lemma {:induction false} ApplyHspsLastWriter(a: seq<int>, hsps: seq<Hsp>, p: int)
    requires AllValid(hsps, |a|) && 0 <= p < |a|
    ensures ApplyHsps(a, hsps)[p] == FinalLabel(a, hsps, p)
  {
    if |hsps| > 0 {
      var prefix := hsps[..|hsps| - 1];
      var last := hsps[|hsps| - 1];
      assert AllValid(prefix, |a|);
      ApplyHspsLastWriter(a, prefix, p);
      ApplyHspEffect(ApplyHsps(a, prefix), last, p);
    }
  }

  /** ApplyHspsLastWriter at every index at once. */
  lemma EveryIndexLastWriter(a: seq<int>, hsps: seq<Hsp>)
    requires AllValid(hsps, |a|)
    ensures forall p :: 0 <= p < |a| ==> ApplyHsps(a, hsps)[p] == FinalLabel(a, hsps, p)
  {
    forall p | 0 <= p < |a|
      ensures ApplyHsps(a, hsps)[p] == FinalLabel(a, hsps, p)
    {
      ApplyHspsLastWriter(a, hsps, p);
    }
  }

  /**
   * The final value at index `p` is the label written there by the last
   * HSP, in hit-then-HSP order, whose range contains `p`, at its one column
   * mapped to `p`; it is 0 when no HSP reaches `p`.  The strand of that HSP
   * bounds the label.
   */
  lemma LastWriterWins(n: int, hits: seq<Hit>, p: int)
    requires ValidHits(hits, n) && 0 <= p < Size(n)
    ensures LastCovering(Flatten(hits), p).None? ==> SubjectArray(n, hits)[p] == Uncovered
    ensures LastCovering(Flatten(hits), p).Some? ==>
              var h := Flatten(hits)[LastCovering(Flatten(hits), p).value];
              && ValidHsp(h, Size(n))
              && SubjectArray(n, hits)[p] == ColumnLabel(h, ColumnOf(h, p))
              && (IsReverse(h) ==> SubjectArray(n, hits)[p] in {4, 5, 6, 7})
              && (!IsReverse(h) ==> SubjectArray(n, hits)[p] in {1, 2, 3, 4})
  {
    ApplyHspsLastWriter(Zeros(Size(n)), Flatten(hits), p);
  }

  /** An index that no HSP of any hit reaches keeps the value 0. */
  lemma UncoveredStaysZero(n: int, hits: seq<Hit>, p: int)
    requires ValidHits(hits, n) && 0 <= p < Size(n)
    requires forall hit, h :: hit in hits && h in hit.hsps ==> !Covers(h, p)
    ensures SubjectArray(n, hits)[p] == Uncovered
  {
    var hsps := Flatten(hits);
    forall k | 0 <= k < |hsps|
      ensures !Covers(hsps[k], p)
    {
      assert hsps[k] in hsps;
    }
    LastWriterWins(n, hits, p);
  }

  /** With no hits, or only HSPs of non-positive alignment length, the array is all zeros. */
  lemma NoColumnsAllZero(n: int, hits: seq<Hit>)
    requires forall hit, h :: hit in hits && h in hit.hsps ==> h.alignLen <= 0
    ensures ValidHits(hits, n)
    ensures SubjectArray(n, hits) == Zeros(Size(n))
  {
    forall p | 0 <= p < Size(n)
      ensures SubjectArray(n, hits)[p] == Uncovered
    {
      UncoveredStaysZero(n, hits, p);
    }
  }

  /**
   * The column loop for one HSP (parse_xml.py, lines 61-87).  Forward column
   * `i` writes index start-2+i from the characters at `i`; reverse column `i`
   * writes index end-1-i from the characters at alignment_len-1-i.
   */
  method WriteHsp(a: array<int>, h: Hsp)
    requires ValidHsp(h, a.Length)
    modifies a
    ensures a[..] == ApplyHsp(old(a[..]), h)
  {
    ghost var before := a[..];
    var reverse := h.hitFrom > h.hitTo;
    var start, end := if reverse then h.hitTo else h.hitFrom, if reverse then h.hitFrom else h.hitTo;
    var i := 0;
    while i < h.alignLen
      invariant 0 <= i <= Columns(h)
      invariant a[..] == ApplyColumns(before, h, i)
    {
      var seqPos, qChar, hChar;
      if reverse {
        seqPos := end - 1 - i;
        qChar := h.qseq[h.alignLen - i - 1];
        hChar := h.hseq[h.alignLen - i - 1];
      } else {
        seqPos := start - 2 + i;
        qChar := h.qseq[i];
        hChar := h.hseq[i];
      }
      TargetCovers(h, i);
      a[seqPos] := Classify(qChar, hChar, reverse);
      i := i + 1;
    }
  }

  /** Applying two runs of HSPs one after the other is applying their concatenation. */
  lemma {:induction false} ApplyHspsAppend(a: seq<int>, first: seq<Hsp>, second: seq<Hsp>)
    requires AllValid(first, |a|) && AllValid(second, |a|)
    ensures AllValid(first + second, |a|)
    ensures ApplyHsps(a, first + second) == ApplyHsps(ApplyHsps(a, first), second)
  {
    if |second| == 0 {
      assert first + second == first;
    } else {
      var rest := second[..|second| - 1];
      assert AllValid(rest, |a|);
      assert (first + second)[..|first + second| - 1] == first + rest;
      ApplyHspsAppend(a, first, rest);
    }
  }

  /** The HSP loop for one hit (parse_xml.py, line 54). */
  method WriteHit(a: array<int>, hit: Hit)
    requires AllValid(hit.hsps, a.Length)
    modifies a
    ensures a[..] == ApplyHsps(old(a[..]), hit.hsps)
  {
    ghost var before := a[..];
    var k := 0;
    while k < |hit.hsps|
      invariant 0 <= k <= |hit.hsps|
      invariant AllValid(hit.hsps[..k], a.Length)
      invariant a[..] == ApplyHsps(before, hit.hsps[..k])
    {
      WriteHsp(a, hit.hsps[k]);
      assert hit.hsps[..k + 1][..k] == hit.hsps[..k];
      k := k + 1;
    }
    assert hit.hsps[..k] == hit.hsps;
  }

  /**
   * create_subject_array: a zero-filled array overwritten by every HSP of
   * every hit, in order.
   */
  method CreateSubjectArray(n: int, hits: seq<Hit>) returns (r: seq<int>)
    requires ValidHits(hits, n)
    ensures |r| == Size(n) && AllLabels(r)
    ensures r == SubjectArray(n, hits)
    ensures forall p :: 0 <= p < |r| ==> r[p] == FinalLabel(Zeros(Size(n)), Flatten(hits), p)
  {
    var a := new int[Size(n)](_ => Uncovered);
    ghost var zeros := a[..];
    var j := 0;
    while j < |hits|
      invariant 0 <= j <= |hits|
      invariant AllValid(Flatten(hits[..j]), a.Length)
      invariant a[..] == ApplyHsps(zeros, Flatten(hits[..j]))
    {
      assert hits[j] in hits;
      WriteHit(a, hits[j]);
      ApplyHspsAppend(zeros, Flatten(hits[..j]), hits[j].hsps);
      assert hits[..j + 1][..j] == hits[..j];
      j := j + 1;
    }
    assert hits[..j] == hits;
    assert zeros == Zeros(Size(n));
    r := a[..];
    EveryIndexLastWriter(Zeros(Size(n)), Flatten(hits));
  }
}
