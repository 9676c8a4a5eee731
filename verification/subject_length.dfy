/**
 * get_subject_length (parse_xml.py, lines 8-11): the length read from the
 * CSV file when it is truthy, the hard-coded default otherwise.  For an
 * integer argument Python's truthiness means "present and non-zero".
 */
module SubjectLength {
  import opened Wrappers

  const DefaultSubjectLength := 1600000

  function GetSubjectLength(fromCsv: Option<int>): (r: int)
    ensures r != 0
    ensures fromCsv.Some? && fromCsv.value != 0 ==> r == fromCsv.value
    ensures fromCsv == None || fromCsv == Some(0) ==> r == DefaultSubjectLength
  {
    if fromCsv.Some? && fromCsv.value != 0 then fromCsv.value else DefaultSubjectLength
  }

  /** Feeding a returned length back in returns it unchanged. */
  lemma GetSubjectLengthStable(fromCsv: Option<int>)
    ensures GetSubjectLength(Some(GetSubjectLength(fromCsv))) == GetSubjectLength(fromCsv)
  {
  }
}
