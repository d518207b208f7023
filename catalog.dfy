/** The two fixed catalogues of the Term Tracker form: the 16 term labels a
    user can select and the 10 letter grades the add-grade action accepts. */
module Catalog {

  /** The term selector's options, in display order. */
  const TermOptions: seq<string> := [
    "Freshman Fall", "Freshman Winter", "Freshman Spring", "Freshman Summer",
    "Sophomore Fall", "Sophomore Winter", "Sophomore Spring", "Sophomore Summer",
    "Junior Fall", "Junior Winter", "Junior Spring", "Junior Summer",
    "Senior Fall", "Senior Winter", "Senior Spring", "Senior Summer"
  ]

  /** The grade tokens the add-grade action lets through. */
  const GradeOptions: seq<string> := ["A", "A-", "B+", "B", "B-", "C+", "C", "C-", "D", "E"]

  /** The string stored for a term marked as off-term. */
  const OffTermText: string := "Off-Term"

  predicate IsTerm(s: string) { s in TermOptions }

  predicate IsGrade(s: string) { s in GradeOptions }

  /** The guard of the add-grade handler: the input must be truthy (non-empty)
      and one of the catalogue grades. The emptiness test adds nothing,
      since no catalogue grade is empty. The length bound is not used by
      other proofs; it records that a grade token is one letter with an
      optional sign. */
  function AcceptsGrade(input: string): (ok: bool)
    ensures ok <==> IsGrade(input)
    ensures ok ==> 1 <= |input| <= 2
  {
    input != "" && input in GradeOptions
  }

  /** Both catalogues list each entry once, and the term selector starts on
      "Freshman Fall". No proof relies on these facts; they are stated to pin
      the constants down as the form shows them. */
  lemma CataloguesAreDistinct()
    ensures |TermOptions| == 16 && |GradeOptions| == 10
    ensures forall i, j :: 0 <= i < j < |TermOptions| ==> TermOptions[i] != TermOptions[j]
    ensures forall i, j :: 0 <= i < j < |GradeOptions| ==> GradeOptions[i] != GradeOptions[j]
    ensures TermOptions[0] == "Freshman Fall"
  {
  }
}
