/** The Term Tracker form's state and its event handlers. Each handler
    replaces one or more fields with a value computed by the pure updates of
    TermRecords and GpaOutcome. */
module Tracker {
  import opened Catalog
  import opened TermRecords
  import opened GpaOutcome

  class TermTracker<P> {
    var selectedTerm: string
    var terms: TermMap
    var inputGrade: string
    var gpaData: Option<P>
    var errorMessage: string

    /** The selection is a catalogue term and the record is well-formed:
        catalogue keys only, no empty grade list. */
    ghost predicate Valid()
      reads this
    {
      IsTerm(selectedTerm) && WellFormed(terms)
    }

    /** The initial state: first term selected, nothing recorded, empty input,
        no result and no error. */
    constructor ()
      ensures Valid()
      ensures selectedTerm == TermOptions[0] && terms == map[] && inputGrade == ""
      ensures gpaData == None && errorMessage == ""
    {
      selectedTerm := TermOptions[0];
      terms := map[];
      inputGrade := "";
      gpaData := None;
      errorMessage := "";
    }

    /** The term selector's change handler; the selector offers catalogue
        terms only. */
    method SelectTerm(term: string)
      requires Valid() && IsTerm(term)
      modifies this`selectedTerm
      ensures Valid() && selectedTerm == term
    {
      selectedTerm := term;
    }

    /** The grade field's change handler: any text is stored as typed. */
    method SetInputGrade(text: string)
      requires Valid()
      modifies this`inputGrade
      ensures Valid() && inputGrade == text
    {
      inputGrade := text;
    }

    /** Add the pending grade to the selected term. An input that is empty or
        not a catalogue grade is dropped silently: nothing changes. */
    method AddGrade()
      requires Valid()
      modifies this`terms, this`inputGrade
      ensures Valid()
      ensures !IsGrade(old(inputGrade)) ==> terms == old(terms) && inputGrade == old(inputGrade)
      ensures IsGrade(old(inputGrade)) ==> inputGrade == ""
      ensures IsGrade(old(inputGrade)) ==>
                && terms.Keys == old(terms).Keys + {selectedTerm}
                && terms[selectedTerm] == Graded(PriorEntries(old(terms), selectedTerm) + [old(inputGrade)])
                && forall k :: k in old(terms) && k != selectedTerm ==> terms[k] == old(terms)[k]
    {
      if AcceptsGrade(inputGrade) {
        WithGradePreserves(terms, selectedTerm, inputGrade);
        terms := WithGrade(terms, selectedTerm, inputGrade);
        inputGrade := "";
      }
    }

    /** Mark the selected term as off-term, whatever it held. */
    method MarkOffTerm()
      requires Valid()
      modifies this`terms
      ensures Valid()
      ensures terms.Keys == old(terms).Keys + {selectedTerm} && terms[selectedTerm] == OffTerm
      ensures forall k :: k in old(terms) && k != selectedTerm ==> terms[k] == old(terms)[k]
    {
      WithOffTermPreserves(terms, selectedTerm);
      terms := WithOffTerm(terms, selectedTerm);
    }

    /** Remove the selected term from the record; nothing happens if it is
        absent. */
    method ClearTerm()
      requires Valid()
      modifies this`terms
      ensures Valid()
      ensures terms.Keys == old(terms).Keys - {selectedTerm}
      ensures forall k :: k in terms ==> terms[k] == old(terms)[k]
    {
      WithoutTermPreserves(terms, selectedTerm);
      terms := WithoutTerm(terms, selectedTerm);
    }

    /** Record how the request to the scoring service settled: a success
        stores its payload and clears the error; a failure stores the server's
        message or the fallback text and keeps the previous result. */
    method CalculateGpa(outcome: Outcome<P>)
      requires Valid()
      modifies this`gpaData, this`errorMessage
      ensures Valid()
      ensures Report(gpaData, errorMessage) == Settle(Report(old(gpaData), old(errorMessage)), outcome)
      ensures outcome.Succeeded? ==> gpaData == Some(outcome.payload) && errorMessage == ""
      ensures outcome.Failed? ==> gpaData == old(gpaData)
      ensures outcome.Failed? && FailureMessage(outcome.failure).Some? ==>
                errorMessage == FailureMessage(outcome.failure).value
      ensures outcome == Failed(Response(None)) ==> errorMessage == old(errorMessage)
    {
      var settled := Settle(Report(gpaData, errorMessage), outcome);
      gpaData, errorMessage := settled.gpaData, settled.errorMessage;
    }

    /** Forget every term, the result and the error; the selection and the
        pending input stay. */
    method ClearAllData()
      requires Valid()
      modifies this`terms, this`gpaData, this`errorMessage
      ensures Valid()
      ensures terms == map[] && gpaData == None && errorMessage == ""
    {
      EmptyIsWellFormed();
      terms := map[];
      gpaData := None;
      errorMessage := "";
    }
  }
}
