# Term Tracker form state, in Dafny

This project models the state logic of the Term Tracker single-page form
(`src/App.js`). The form records letter grades per academic term and sends
them to a remote service that computes the GPA.

The component holds five pieces of state:

- the selected term, one of 16 catalogue labels;
- the term record, a map from term label to a grade list or to the
  `"Off-Term"` sentinel;
- the pending grade input;
- the last GPA summary, if any;
- an error message.

The event handlers change this state. The model has four modules:

- `Catalog` (`catalog.dfy`) holds the term catalogue, the grade catalogue,
  the sentinel text and the add-grade guard.
- `TermRecords` (`term_records.dfy`) holds the term record and the three pure
  map updates the handlers compute. These are spread-copy plus append
  (`WithGrade`), spread-copy plus overwrite (`WithOffTerm`) and copy then
  delete (`WithoutTerm`). The module also holds the invariant the record keeps
  (`WellFormed`) and the lemmas about these updates.
- `GpaOutcome` (`gpa_outcome.dfy`) holds the result/error bookkeeping of the
  compute action. The request's outcome is an input value. The GPA summary is
  an opaque payload of type `P`.
- `Tracker` (`tracker.dfy`) holds the class `TermTracker`. Its five fields
  are the component's state, and its methods are the handlers. Each method
  names in `modifies` exactly the fields its handler sets. Each one is proved
  to keep `Valid()`: the selection is a catalogue term, only catalogue terms
  are keys, and no term holds an empty list.

The model keeps one quirk of the code as written. Adding a grade to a term
marked `"Off-Term"` spreads the sentinel string into its characters. The new
list is `["O","f","f","-","T","e","r","m", g]`. `PriorEntries` models
`prevTerms[t] || []` and reproduces this through `Spread`. Because of it, a
reachable grade list is either grades only, or those eight characters followed
by grades (`ReachableEntries`). "Grades only" is not an invariant
(`GradesOnlyIsNotInvariant`).

Three behaviours of the code as written, which the model keeps:

- A failure response whose `error` field is present but empty shows the
  fallback text, not the empty message. The handler tests the field's
  truthiness.
- A failure response with a null body makes the handler throw while it reads
  `.error`. Nothing is stored, and the error message keeps its previous value
  (`Response(None)` in `GpaOutcome.Failure`).
- Adding a grade to an off-term spreads the sentinel string. It does not
  start a fresh list, and it is not rejected.

## Model

| member | source | states |
|---|---|---|
| `Catalog.AcceptsGrade` | src/App.js:21 | the add-grade guard passes exactly for the 10 catalogue grades; the non-empty test is implied, and an accepted grade is 1 or 2 characters long |
| `Catalog.CataloguesAreDistinct` | src/App.js:4-14 | 16 distinct term labels, 10 distinct grades, and the selector starts on "Freshman Fall" |
| `TermRecords.JoinSpread` | src/App.js:24 | spreading a string loses nothing: every piece is exactly one character long, and joining the pieces in order gives the string back |
| `TermRecords.PriorEntries` | src/App.js:24 | the list that the spread of the previous value (or of an empty array) yields: empty for an absent term, the grade list for a graded term, and the eight strings O,f,f,-,T,e,r,m for an off-term; `WithGradeAppends`, `WithGradeOnOffTerm` and `PriorEntriesAfterGrade` state what add-grade builds on it |
| `TermRecords.WithGrade` | src/App.js:22-25 | adding a grade makes the term a key holding a non-empty list one longer than its prior entries, with the grade as its last element; every other key is unchanged |
| `TermRecords.WithOffTerm` | src/App.js:31-34 | marking off-term makes the term a key holding the sentinel and leaves every other key unchanged |
| `TermRecords.WithoutTerm` | src/App.js:38-42 | clearing removes exactly the term's key and leaves every other entry unchanged |
| `TermRecords.EmptyIsWellFormed` | src/App.js:15 | the empty initial record satisfies the invariant |
| `TermRecords.SpreadSentinel` | src/App.js:24 | the spread of "Off-Term" is the eight strings O,f,f,-,T,e,r,m, and none of them is a catalogue grade |
| `TermRecords.WithGradePreserves` | src/App.js:20-26 | adding a catalogue grade to a catalogue term keeps only-catalogue keys and non-empty, reachable lists, whatever the term held before |
| `TermRecords.WithOffTermPreserves` | src/App.js:30-35 | marking a catalogue term off keeps the invariant |
| `TermRecords.WithoutTermPreserves` | src/App.js:37-43 | clearing a term keeps the invariant, so no list is ever left empty |
| `TermRecords.PriorEntriesAfterGrade` | src/App.js:24 | a later add-grade on the same term builds on the earlier entries followed by the grade just added |
| `TermRecords.WithGradeAppends` | src/App.js:24 | adding to an absent term gives the one-element list; adding to a graded term appends after the earlier grades, preserving their order |
| `TermRecords.WithGradeOnOffTerm` | src/App.js:24 | adding to an off-term gives the eight sentinel characters followed by the grade; the first element is not a grade |
| `TermRecords.GradesOnlyIsNotInvariant` | src/App.js:22-34 | mark-off then add-grade yields a well-formed record whose list contains a non-grade |
| `TermRecords.WithOffTermForgetsPrior` | src/App.js:30-35 | the result of marking off-term does not depend on the term's prior value (absent, list or sentinel); marking twice equals marking once |
| `TermRecords.WithoutTermForgetsPrior` | src/App.js:37-43 | clearing an absent term is a no-op; clearing twice equals clearing once; the result does not depend on the term's prior value |
| `TermRecords.WithGradesInOrder` | src/App.js:20-28 | grades added one after another to a term end up after its prior entries in insertion order |
| `TermRecords.WithGradesFrame` | src/App.js:20-28 | a run of add-grade actions on one term adds only that key and leaves every other term unchanged |
| `TermRecords.TwoGradesExample` | src/App.js:24 | adding "B+" then "A-" to an absent term yields ["B+", "A-"] |
| `GpaOutcome.FailureMessage` | src/App.js:50-56 | a failure surfaces a non-empty message; any message other than the fallback is the response's own `error` field; no message only when the response body is null |
| `GpaOutcome.Settle` | src/App.js:46-56 | success stores the payload and clears the error; failure keeps the previous result and, when the body is readable, sets the error to the server's non-empty `error` or the fallback text, so a visible error always results; a null error body leaves the report unchanged |
| `GpaOutcome.FailureMessages` | src/App.js:51-55 | a non-empty server `error` is shown verbatim; an empty or missing field, or no response, gives "An error occurred while calculating GPA." |
| `GpaOutcome.StaleResultBesideError` | src/App.js:46-56 | a failure after a success leaves the old result displayed beside a non-empty error |
| `GpaOutcome.SuccessOverwrites` | src/App.js:48-49 | the state after a success does not depend on the state before it |
| `Tracker.TermTracker.constructor` | src/App.js:14-18 | initial state: "Freshman Fall" selected, empty record, empty input, no result, empty error; the invariant holds |
| `Tracker.TermTracker.SelectTerm` | src/App.js:86-87 | selecting a catalogue term changes only the selection and keeps the invariant |
| `Tracker.TermTracker.SetInputGrade` | src/App.js:103-104 | typing stores the text as is and changes nothing else |
| `Tracker.TermTracker.AddGrade` | src/App.js:20-28 | a non-grade input leaves record and input unchanged; a grade is appended to the selected term's prior entries, other keys keep their values, and the input is cleared; the invariant is kept |
| `Tracker.TermTracker.MarkOffTerm` | src/App.js:30-35 | the selected term becomes the sentinel, other keys keep their values, invariant kept |
| `Tracker.TermTracker.ClearTerm` | src/App.js:37-43 | the selected term's key is removed, other entries keep their values, invariant kept |
| `Tracker.TermTracker.CalculateGpa` | src/App.js:45-57 | the result and error become `Settle` of the old ones and the outcome; success stores the payload and clears the error; failure keeps the result and stores the failure's message; a null error body changes nothing; record, selection and input untouched |
| `Tracker.TermTracker.ClearAllData` | src/App.js:59-63 | record emptied, result none, error empty; selection and input untouched |

## Left out

- The POST to the scoring service, its endpoint and its request body are not
  modelled. This is network I/O; the body is the term record sent unchanged.
  `CalculateGpa` takes the request's outcome as a parameter. The order of the
  keys in that body is not modelled either: the record is an object whose
  keys keep insertion order, so a term cleared and added again moves to the
  end, while the model's `map` has no order.
- The asynchronous suspension in the compute action is not modelled, and
  neither are overlapping compute calls racing. This is concurrency. The
  model settles one outcome at a time, in the order given.
- The GPA arithmetic is not modelled. It is done by the remote service, and
  its floating-point results are the opaque payload `P`.
- Rendering is not modelled: JSX, styles, the grade suggestion list and the
  `toString()` display of the selected term's entry.
- React's `useState` plumbing is not modelled. Each functional state update
  becomes a plain field assignment.
- `GpaOutcome.FailureMessage`: the `error` field of an error body is modelled
  as a string. A non-string truthy value, which the handler would store
  as is, is not modelled. A body that is not an object (for example the
  empty string) reads as `ErrorBody(None)`.
- Strings are sequences of characters. The spread of `"Off-Term"` splits it
  by code point, which is the same as by character for this ASCII text.
