/** The result and error bookkeeping of the compute-GPA action. The POST to the
    scoring service is not modelled; its outcome arrives as a value, and the
    GPA summary it returns is an opaque payload of type P. */
module GpaOutcome {

  datatype Option<+T> = None | Some(value: T)

  /** The body of an error response; `error` is its `error` field, if any. */
  datatype ErrorBody = ErrorBody(error: Option<string>)

  /** How the request failed, as far as the error handler can see. */
  datatype Failure =
    | NoResponse                       // network failure: the error carries no response
    | Response(body: Option<ErrorBody>) // an error response; None when its body is null

  datatype Outcome<+P> = Succeeded(payload: P) | Failed(failure: Failure)

  /** The part of the form's state the compute action writes. */
  datatype Report<+P> = Report(gpaData: Option<P>, errorMessage: string)

  const FallbackMessage: string := "An error occurred while calculating GPA."

  /** The message the error handler stores for a failure. None when the
      handler itself fails: it reads the `error` field of a null body, throws,
      and stores nothing. */
  function FailureMessage(f: Failure): (r: Option<string>)
    ensures r.None? <==> f == Response(None)
    ensures r.Some? ==> r.value != ""
    ensures r.Some? && r.value != FallbackMessage ==> f == Response(Some(ErrorBody(Some(r.value))))
  {
    match f
    case NoResponse => Some(FallbackMessage)
    case Response(None) => None
    case Response(Some(ErrorBody(e))) =>
      if e.Some? && e.value != "" then Some(e.value) else Some(FallbackMessage)
  }

  /** The report after the compute action settles with `outcome`. */
  function Settle<P>(report: Report<P>, outcome: Outcome<P>): (r: Report<P>)
    ensures outcome.Succeeded? ==> r.gpaData == Some(outcome.payload) && r.errorMessage == ""
    ensures outcome.Failed? ==> r.gpaData == report.gpaData
    ensures outcome.Failed? && FailureMessage(outcome.failure).Some? ==>
              r.errorMessage == FailureMessage(outcome.failure).value
    ensures outcome == Failed(Response(None)) ==> r == report
    ensures outcome.Failed? && outcome.failure != Response(None) ==> r.errorMessage != ""
  {
    match outcome
    case Succeeded(p) => Report(Some(p), "")
    case Failed(f) =>
      match FailureMessage(f)
      case Some(m) => Report(report.gpaData, m)
      case None => report
  }

  /** A server message is shown verbatim; a missing or empty one, or a
      failure without a response, shows the fallback text. */
  lemma FailureMessages(m: string)
    ensures m != "" ==> FailureMessage(Response(Some(ErrorBody(Some(m))))) == Some(m)
    ensures FailureMessage(Response(Some(ErrorBody(Some(""))))) == Some(FallbackMessage)
    ensures FailureMessage(Response(Some(ErrorBody(None)))) == Some(FallbackMessage)
    ensures FailureMessage(NoResponse) == Some(FallbackMessage)
  {
  }

  /** A failure after a success leaves the earlier result on display beside
      the new error message: result and error are not mutually exclusive. */
  lemma StaleResultBesideError<P>(report: Report<P>, p: P, f: Failure)
    requires f != Response(None)
    ensures var r := Settle(Settle(report, Succeeded(p)), Failed(f));
            r.gpaData == Some(p) && r.errorMessage != ""
  {
  }

  /** The state after a success does not depend on what was displayed
      before, so of two responses settling in turn, a later success wins. */
  lemma SuccessOverwrites<P>(report: Report<P>, other: Report<P>, p: P)
    ensures Settle(report, Succeeded(p)) == Settle(other, Succeeded(p))
  {
  }
}
