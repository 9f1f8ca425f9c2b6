/**
 * The remote campaign service as the component sees it: the outcome of each
 * request, and the notice text the component derives from a failed one.
 * The requests themselves (URLs, headers, bearer token, JSON bodies) are not
 * modelled; an outcome value stands for everything they return.
 */
module Remote {
  import opened Wrappers
  import opened JsStrings
  import opened Campaigns

  /** A value caught by a `catch` block: an `Error` carries a message, anything else does not. */
  datatype Thrown = ErrorObject(message: string) | NonError

  /** GET of the whole list: the `data` array of the reply, or any failure. */
  datatype FetchOutcome = Fetched(data: seq<Campaign>) | FetchFailed

  /**
   * PATCH of one record: accepted; refused with a non-ok status and the
   * `message` of the JSON error body, if the body parsed and had one; or the
   * request itself threw.
   */
  datatype PatchOutcome = Patched | PatchRefused(status: nat, bodyMessage: Option<string>) | PatchThrew(thrown: Thrown)

  /** DELETE of one record: every failure is reported the same way. */
  datatype DeleteOutcome = Deleted | DeleteFailed

  /**
   * POST to launch one record: accepted with a JSON reply; refused with a
   * non-ok status and its status text; or something threw (the request, or
   * parsing the reply).
   */
  datatype LaunchOutcome = Launched | LaunchRefused(status: nat, statusText: string) | LaunchThrew(thrown: Thrown)

  const StatusPrefix := "HTTP error! status: "
  const UpdateFallback := "Failed to update campaign. Please try again later."
  const LaunchPrefix := "Failed to send campaign: "

  /**
   * The notice text after a failed PATCH: the message of a thrown error as it
   * is, a fixed apology when what was thrown is not an error, and for a
   * refusal a notice that is never empty.
   */
  function PatchFailureMessage(o: PatchOutcome): (m: string)
    requires !o.Patched?
    ensures o.PatchThrew? && o.thrown.ErrorObject? ==> m == o.thrown.message
    ensures o.PatchThrew? && o.thrown.NonError? ==> m == UpdateFallback
    ensures o.PatchRefused? ==> m != ""
  {
    match o
    case PatchRefused(status, body) =>
      if body.Some? && body.value != "" then body.value else StatusPrefix + NatToString(status)
    case PatchThrew(ErrorObject(message)) => message
    case PatchThrew(NonError) => UpdateFallback
  }

  /**
   * A refused PATCH shows the server's message when it sent a non-empty one,
   * and otherwise a message from which the HTTP status can be read back.
   */
  lemma RefusedPatchMessage(status: nat, body: Option<string>)
    ensures body.Some? && body.value != "" ==> PatchFailureMessage(PatchRefused(status, body)) == body.value
    ensures !(body.Some? && body.value != "") ==>
      var m := PatchFailureMessage(PatchRefused(status, body));
      && |m| > |StatusPrefix| && m[..|StatusPrefix|] == StatusPrefix
      && AllDigits(m[|StatusPrefix|..]) && DecimalValue(m[|StatusPrefix|..]) == status
  {
    var m := PatchFailureMessage(PatchRefused(status, body));
    if !(body.Some? && body.value != "") {
      assert m[|StatusPrefix|..] == NatToString(status);
      NatToStringValue(status);
    }
  }

  /**
   * The notice text after a launch. A refusal is reported as
   * `"Failed to send campaign: " + error.message` where the error's own message
   * already starts with the same words, so the prefix appears twice.
   */
  function LaunchMessage(o: LaunchOutcome): (m: string)
    ensures o.Launched? <==> m == "Campaign sent successfully"
  {
    match o
    case Launched => "Campaign sent successfully"
    case LaunchRefused(status, statusText) =>
      LaunchPrefix + (LaunchPrefix + NatToString(status) + " " + statusText)
    case LaunchThrew(ErrorObject(message)) =>
      assert (LaunchPrefix + message)[0] != "Campaign sent successfully"[0];
      LaunchPrefix + message
    case LaunchThrew(NonError) => LaunchPrefix + "Unknown error"
  }

  /**
   * Every failed launch is reported under "Failed to send campaign: ". What
   * follows is the thrown error's message, "Unknown error" when what was
   * thrown is not an error, or for a refusal the same prefix again with the
   * status and the status text, which ends the notice.
   */
  lemma LaunchFailureMessage(o: LaunchOutcome)
    requires !o.Launched?
    ensures var m := LaunchMessage(o);
      && |m| >= |LaunchPrefix| && m[..|LaunchPrefix|] == LaunchPrefix
      && (o.LaunchThrew? && o.thrown.ErrorObject? ==> m[|LaunchPrefix|..] == o.thrown.message)
      && (o.LaunchThrew? && o.thrown.NonError? ==> m[|LaunchPrefix|..] == "Unknown error")
      && (o.LaunchRefused? ==> m[|LaunchPrefix|..] == LaunchPrefix + NatToString(o.status) + " " + o.statusText)
      && (o.LaunchRefused? ==> m[|m| - |o.statusText|..] == o.statusText)
  {
  }
}
