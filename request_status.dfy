/** Changing a service request's status from the admin request page
    (frontend/src/pages/AdminPages/Requests/RequestView.jsx and
    components/RequestStatusChangeDialog.jsx): the options offered for the
    current status, the confirmation dialog with its comment rules, and the
    `update_status` payload it sends. */
module RequestStatus {
  import opened Common
  import Text

  datatype StatusOption = StatusOption(title: string, value: string, current: bool)

  const OpenOption := StatusOption("Open", "open", true)
  const InProgressCurrent := StatusOption("In-Progress", "in_progress", true)
  const InProgressOption := StatusOption("In-Progress", "in_progress", false)
  const CompleteOption := StatusOption("Complete", "complete", false)
  const CancelOption := StatusOption("Cancel", "cancel", false)

  /** The options offered for a status: none once it is completed or
      cancelled (or for any other value). */
  function OptionsFor(status: string): (r: Option<seq<StatusOption>>)
    ensures r.Some? <==> status == "open" || status == "in_progress"
    ensures r.Some? ==> |r.value| == 3 && r.value[0].current && r.value[0].value == status
  {
    if status == "open" then Some([OpenOption, InProgressOption, CancelOption])
    else if status == "in_progress" then Some([InProgressCurrent, CompleteOption, CancelOption])
    else None
  }

  /** The status `update_status` is sent for the dialog's target title. */
  function TargetStatus(toStatus: string): (s: string)
    ensures s in {"cancelled", "in_progress", "completed"}
    ensures s == "cancelled" <==> toStatus == "Cancel"
    ensures s == "in_progress" <==> toStatus == "In-Progress"
    ensures s == "completed" <==> toStatus != "Cancel" && toStatus != "In-Progress"
  {
    if toStatus == "Cancel" then "cancelled"
    else if toStatus == "In-Progress" then "in_progress"
    else "completed"
  }

  /** The status sent for an option that opens the dialog (any but the
      current one) is the status that option stands for: its value, or its
      value completed to the past participle (`cancel` is sent as
      `cancelled`, `complete` as `completed`). */
  lemma OfferedTitleSendsItsValue(status: string, i: nat)
    requires OptionsFor(status).Some? && i < 3 && !OptionsFor(status).value[i].current
    ensures Text.StartsWith(TargetStatus(OptionsFor(status).value[i].title), OptionsFor(status).value[i].value)
  {
    var o := OptionsFor(status).value[i];
    if o == CancelOption {
      assert "cancelled"[..6] == "cancel";
    } else if o == CompleteOption {
      assert "completed"[..8] == "complete";
    } else {
      assert o == InProgressOption;
      assert "in_progress"[..11] == "in_progress";
    }
  }

  /** The moves the page lets an admin make. */
  predicate AllowedMove(from: string, to: string) {
    (from == "open" && to in {"in_progress", "cancelled"})
    || (from == "in_progress" && to in {"completed", "cancelled"})
  }

  /** Whatever option is picked, the page asks only for an allowed move: a
      request never goes back to open, never stays where it is, and leaves a
      final state never. */
  lemma PickedOptionIsAllowedMove(status: string, i: nat)
    requires OptionsFor(status).Some? && i < 3
    requires OptionsFor(status).value[i].value != status
    ensures AllowedMove(status, TargetStatus(OptionsFor(status).value[i].title))
  {
  }

  /** Yup's message for the comment, or none when it is valid: required and
      at most 255 characters for a cancellation, optional and at most 100
      otherwise. */
  function CommentError(toStatus: string, message: string): (e: Option<string>)
    ensures e.None? <==>
      if toStatus == "Cancel" then message != "" && |message| <= 255 else |message| <= 100
  {
    if toStatus == "Cancel" then
      if message == "" then Some("Comment is required.")
      else if |message| > 255 then Some("Maximum 255 characters")
      else None
    else if |message| > 100 then Some("Maximum 100 characters")
    else None
  }

  /** The confirm button's `disabled`. */
  predicate SubmitDisabled(isValid: bool, dirty: bool, toStatus: string, isSubmitting: bool) {
    !isValid || (!dirty && toStatus == "Cancel") || isSubmitting
  }

  /** The body of `PATCH /service-requests/{id}/update_status/`. */
  datatype StatusPatch = StatusPatch(status: string, comment: string)

  /** `{status, comment: values.message || ""}`. */
  function Patch(toStatus: string, message: Option<string>): (p: StatusPatch)
    ensures p.status == TargetStatus(toStatus)
    ensures p.comment == (if message.Some? then message.value else "")
  {
    StatusPatch(TargetStatus(toStatus), message.GetOr(""))
  }

  /** A form that can be submitted satisfies its schema: a cancellation
      always carries a comment of at most 255 characters, any other change a
      comment of at most 100. */
  lemma EnabledSubmitIsValid(toStatus: string, message: string)
    requires !SubmitDisabled(CommentError(toStatus, message).None?, message != "", toStatus, false)
    ensures toStatus == "Cancel" ==> Patch(toStatus, Some(message)).comment != "" && |message| <= 255
    ensures toStatus != "Cancel" ==> |Patch(toStatus, Some(message)).comment| <= 100
  {
  }

  /** The page's status state. */
  class StatusPicker {
    var status: string
    var options: Option<seq<StatusOption>>
    var selected: Option<StatusOption>
    var dialogOpen: bool
    var toStatus: string

    constructor ()
      ensures status == "" && options == None && selected == None && !dialogOpen && toStatus == ""
    {
      status := "";
      options := None;
      selected := None;
      dialogOpen := false;
      toStatus := "";
    }

    /** `fetchRequestDetails` for a request in `status`: the options for it,
        with the current one selected; a final status offers none and keeps
        the selection. */
    method Load(s: string)
      modifies this`status, this`options, this`selected
      ensures status == s && options == OptionsFor(s)
      ensures options.Some? ==> selected == Some(options.value[0])
      ensures options.None? ==> selected == old(selected)
    {
      status := s;
      if s == "open" {
        options := Some([OpenOption, InProgressOption, CancelOption]);
        selected := Some(OpenOption);
      } else if s == "in_progress" {
        options := Some([InProgressCurrent, CompleteOption, CancelOption]);
        selected := Some(InProgressCurrent);
      } else {
        options := None;
      }
    }

    /** `handleStateSelectChange`: picking the current status does nothing;
        any other option opens the dialog for it. */
    method Pick(option: StatusOption)
      modifies this`dialogOpen, this`toStatus
      ensures option.value == status ==> dialogOpen == old(dialogOpen) && toStatus == old(toStatus)
      ensures option.value != status ==> dialogOpen && toStatus == option.title
    {
      if option.value == status {
        return;
      }
      toStatus := option.title;
      dialogOpen := true;
    }
  }
}
