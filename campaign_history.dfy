/**
 * The CampaignHistory component's state and its event handlers. Each handler
 * is one atomic step; a remote request is replaced by the outcome it produced,
 * passed in as a parameter.
 */
module CampaignHistoryState {
  import opened Wrappers
  import opened Campaigns
  import opened ListStore
  import opened EditSubmit
  import opened Remote

  datatype Severity = Success | Error

  /** The notice (snackbar) descriptor. */
  datatype Notice = Notice(open: bool, message: string, severity: Severity)

  /** All of the component's state as one value, for saying what a handler leaves alone. */
  datatype Snapshot = Snapshot(
    page: nat,
    rowsPerPage: nat,
    campaigns: seq<Campaign>,
    loading: bool,
    error: Option<string>,
    editDialogOpen: bool,
    deleteDialogOpen: bool,
    selectedCampaign: Option<Campaign>,
    snackbar: Notice,
    editedCampaign: Option<Campaign>)

  const LoadFailed := "Failed to load campaigns. Please try again later."
  const DeleteFailedMessage := "Failed to delete campaign. Please try again later."
  const NothingSelected := "No campaign selected for editing."
  const UpdatedMessage := "Campaign updated successfully"

  /** The state a freshly mounted component starts in. */
  const Initial := Snapshot(0, 5, [], true, None, false, false, None, Notice(false, "", Success), None)

  class CampaignHistory {
    var page: nat
    var rowsPerPage: nat
    var campaigns: seq<Campaign>
    var loading: bool
    var error: Option<string>
    var editDialogOpen: bool
    var deleteDialogOpen: bool
    var selectedCampaign: Option<Campaign>
    var snackbar: Notice
    var editedCampaign: Option<Campaign>

    function State(): Snapshot
      reads this
    {
      Snapshot(page, rowsPerPage, campaigns, loading, error, editDialogOpen, deleteDialogOpen,
        selectedCampaign, snackbar, editedCampaign)
    }

    /** The edit dialog is open exactly when there is an edited copy to show in it. */
    predicate Valid()
      reads this
    {
      editDialogOpen == editedCampaign.Some?
    }

    /**
     * The record whose fields the edit dialog renders (`editedCampaign && …`).
     * Because every handler keeps `Valid()`, an open dialog always renders a
     * record and a closed one renders none.
     */
    function DialogRecord(): (r: Option<Campaign>)
      reads this
      requires Valid()
      ensures editDialogOpen <==> r.Some?
      ensures r.Some? ==> r == editedCampaign
    {
      editedCampaign
    }

    constructor ()
      ensures Valid() && State() == Initial
    {
      page, rowsPerPage, campaigns, loading, error := 0, 5, [], true, None;
      editDialogOpen, deleteDialogOpen, selectedCampaign := false, false, None;
      snackbar := Notice(false, "", Success);
      editedCampaign := None;
    }

    /**
     * The list load run on mount and whenever the incoming campaign info changes:
     * a fetched list replaces the local one; a failure sets the page error and
     * keeps whatever list there was. Neither clears an earlier error.
     */
    method FetchCampaigns(outcome: FetchOutcome)
      requires Valid()
      modifies this
      ensures Valid()
      ensures outcome.Fetched? ==> State() == old(State()).(campaigns := outcome.data, loading := false)
      ensures outcome.FetchFailed? ==> State() == old(State()).(error := Some(LoadFailed), loading := false)
    {
      loading := true;
      if outcome.Fetched? {
        campaigns := outcome.data;
      } else {
        error := Some(LoadFailed);
      }
      loading := false;
    }

    method ChangePage(newPage: nat)
      requires Valid()
      modifies this
      ensures Valid() && State() == old(State()).(page := newPage)
    {
      page := newPage;
    }

    /** A new page size always sends the table back to its first page. */
    method ChangeRowsPerPage(newRowsPerPage: nat)
      requires Valid()
      modifies this
      ensures Valid() && State() == old(State()).(rowsPerPage := newRowsPerPage, page := 0)
    {
      rowsPerPage := newRowsPerPage;
      page := 0;
    }

    /** Opens the edit dialog on a copy of the record. */
    method EditClick(c: Campaign)
      requires Valid()
      modifies this
      ensures Valid()
      ensures State() == old(State()).(selectedCampaign := Some(c), editedCampaign := Some(c), editDialogOpen := true)
    {
      selectedCampaign := Some(c);
      editedCampaign := Some(c);
      editDialogOpen := true;
    }

    /** Opens the delete confirmation for the record; the edited copy is left as it is. */
    method DeleteClick(c: Campaign)
      requires Valid()
      modifies this
      ensures Valid()
      ensures State() == old(State()).(selectedCampaign := Some(c), deleteDialogOpen := true)
    {
      selectedCampaign := Some(c);
      deleteDialogOpen := true;
    }

    method EditDialogClose()
      requires Valid()
      modifies this
      ensures Valid()
      ensures State() == old(State()).(editDialogOpen := false, selectedCampaign := None, editedCampaign := None)
    {
      editDialogOpen := false;
      selectedCampaign := None;
      editedCampaign := None;
    }

    /** Closes the delete confirmation and forgets the selection, also the edit dialog's. */
    method DeleteDialogClose()
      requires Valid()
      modifies this
      ensures Valid()
      ensures State() == old(State()).(deleteDialogOpen := false, selectedCampaign := None)
    {
      deleteDialogOpen := false;
      selectedCampaign := None;
    }

    /** Typing `text` into the edit dialog's field for `key`; without an edited copy nothing happens. */
    method EditChange(key: Field, text: string)
      requires Valid()
      modifies this
      ensures Valid()
      ensures old(editedCampaign).None? ==> State() == old(State())
      ensures old(editedCampaign).Some? ==>
        State() == old(State()).(editedCampaign := Some(WithTyped(old(editedCampaign).value, key, text)))
    {
      if editedCampaign.Some? {
        editedCampaign := Some(WithTyped(editedCampaign.value, key, text));
      }
    }

    /**
     * Save in the edit dialog. Without a selection and an edited copy it only
     * reports that. Otherwise it normalises the attachments of the edited copy
     * and checks the required fields; a missing field is reported and no request
     * is made, so `outcome` plays no part. After an accepted PATCH every record
     * with the selected id becomes the normalised copy (not the server's reply)
     * and the dialog closes; after a failed one only the notice changes and the
     * dialog stays open with the edited copy as it was typed.
     */
    method EditSubmit(outcome: PatchOutcome)
      requires Valid()
      modifies this
      ensures Valid()
      ensures old(editedCampaign).None? || old(selectedCampaign).None? ==>
        State() == old(State()).(snackbar := Notice(true, NothingSelected, Error))
      ensures old(editedCampaign).Some? && old(selectedCampaign).Some? ==>
        var payload := Normalized(old(editedCampaign).value);
        var invalid := ValidationError(payload);
        if invalid.Some? then
          State() == old(State()).(snackbar := Notice(true, invalid.value, Error))
        else if !outcome.Patched? then
          State() == old(State()).(snackbar := Notice(true, PatchFailureMessage(outcome), Error))
        else
          State() == old(State()).(
            campaigns := ReplaceById(old(campaigns), old(selectedCampaign).value.id, payload),
            snackbar := Notice(true, UpdatedMessage, Success),
            editDialogOpen := false, selectedCampaign := None, editedCampaign := None)
    {
      if editedCampaign.None? || selectedCampaign.None? {
        snackbar := Notice(true, NothingSelected, Error);
        return;
      }
      var payload := Normalized(editedCampaign.value);
      var invalid := CheckRequired(payload);
      if invalid.Some? {
        snackbar := Notice(true, invalid.value, Error);
        return;
      }
      if !outcome.Patched? {
        snackbar := Notice(true, PatchFailureMessage(outcome), Error);
        return;
      }
      campaigns := ReplaceById(campaigns, selectedCampaign.value.id, payload);
      snackbar := Notice(true, UpdatedMessage, Success);
      EditDialogClose();
    }

    /**
     * Delete in the confirmation dialog. Without a selection nothing happens.
     * After an accepted DELETE every record with the selected id is dropped and
     * the dialog closes; a failure sets the page error and changes nothing else.
     */
    method DeleteConfirm(outcome: DeleteOutcome)
      requires Valid()
      modifies this
      ensures Valid()
      ensures old(selectedCampaign).None? ==> State() == old(State())
      ensures old(selectedCampaign).Some? && outcome.Deleted? ==>
        State() == old(State()).(
          campaigns := RemoveById(old(campaigns), old(selectedCampaign).value.id),
          deleteDialogOpen := false, selectedCampaign := None)
      ensures old(selectedCampaign).Some? && outcome.DeleteFailed? ==>
        State() == old(State()).(error := Some(DeleteFailedMessage))
    {
      if selectedCampaign.Some? {
        if outcome.Deleted? {
          campaigns := RemoveById(campaigns, selectedCampaign.value.id);
          DeleteDialogClose();
        } else {
          error := Some(DeleteFailedMessage);
        }
      }
    }

    /**
     * Launch of a record from its table row. Only its id goes into the request,
     * which `outcome` stands for; whatever happens, only the notice changes.
     */
    method SendEmail(c: Campaign, outcome: LaunchOutcome)
      requires Valid()
      modifies this
      ensures Valid()
      ensures State() == old(State()).(snackbar :=
        Notice(true, LaunchMessage(outcome), if outcome.Launched? then Success else Error))
    {
      if outcome.Launched? {
        snackbar := Notice(true, LaunchMessage(outcome), Success);
      } else {
        snackbar := Notice(true, LaunchMessage(outcome), Error);
      }
    }

    /** Closing the notice hides it and keeps its text and severity; a click-away is ignored. */
    method CloseSnackbar(reason: Option<string>)
      requires Valid()
      modifies this
      ensures Valid()
      ensures reason == Some("clickaway") ==> State() == old(State())
      ensures reason != Some("clickaway") ==> State() == old(State()).(snackbar := old(snackbar).(open := false))
    {
      if reason == Some("clickaway") {
        return;
      }
      snackbar := snackbar.(open := false);
    }
  }
}
