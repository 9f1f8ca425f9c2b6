/**
 * The component driven from a fresh mount through the edit, validation and
 * delete flows, stated as what the user observes, and what the two text
 * editors make of concrete input.
 */
module Scenarios {
  import opened Wrappers
  import opened JsStrings
  import opened Campaigns
  import opened Seqs
  import opened ListStore
  import opened EditSubmit
  import opened Remote
  import opened CampaignHistoryState

  /**
   * Loading a list with unique ids, renaming record `j` in the edit dialog and
   * saving with an accepted PATCH changes exactly that record, and reports success.
   */
  method RenameAndSave(cs: seq<Campaign>, j: nat, name: string) returns (after: seq<Campaign>, notice: Notice, dialogOpen: bool)
    requires UniqueIds(cs) && j < |cs|
    requires name != "" && cs[j].date != "" && cs[j].subject != "" && cs[j].body != ""
    requires cs[j].attachments.List?
    ensures after == cs[j := cs[j].(name := name)]
    ensures notice == Notice(true, UpdatedMessage, Success) && !dialogOpen
  {
    var h := new CampaignHistory();
    h.FetchCampaigns(Fetched(cs));
    h.EditClick(cs[j]);
    h.EditChange(Name, name);
    var payload := cs[j].(name := name);
    assert Normalized(payload) == payload;
    RecipientsNeverMissing(payload);
    h.EditSubmit(Patched);
    ReplaceOne(cs, cs[j].id, payload, j);
    after, notice, dialogOpen := h.campaigns, h.snackbar, h.editDialogOpen;
  }

  /**
   * Clearing the name and saving fails with "name is required." whatever the
   * server would have answered: the list is unchanged and the dialog stays open.
   */
  method EmptyNameRejected(cs: seq<Campaign>, c: Campaign, outcome: PatchOutcome)
    returns (after: seq<Campaign>, notice: Notice, dialogOpen: bool)
    ensures after == cs && notice == Notice(true, "name is required.", Error) && dialogOpen
  {
    var h := new CampaignHistory();
    h.FetchCampaigns(Fetched(cs));
    h.EditClick(c);
    h.EditChange(Name, "");
    NameMissing(c.(name := ""));
    h.EditSubmit(outcome);
    after, notice, dialogOpen := h.campaigns, h.snackbar, h.editDialogOpen;
  }

  /** A record with an empty name is stopped at the first check, before any other field. */
  lemma NameMissing(c: Campaign)
    requires c.name == ""
    ensures ValidationError(Normalized(c)) == Some(RequiredMessage(Name))
  {
    assert Lookup(Normalized(c), Name) == Str("");
  }

  /** Confirming the deletion of record `j` of a list with unique ids removes that record and no other. */
  method DeleteOne(cs: seq<Campaign>, j: nat) returns (after: seq<Campaign>, dialogOpen: bool)
    requires UniqueIds(cs) && j < |cs|
    ensures after == cs[..j] + cs[j + 1..] && !dialogOpen
  {
    var h := new CampaignHistory();
    h.FetchCampaigns(Fetched(cs));
    h.DeleteClick(cs[j]);
    h.DeleteConfirm(Deleted);
    RemoveOne(cs, cs[j].id, j);
    after, dialogOpen := h.campaigns, h.deleteDialogOpen;
  }

  /** Typing two addresses separated by a comma and a space gives two recipients. */
  lemma TwoRecipients()
    ensures ParseRecipients("a@x.com, b@x.com") == ["a@x.com", "b@x.com"]
  {
    var to := ["a@x.com", "b@x.com"];
    NoCommaIsFreeOfCommaSpace(to[0]);
    NoCommaIsFreeOfCommaSpace(to[1]);
    RecipientsRoundTrip(to);
    assert to[1..] == ["b@x.com"];
    assert RecipientsText(to) == to[0] + ", " + Join(["b@x.com"], ", ");
    assert RecipientsText(to) == "a@x.com, b@x.com";
  }

  /** Typing two file names separated by a comma and a space gives the two names, trimmed. */
  lemma TwoAttachments()
    ensures NormalizeAttachments(Str("f1.pdf, f2.pdf")) == List(["f1.pdf", "f2.pdf"])
  {
    var pieces := ["f1.pdf", " f2.pdf"];
    CharSeparatorEndsCleanly(pieces[0], ',');
    FreeOfChar(pieces[1], ',');
    SplitJoin(pieces, ",");
    assert Join(pieces, ",") == "f1.pdf, f2.pdf";
    TrimOfTrimmed(pieces[0]);
    TrimAfterSpace("f2.pdf");
    assert pieces[1] == [' '] + "f2.pdf";
    assert TrimEach(pieces) == ["f1.pdf", "f2.pdf"];
    FilterKeepsAll(["f1.pdf", "f2.pdf"], NonEmpty);
  }

  /** The space after a comma is trimmed away. */
  lemma TrimAfterSpace(s: string)
    requires Trimmed(s)
    ensures Trim([' '] + s) == s
  {
  }
}
