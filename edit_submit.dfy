/**
 * What the edit dialog's Save does to the edited record before any request:
 * a string `attachments` value becomes the list of its comma-separated,
 * trimmed, non-empty pieces, and then `name, date, subject, to, body` are
 * checked in that order, the first falsy one giving `"<field> is required."`.
 */
module EditSubmit {
  import opened Wrappers
  import opened JsStrings
  import opened Seqs
  import opened Campaigns

  /** `pieces.map((item) => item.trim())`: one trimmed piece per piece. */
  function TrimEach(pieces: seq<string>): (r: seq<string>)
    ensures |r| == |pieces|
  {
    seq(|pieces|, k requires 0 <= k < |pieces| => Trim(pieces[k]))
  }

  /** The filter `(item) => item !== ""`. */
  predicate NonEmpty(item: string) {
    item != ""
  }

  /**
   * The list a comma-separated attachments text stands for. Its items are
   * never empty, carry no leading or trailing whitespace and contain no comma.
   */
  function AttachmentList(text: string): (r: seq<string>)
    ensures forall k :: 0 <= k < |r| ==> r[k] != "" && Trimmed(r[k]) && ',' !in r[k]
  {
    var pieces := Split(text, ",");
    SplitOnCharPieces(text, ',');
    forall k | 0 <= k < |pieces| ensures ',' !in TrimEach(pieces)[k] {
      assert pieces[k] in pieces;
      TrimKeepsOut(pieces[k], ',');
    }
    var items := Filter(TrimEach(pieces), NonEmpty);
    FilterMembers(TrimEach(pieces), NonEmpty);
    forall k | 0 <= k < |items| ensures Trimmed(items[k]) && ',' !in items[k] {
      assert items[k] in TrimEach(pieces);
    }
    items
  }

  /**
   * Attachments as they are sent: a string is replaced by the list of its
   * pieces, and an array is left as it is. The pieces of a string are never
   * empty, carry no leading or trailing whitespace and contain no comma.
   */
  function NormalizeAttachments(v: Value): (r: Value)
    ensures r.List?
    ensures v.List? ==> r == v
    ensures v.Str? ==> forall k :: 0 <= k < |r.items| ==>
      r.items[k] != "" && Trimmed(r.items[k]) && ',' !in r.items[k]
  {
    match v
    case List(_) => v
    case Str(text) => List(AttachmentList(text))
  }

  /**
   * An item is among the normalised attachments exactly when it is the
   * non-empty trim of some comma-separated piece of the text.
   */
  lemma AttachmentMembers(text: string, item: string)
    ensures item in AttachmentList(text) <==>
      item != "" && exists p :: p in Split(text, ",") && Trim(p) == item
  {
    var pieces := Split(text, ",");
    var trimmed := TrimEach(pieces);
    FilterMembers(trimmed, NonEmpty);
    assert item in AttachmentList(text) <==> item != "" && item in trimmed;
    if item in trimmed {
      var k :| 0 <= k < |trimmed| && trimmed[k] == item;
      assert pieces[k] in pieces && Trim(pieces[k]) == item;
    } else {
      forall p | p in pieces ensures Trim(p) != item {
        var k :| 0 <= k < |pieces| && pieces[k] == p;
        assert trimmed[k] == Trim(p);
      }
    }
  }

  /**
   * Writing a list of clean attachment names as comma-separated text and
   * normalising it gives the list back; this includes the empty list, whose
   * text is empty.
   */
  lemma NormalizeJoined(items: seq<string>)
    requires forall k :: 0 <= k < |items| ==> items[k] != "" && Trimmed(items[k]) && ',' !in items[k]
    ensures NormalizeAttachments(Str(Join(items, ","))) == List(items)
  {
    var text := Join(items, ",");
    if items == [] {
      assert Split(text, ",") == [""];
      assert TrimEach([""]) == [""];
      assert Filter([""], NonEmpty) == [];
    } else {
      forall k | 0 <= k < |items| - 1 ensures EndsCleanly(items[k], ",") {
        CharSeparatorEndsCleanly(items[k], ',');
      }
      FreeOfChar(items[|items| - 1], ',');
      SplitJoin(items, ",");
      forall k | 0 <= k < |items| ensures Trim(items[k]) == items[k] {
        TrimOfTrimmed(items[k]);
      }
      assert TrimEach(items) == items;
      FilterKeepsAll(items, NonEmpty);
    }
  }

  /** The record as it is sent: the edited record with its attachments normalised. */
  function Normalized(c: Campaign): (r: Campaign)
    ensures r.attachments.List?
    ensures forall f :: f != Attachments ==> Lookup(r, f) == Lookup(c, f)
  {
    c.(attachments := NormalizeAttachments(c.attachments))
  }

  /** The fields Save requires, in the order it checks them. */
  const RequiredFields: seq<Field> := [Name, Date, Subject, To, Body]

  /** The message of the error thrown for a missing field. */
  function RequiredMessage(f: Field): string {
    Key(f) + " is required."
  }

  /**
   * The message for the first field of `fields` that is falsy in `c`, if any;
   * a message, when there is one, names a field of the list that is falsy.
   */
  function FirstMissingIn(c: Campaign, fields: seq<Field>): (r: Option<string>)
    ensures r.Some? ==>
      exists k :: 0 <= k < |fields| && !Truthy(Lookup(c, fields[k])) && r.value == RequiredMessage(fields[k])
  {
    if fields == [] then None
    else if !Truthy(Lookup(c, fields[0])) then Some(RequiredMessage(fields[0]))
    else FirstMissingIn(c, fields[1..])
  }

  /**
   * The message Save stops with, or None when every required field is present.
   * Only name, date, subject and body can be reported missing.
   */
  function ValidationError(c: Campaign): (r: Option<string>)
    ensures r.Some? ==> r.value in [RequiredMessage(Name), RequiredMessage(Date), RequiredMessage(Subject), RequiredMessage(Body)]
  {
    FirstMissingIn(c, RequiredFields)
  }

  /** Field `k` is falsy and every field before it is truthy. */
  predicate FirstFalsyAt(c: Campaign, fields: seq<Field>, k: nat) {
    && k < |fields|
    && !Truthy(Lookup(c, fields[k]))
    && forall j :: 0 <= j < k ==> Truthy(Lookup(c, fields[j]))
  }

  /**
   * Checking a field list passes exactly when every field is truthy, and
   * otherwise names the first falsy field.
   */
  lemma {:induction false} FirstMissingInIsFirstFalsy(c: Campaign, fields: seq<Field>)
    ensures FirstMissingIn(c, fields).None? <==>
      forall k :: 0 <= k < |fields| ==> Truthy(Lookup(c, fields[k]))
    ensures FirstMissingIn(c, fields).Some? ==>
      exists k: nat :: FirstFalsyAt(c, fields, k)
        && FirstMissingIn(c, fields).value == RequiredMessage(fields[k])
  {
    if fields != [] && Truthy(Lookup(c, fields[0])) {
      var tail := fields[1..];
      FirstMissingInIsFirstFalsy(c, tail);
      if FirstMissingIn(c, tail).Some? {
        var k: nat :| FirstFalsyAt(c, tail, k) && FirstMissingIn(c, tail).value == RequiredMessage(tail[k]);
        assert FirstFalsyAt(c, fields, k + 1);
      }
    } else if fields != [] {
      assert FirstFalsyAt(c, fields, 0);
    }
  }

  /**
   * Because an array is always truthy, the recipient check never fails: Save
   * passes validation exactly when name, date, subject and body are non-empty,
   * even with no recipients at all.
   */
  lemma RecipientsNeverMissing(c: Campaign)
    ensures ValidationError(c).None? <==> c.name != "" && c.date != "" && c.subject != "" && c.body != ""
    ensures ValidationError(c) != Some("to is required.")
  {
    FirstMissingInIsFirstFalsy(c, RequiredFields);
    var present := c.name != "" && c.date != "" && c.subject != "" && c.body != "";
    if present {
      forall k | 0 <= k < |RequiredFields| ensures Truthy(Lookup(c, RequiredFields[k])) {
        assert k == 0 || k == 1 || k == 2 || k == 3 || k == 4;
      }
    }
    if ValidationError(c).None? {
      assert Truthy(Lookup(c, RequiredFields[0])) && Truthy(Lookup(c, RequiredFields[1]));
      assert Truthy(Lookup(c, RequiredFields[2])) && Truthy(Lookup(c, RequiredFields[4]));
    } else {
      var k: nat :| FirstFalsyAt(c, RequiredFields, k) && ValidationError(c).value == RequiredMessage(RequiredFields[k]);
      assert RequiredFields[k] != To;
      assert |RequiredMessage(RequiredFields[k])| != |"to is required."|;
    }
  }

  /** Save's check of the required fields, one after the other, stopping at the first falsy one. */
  method CheckRequired(c: Campaign) returns (error: Option<string>)
    ensures error == ValidationError(c)
  {
    var i := 0;
    while i < |RequiredFields|
      invariant 0 <= i <= |RequiredFields|
      invariant ValidationError(c) == FirstMissingIn(c, RequiredFields[i..])
    {
      var field := RequiredFields[i];
      assert RequiredFields[i..][1..] == RequiredFields[i + 1..];
      if !Truthy(Lookup(c, field)) {
        return Some(RequiredMessage(field));
      }
      i := i + 1;
    }
    return None;
  }
}
