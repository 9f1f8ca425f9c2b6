/**
 * A campaign record as the component holds it, the field names it is keyed by,
 * JavaScript truthiness of a field value, the text editor for the recipient
 * list (`value.join(", ")` shown, `text.split(", ")` read back) and the effect
 * of typing into one field of the edit dialog.
 */
module Campaigns {
  import opened JsStrings

  /** A field value: a string, or an array of strings (`string | string[]`). */
  datatype Value = Str(text: string) | List(items: seq<string>)

  /**
   * One campaign. `to` is always an array; `attachments` arrives as an array
   * but becomes a string as soon as its text field is edited.
   */
  datatype Campaign = Campaign(
    id: string,
    name: string,
    date: string,
    subject: string,
    to: seq<string>,
    body: string,
    attachments: Value,
    status: string)

  datatype Field = Id | Name | Date | Subject | To | Body | Attachments | Status

  /** The property name of a field, as it appears in messages. */
  function Key(f: Field): string {
    match f
    case Id => "id"
    case Name => "name"
    case Date => "date"
    case Subject => "subject"
    case To => "to"
    case Body => "body"
    case Attachments => "attachments"
    case Status => "status"
  }

  /** `campaign[key]`. */
  function Lookup(c: Campaign, f: Field): Value {
    match f
    case Id => Str(c.id)
    case Name => Str(c.name)
    case Date => Str(c.date)
    case Subject => Str(c.subject)
    case To => List(c.to)
    case Body => Str(c.body)
    case Attachments => c.attachments
    case Status => Str(c.status)
  }

  /** JavaScript truthiness: a string is falsy only when empty, an array is never falsy. */
  predicate Truthy(v: Value)
    ensures v.List? ==> Truthy(v)
    ensures v.Str? ==> (Truthy(v) <==> v.text != "")
  {
    match v
    case Str(s) => s != ""
    case List(_) => true
  }

  /**
   * The text the recipient editor shows for a recipient list: an empty list
   * shows as an empty field, and a single recipient as itself.
   */
  function RecipientsText(to: seq<string>): (r: string)
    ensures to == [] ==> r == ""
    ensures |to| == 1 ==> r == to[0]
  {
    Join(to, ", ")
  }

  /**
   * The recipient list the recipient editor reads back from its text. It is
   * never empty: an emptied field reads back as one empty recipient.
   */
  function ParseRecipients(text: string): (r: seq<string>)
    ensures |r| >= 1
    ensures text == "" ==> r == [""]
  {
    Split(text, ", ")
  }

  /**
   * A non-empty recipient list none of whose addresses contains `", "`
   * survives being shown in the editor and read back.
   */
  lemma RecipientsRoundTrip(to: seq<string>)
    requires to != []
    requires forall k :: 0 <= k < |to| ==> Free(to[k], ", ")
    ensures ParseRecipients(RecipientsText(to)) == to
  {
    forall k | 0 <= k < |to| - 1 ensures EndsCleanly(to[k], ", ") {
      CommaSpaceEndsCleanly(to[k]);
    }
    SplitJoin(to, ", ");
  }

  /** Whatever is typed, the editor shows exactly that text again after reading it back. */
  lemma RecipientsTextStable(text: string)
    ensures RecipientsText(ParseRecipients(text)) == text
  {
    JoinSplit(text, ", ");
  }

  /**
   * Text without `", "` is one recipient: `"a,b"` (a bare comma) and `"a ,b"` are
   * not split, and the empty text gives the single empty recipient `[""]`.
   */
  lemma OneRecipientWithoutCommaSpace(text: string)
    requires Free(text, ", ")
    ensures ParseRecipients(text) == [text]
  {
    SplitOfFree(text, ", ");
  }

  /**
   * The effect of typing `text` into the edit dialog's field for `key`: the
   * recipient field stores the parsed list, every other field the text itself
   * (`attachments` thereby becomes a string); no other field changes.
   */
  function WithTyped(c: Campaign, key: Field, text: string): (r: Campaign)
    ensures Lookup(r, key) == if key == To then List(ParseRecipients(text)) else Str(text)
    ensures forall f :: f != key ==> Lookup(r, f) == Lookup(c, f)
  {
    match key
    case Id => c.(id := text)
    case Name => c.(name := text)
    case Date => c.(date := text)
    case Subject => c.(subject := text)
    case To => c.(to := ParseRecipients(text))
    case Body => c.(body := text)
    case Attachments => c.(attachments := Str(text))
    case Status => c.(status := text)
  }
}
