/**
 * The dialog that lets an admin mark a user's email or phone as confirmed: which
 * of its four faces it shows, and when it calls back after the server action.
 */
module ConfirmationDialog {
  import opened Wrappers
  import opened Text
  import opened Records

  /** The `type` prop: "email" or "phone". */
  datatype ConfirmKind = EmailKind | PhoneKind

  /** The four things the dialog can render. */
  datatype DialogView =
    | CannotConfirm(kind: ConfirmKind)
    | AlreadyConfirmed(kind: ConfirmKind, confirmedAt: string)
    | NoPhone
    | ConfirmForm(id: string, userId: string, kind: ConfirmKind, shown: Option<string>)

  /** The confirmation timestamp of the chosen kind. */
  function ConfirmedAt(u: UserRow, kind: ConfirmKind): Option<string> {
    match kind
    case EmailKind => u.emailConfirmedAt
    case PhoneKind => u.phoneConfirmedAt
  }

  /** The value the form displays: the email for "email", the phone for "phone". */
  function DisplayedValue(u: UserRow, kind: ConfirmKind): Option<string> {
    match kind
    case EmailKind => Some(u.email)
    case PhoneKind => u.phone
  }

  /**
   * The branches in order: no auth link, already confirmed, phone kind without a
   * phone, and otherwise the form with the row id and the auth id as hidden fields.
   */
  function View(u: UserRow, kind: ConfirmKind): (v: DialogView)
    ensures v.CannotConfirm? <==> !Truthy(u.userId)
    ensures v.AlreadyConfirmed? <==> Truthy(u.userId) && Truthy(ConfirmedAt(u, kind))
    ensures v.NoPhone? <==>
      Truthy(u.userId) && !Truthy(ConfirmedAt(u, kind)) && kind == PhoneKind && !Truthy(u.phone)
    ensures v.ConfirmForm? <==>
      Truthy(u.userId) && !Truthy(ConfirmedAt(u, kind)) && (kind == PhoneKind ==> Truthy(u.phone))
    ensures v.ConfirmForm? ==>
      v.id == u.id && v.userId == u.userId.value && v.kind == kind && v.shown == DisplayedValue(u, kind)
    ensures v.AlreadyConfirmed? ==> Some(v.confirmedAt) == ConfirmedAt(u, kind)
  {
    if !Truthy(u.userId) then CannotConfirm(kind)
    else if Truthy(ConfirmedAt(u, kind)) then AlreadyConfirmed(kind, ConfirmedAt(u, kind).value)
    else if kind == PhoneKind && !Truthy(u.phone) then NoPhone
    else ConfirmForm(u.id, u.userId.value, kind, DisplayedValue(u, kind))
  }

  /** The missing auth link is tested first: the timestamps and the phone do not matter then. */
  lemma UnlinkedUserCannotConfirm(u: UserRow, kind: ConfirmKind, emailAt: Option<string>, phoneAt: Option<string>, phone: Option<string>)
    requires !Truthy(u.userId)
    ensures View(u.(emailConfirmedAt := emailAt, phoneConfirmedAt := phoneAt, phone := phone), kind) == CannotConfirm(kind)
  {
  }

  /** A confirmed phone is reported as such even when the phone number itself is missing. */
  lemma AlreadyConfirmedBeforeNoPhone(u: UserRow)
    requires Truthy(u.userId) && Truthy(u.phoneConfirmedAt) && !Truthy(u.phone)
    ensures View(u, PhoneKind).AlreadyConfirmed?
  {
  }

  /** A phone form always shows a phone. */
  lemma PhoneFormShowsPhone(u: UserRow)
    requires View(u, PhoneKind).ConfirmForm?
    ensures Truthy(View(u, PhoneKind).shown)
  {
  }

  /** `onSuccess` runs only for a non-empty message from a successful action, and only if given. */
  function FiresOnSuccess(state: ActionResult, hasCallback: bool): (fires: bool)
    ensures fires ==> state.success && hasCallback
    ensures !state.success || state.message == "" ==> !fires
  {
    state.message != "" && state.success && hasCallback
  }

  /** The state the dialog starts in, `{ success: false, message: "" }`, fires nothing. */
  lemma InitialStateFiresNothing(hasCallback: bool)
    ensures !FiresOnSuccess(ActionResult(false, ""), hasCallback)
  {
  }
}
