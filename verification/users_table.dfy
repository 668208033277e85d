/**
 * The users screen: the confirmation badge and the action buttons of each row,
 * the dialogs opened for a selected user, and the delete confirmation, which
 * leaves the list to the server's revalidation and never edits it locally.
 */
module UsersTable {
  import opened Wrappers
  import opened Text
  import opened Records
  import opened CrudTable
  import opened ConfirmationDialog

  /** The badges of `renderConfirmationStatus`. */
  datatype ConfirmationBadge = NotLinked | FullyConfirmed | EmailOnlyConfirmed | Unconfirmed

  /** A user without a phone number counts as phone-confirmed. */
  predicate PhoneCountsConfirmed(u: UserRow) {
    Truthy(u.phoneConfirmedAt) || !Truthy(u.phone)
  }

  function ConfirmationStatus(u: UserRow): (b: ConfirmationBadge)
    ensures b == NotLinked <==> !Truthy(u.userId)
    ensures b == FullyConfirmed <==> Truthy(u.userId) && Truthy(u.emailConfirmedAt) && PhoneCountsConfirmed(u)
    ensures b == EmailOnlyConfirmed <==> Truthy(u.userId) && Truthy(u.emailConfirmedAt) && !PhoneCountsConfirmed(u)
    ensures b == Unconfirmed <==> Truthy(u.userId) && !Truthy(u.emailConfirmedAt)
  {
    if !Truthy(u.userId) then NotLinked
    else if Truthy(u.emailConfirmedAt) && PhoneCountsConfirmed(u) then FullyConfirmed
    else if Truthy(u.emailConfirmedAt) then EmailOnlyConfirmed
    else Unconfirmed
  }

  /** An unlinked user is "not linked" whatever the timestamps say. */
  lemma UnlinkedIgnoresTimestamps(u: UserRow, emailAt: Option<string>, phoneAt: Option<string>)
    requires !Truthy(u.userId)
    ensures ConfirmationStatus(u.(emailConfirmedAt := emailAt, phoneConfirmedAt := phoneAt)) == NotLinked
  {
  }

  /** A confirmed phone without a confirmed email is still "unconfirmed". */
  lemma PhoneAloneIsUnconfirmed(u: UserRow)
    requires Truthy(u.userId) && Truthy(u.phoneConfirmedAt) && !Truthy(u.emailConfirmedAt)
    ensures ConfirmationStatus(u) == Unconfirmed
  {
  }

  /** The icon after an email or a phone number: a check mark, a cross, or nothing. */
  datatype FieldIcon = NoIcon | CheckMark | Cross

  /** The icon after the email: shown only for a user linked to an auth account. */
  function EmailIcon(u: UserRow): (icon: FieldIcon)
    ensures icon == NoIcon <==> !Truthy(u.userId)
    ensures icon == CheckMark <==> Truthy(u.userId) && Truthy(u.emailConfirmedAt)
  {
    if !Truthy(u.userId) then NoIcon
    else if Truthy(u.emailConfirmedAt) then CheckMark
    else Cross
  }

  /** The icon after the phone: shown only for a linked user who has a phone number. */
  function PhoneIcon(u: UserRow): (icon: FieldIcon)
    ensures icon == NoIcon <==> !Truthy(u.userId) || !Truthy(u.phone)
    ensures icon == CheckMark <==> Truthy(u.userId) && Truthy(u.phone) && Truthy(u.phoneConfirmedAt)
  {
    if !(Truthy(u.userId) && Truthy(u.phone)) then NoIcon
    else if Truthy(u.phoneConfirmedAt) then CheckMark
    else Cross
  }

  /** The status cell: the banned badge replaces the confirmation badge. */
  datatype StatusCell = BannedBadge | Confirmation(badge: ConfirmationBadge)

  function StatusCellOf(u: UserRow): (c: StatusCell)
    ensures c == BannedBadge <==> TruthyFlag(u.isBanned)
    ensures c.Confirmation? ==> c.badge == ConfirmationStatus(u)
  {
    if TruthyFlag(u.isBanned) then BannedBadge else Confirmation(ConfirmationStatus(u))
  }

  /** The buttons of a row. */
  datatype RowAction = EditAction | SetPasswordAction | SetRoleAction | ConfirmEmailAction | ConfirmPhoneAction | DeleteAction

  function RowActions(u: UserRow): (acts: set<RowAction>)
    ensures EditAction in acts && DeleteAction in acts
    ensures SetPasswordAction in acts <==> !Truthy(u.userId)
    ensures SetRoleAction in acts <==> Truthy(u.userId)
    ensures ConfirmEmailAction in acts <==> Truthy(u.userId) && !Truthy(u.emailConfirmedAt)
    ensures ConfirmPhoneAction in acts <==> Truthy(u.userId) && Truthy(u.phone) && !Truthy(u.phoneConfirmedAt)
  {
    {EditAction, DeleteAction}
    + (if !Truthy(u.userId) then {SetPasswordAction} else {SetRoleAction})
    + (if Truthy(u.userId) && !Truthy(u.emailConfirmedAt) then {ConfirmEmailAction} else {})
    + (if Truthy(u.userId) && Truthy(u.phone) && !Truthy(u.phoneConfirmedAt) then {ConfirmPhoneAction} else {})
  }

  /** Every row offers exactly one of "set password" and "set role". */
  lemma ExactlyOneAccountAction(u: UserRow)
    ensures (SetPasswordAction in RowActions(u)) != (SetRoleAction in RowActions(u))
  {
  }

  /** "Confirm email" is offered exactly on the rows whose badge is "unconfirmed" (unless banned). */
  lemma ConfirmEmailMatchesBadge(u: UserRow)
    ensures ConfirmEmailAction in RowActions(u) <==> ConfirmationStatus(u) == Unconfirmed
  {
  }

  /** A fully confirmed row offers neither confirmation. */
  lemma FullyConfirmedOffersNoConfirmation(u: UserRow)
    requires ConfirmationStatus(u) == FullyConfirmed
    ensures ConfirmEmailAction !in RowActions(u) && ConfirmPhoneAction !in RowActions(u)
  {
  }

  /** The crosses mark exactly the fields the row offers to confirm. */
  lemma CrossesMatchConfirmActions(u: UserRow)
    ensures EmailIcon(u) == Cross <==> ConfirmEmailAction in RowActions(u)
    ensures PhoneIcon(u) == Cross <==> ConfirmPhoneAction in RowActions(u)
  {
  }

  /** The icons agree with the badge: a "confirmed" badge never stands beside a cross. */
  lemma BadgeAgreesWithIcons(u: UserRow)
    ensures ConfirmationStatus(u) == FullyConfirmed <==>
      EmailIcon(u) == CheckMark && PhoneIcon(u) != Cross
    ensures ConfirmationStatus(u) == EmailOnlyConfirmed <==>
      EmailIcon(u) == CheckMark && PhoneIcon(u) == Cross
    ensures ConfirmationStatus(u) == Unconfirmed <==> EmailIcon(u) == Cross
  {
  }

  /** The dialogs of the users screen. */
  datatype UserDialog =
    | CreateUserDialog | EditUserDialog | DeleteUserDialog | SetPasswordDialog
    | SetRoleDialog | ConfirmEmailDialog | ConfirmPhoneDialog

  /** Whether an open dialog mounts its content for the current selection. */
  function MountsContent(dialog: UserDialog, selected: Option<UserRow>): (mounted: bool)
    ensures dialog == CreateUserDialog || dialog == DeleteUserDialog ==> mounted
    ensures dialog != CreateUserDialog && dialog != DeleteUserDialog && mounted ==> selected.Some?
    ensures (dialog == SetRoleDialog || dialog == ConfirmEmailDialog) && mounted ==> Truthy(selected.value.userId)
    ensures dialog == ConfirmPhoneDialog && mounted ==> Truthy(selected.value.userId) && Truthy(selected.value.phone)
  {
    match dialog
    case CreateUserDialog | DeleteUserDialog => true
    case EditUserDialog | SetPasswordDialog => selected.Some?
    case SetRoleDialog | ConfirmEmailDialog => selected.Some? && Truthy(selected.value.userId)
    case ConfirmPhoneDialog => selected.Some? && Truthy(selected.value.userId) && Truthy(selected.value.phone)
  }

  /**
   * The confirmation buttons and the dialogs agree: a row that offers a
   * confirmation gets a mounted dialog that shows the confirmation form.
   */
  lemma OfferedConfirmationShowsForm(u: UserRow)
    ensures ConfirmEmailAction in RowActions(u) ==>
      MountsContent(ConfirmEmailDialog, Some(u)) && View(u, EmailKind).ConfirmForm?
    ensures ConfirmPhoneAction in RowActions(u) ==>
      MountsContent(ConfirmPhoneDialog, Some(u)) && View(u, PhoneKind).ConfirmForm?
  {
  }

  /** The users screen's state. Its rows are the `initialUsers` prop, which it never changes. */
  class UsersScreen {
    const initialUsers: seq<UserRow>
    var open: set<UserDialog>
    var selected: Option<UserRow>

    constructor(initialUsers: seq<UserRow>)
      ensures this.initialUsers == initialUsers && open == {} && selected == None
    {
      this.initialUsers := initialUsers;
      open := {};
      selected := None;
    }

    /**
     * `handleEdit`, `handleDeletePrompt`, `handleSetPassword`, `handleSetRole`,
     * `handleConfirmEmail` and `handleConfirmPhone`: select the user and open the
     * matching dialog.
     */
    method OpenFor(u: UserRow, dialog: UserDialog)
      requires dialog != CreateUserDialog
      modifies this
      ensures selected == Some(u) && open == old(open) + {dialog}
    {
      selected := Some(u);
      open := open + {dialog};
    }

    /** A dialog's `onOpenChange`, its cancel button, or a form's `onSuccess` closing it. */
    method SetDialogOpen(dialog: UserDialog, isOpen: bool)
      modifies this
      ensures open == if isOpen then old(open) + {dialog} else old(open) - {dialog}
      ensures selected == old(selected)
    {
      if isOpen {
        open := open + {dialog};
      } else {
        open := open - {dialog};
      }
    }

    /**
     * `confirmDelete`: nothing happens without a selection or with an empty id;
     * otherwise the delete action is asked for that id and, once it answers,
     * the dialog closes and the selection is cleared whatever the answer.
     */
    method ConfirmDelete(outcome: CallOutcome<ActionResult>) returns (requested: Option<string>)
      modifies this
      ensures old(selected).None? || old(selected).value.id == "" ==>
        requested == None && open == old(open) && selected == old(selected)
      ensures old(selected).Some? && old(selected).value.id != "" ==> requested == Some(old(selected).value.id)
      ensures requested.Some? && outcome.Returned? ==> open == old(open) - {DeleteUserDialog} && selected == None
      ensures outcome.Threw? ==> open == old(open) && selected == old(selected)
    {
      if selected.None? || selected.value.id == "" {
        return None;
      }
      requested := Some(selected.value.id);
      if outcome.Threw? {
        return;
      }
      open := open - {DeleteUserDialog};
      selected := None;
    }
  }
}
