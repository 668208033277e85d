/**
 * The service-provider status picker: the Arabic label and the colour of each
 * status, the value each select item carries, and the update rule that changes
 * the local status only when the server action reports success.
 */
module StatusDropdown {
  import opened Wrappers
  import opened Records
  import opened CrudTable

  const PendingLabel: string := "قيد المراجعة"
  const ApprovedLabel: string := "مقبول"
  const RejectedLabel: string := "مرفوض"
  const UpdatingLabel: string := "جاري التحديث..."

  /** `statusTranslations` */
  function StatusLabel(s: ProviderStatus): (shown: string)
    ensures shown in {PendingLabel, ApprovedLabel, RejectedLabel}
    ensures shown != UpdatingLabel
  {
    match s
    case Pending => PendingLabel
    case Approved => ApprovedLabel
    case Rejected => RejectedLabel
  }

  /** `statusColors` */
  function StatusColor(s: ProviderStatus): (colour: string)
    ensures colour in {"bg-yellow-500", "bg-green-500", "bg-red-500"}
  {
    match s
    case Pending => "bg-yellow-500"
    case Approved => "bg-green-500"
    case Rejected => "bg-red-500"
  }

  /** No two statuses share a label or a colour, so either one identifies the status. */
  lemma LabelsAndColoursDistinguish(a: ProviderStatus, b: ProviderStatus)
    ensures StatusLabel(a) == StatusLabel(b) ==> a == b
    ensures StatusColor(a) == StatusColor(b) ==> a == b
  {
  }

  /** The value a select item carries: the database spelling of the status. */
  function StatusValue(s: ProviderStatus): string {
    match s
    case Pending => "pending"
    case Approved => "approved"
    case Rejected => "rejected"
  }

  /** The status an item's value stands for. */
  function ParseStatus(v: string): (s: Option<ProviderStatus>)
    ensures s.Some? ==> StatusValue(s.value) == v
  {
    if v == "pending" then Some(Pending)
    else if v == "approved" then Some(Approved)
    else if v == "rejected" then Some(Rejected)
    else None
  }

  lemma ParseStatusValue(s: ProviderStatus)
    ensures ParseStatus(StatusValue(s)) == Some(s)
  {
  }

  /** One status picker: the status it shows and whether an update is in flight. */
  class StatusPicker {
    const providerId: string
    var status: ProviderStatus
    var isUpdating: bool

    constructor(providerId: string, currentStatus: ProviderStatus)
      ensures this.providerId == providerId && status == currentStatus && !isUpdating
    {
      this.providerId := providerId;
      status := currentStatus;
      isUpdating := false;
    }

    /** The trigger's text: the updating notice while a call is in flight, else the status label. */
    function DisplayedLabel(): (shown: string)
      reads this
      ensures shown == UpdatingLabel <==> isUpdating
      ensures !isUpdating ==> shown == StatusLabel(status)
    {
      if isUpdating then UpdatingLabel else StatusLabel(status)
    }

    /** The select takes no input while an update is in flight. */
    predicate SelectDisabled()
      reads this
    {
      isUpdating
    }

    /**
     * `handleStatusChange`. Choosing the shown status does nothing. Otherwise the
     * update is requested with `isUpdating` set (`busyDuringCall`); the status
     * becomes the new one only on a successful answer, and `isUpdating` is reset
     * whatever the outcome, an exception included.
     */
    method HandleStatusChange(newStatus: ProviderStatus, outcome: CallOutcome<ActionResult>)
      returns (requested: Option<(string, ProviderStatus)>, busyDuringCall: bool)
      modifies this
      ensures newStatus == old(status) ==>
        requested == None && !busyDuringCall && status == old(status) && isUpdating == old(isUpdating)
      ensures newStatus != old(status) ==>
        && requested == Some((providerId, newStatus))
        && busyDuringCall
        && !isUpdating
        && status == (if outcome.Returned? && outcome.value.success then newStatus else old(status))
    {
      if newStatus == status {
        return None, false;
      }
      isUpdating := true;
      requested := Some((providerId, newStatus));
      busyDuringCall := isUpdating;
      if outcome.Returned? && outcome.value.success {
        status := newStatus;
      }
      isUpdating := false;
    }
  }
}
