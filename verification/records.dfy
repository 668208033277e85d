/** The rows of the back-office tables that the modelled screens read (lib/supabase/types.ts). */
module Records {
  import opened Wrappers

  /** The `service_provider_status` enumeration. */
  datatype ProviderStatus = Pending | Approved | Rejected

  /** The `service_delivery_method` enumeration. */
  datatype DeliveryMethod = Online | Offline | Both

  /**
   * A `users` row, together with the two confirmation timestamps that the users
   * screen joins in from the identity provider.
   */
  datatype UserRow = UserRow(
    id: string,
    email: string,
    firstName: Option<string>,
    lastName: Option<string>,
    phone: Option<string>,
    isBanned: Option<bool>,
    userId: Option<string>,
    isAdmin: Option<bool>,
    emailConfirmedAt: Option<string>,
    phoneConfirmedAt: Option<string>)

  /** A `service_categories` row (the columns the screens use). */
  datatype Category = Category(id: string, name: string, icon: Option<string>, slug: Option<string>)

  /** A `governorates` row (the columns the screens use). */
  datatype Governorate = Governorate(id: string, name: string, governorateCode: Option<string>)

  /** A `service_providers` row: its status and the stored file names of its documents. */
  datatype ServiceProvider = ServiceProvider(
    id: string,
    userId: Option<string>,
    deliveryMethod: Option<DeliveryMethod>,
    status: ProviderStatus,
    logoImage: Option<string>,
    idCardFrontImage: Option<string>,
    idCardBackImage: Option<string>,
    certificatesImages: Option<string>,
    documentList: Option<string>)

  /** What a server action answers: `{ success, message }`. */
  datatype ActionResult = ActionResult(success: bool, message: string)
}
