/** The lead record the CRM stores, as the `Lead` interface declares it. */
module LeadTypes {

  datatype Option<T> = None | Some(value: T)

  /** The coarse lifecycle stage of a lead. */
  datatype Status = New | Contacted | Qualified | Converted

  /** The outreach sub-state of a lead. */
  datatype CallStatus = Pending | NoAnswer | AppointmentScheduled | Agreed | NotInterested

  /** A lead as fetched from the record store. `id`, `createdAt` and
      `updatedAt` are assigned by the store and opaque here. */
  datatype Lead = Lead(
    id: string,
    name: string,
    phone: Option<string>,
    email: Option<string>,
    category: Option<string>,
    location: Option<string>,
    ownerEmail: Option<string>,
    status: Status,
    callStatus: Option<CallStatus>,
    contactPerson: Option<string>,
    notes: Option<string>,
    createdAt: string,
    updatedAt: string)
}
