/** The values the listing components exchange with the remote property store
    and with the user: property records, the outcome of one read of the
    collection, and the transient notifications (toasts) they raise. */
module Records {

  datatype Option<T> = None | Some(value: T)

  /** A record's `userId` member as the decoded JSON carries it: no such
      member, `null`, or a string. The owner filter tells all three apart. */
  datatype OwnerField = Missing | Null | Owner(uid: string)

  /** One property record as the components read it. */
  datatype Property = Property(
    id: string,
    userId: OwnerField,
    name: string,
    location: string,
    price: real,
    image: string)

  /** What one `GET /properties` yields: the decoded array, a response whose
      status is not OK, or an exception (network failure, bad JSON). */
  datatype FetchOutcome = Fetched(records: seq<Property>) | NotOk | Threw

  /** A transient notification shown to the user, with its text. */
  datatype Toast = NoToast | Success(message: string) | Info(message: string) | Error(message: string)
}
