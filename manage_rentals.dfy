/** The owner's rental dashboard: one read of the whole property collection,
    kept down to the records owned by the signed-in user, a loading flag that
    is cleared however the read ends, and delete-by-id after a confirmation. */
module ManageRentals {
  import opened Records
  import opened Seqs

  const DeletedMessage := "Property deleted successfully!"
  const DeleteFailedMessage := "Failed to delete property."
  const DeleteErrorMessage := "An error occurred. Please try again."

  /** What one `DELETE /properties/{id}` yields: an OK response, a response
      whose status is not OK, or an exception. */
  datatype DeleteOutcome = DeleteOk | DeleteNotOk | DeleteThrew

  /** `property.userId === currentUserId`, where the signed-in user's id is a
      string or `undefined`: a missing member is strictly equal to `undefined`,
      `null` is strictly equal to neither, and two strings are strictly equal
      when they are the same string. */
  predicate StrictlyEqual(field: OwnerField, currentUserId: Option<string>): (b: bool)
    ensures field.Null? ==> !b
    ensures currentUserId.None? ==> (b <==> field.Missing?)
    ensures currentUserId.Some? ==> (b <==> field == Owner(currentUserId.value))
  {
    match field
    case Missing => currentUserId.None?
    case Null => false
    case Owner(uid) => currentUserId == Some(uid)
  }

  /** The owner filter's callback. */
  function OwnerIs(currentUserId: Option<string>): Property -> bool
  {
    (p: Property) => StrictlyEqual(p.userId, currentUserId)
  }

  /** The fetched records owned by the current user, each as often as
      fetched, in the order fetched. A record whose `userId` is `null` is
      never among them. */
  function OwnedBy(records: seq<Property>, currentUserId: Option<string>): (r: seq<Property>)
    ensures forall p :: p in r <==> p in records && StrictlyEqual(p.userId, currentUserId)
    ensures forall p :: multiset(r)[p] == if StrictlyEqual(p.userId, currentUserId) then multiset(records)[p] else 0
    ensures forall p :: p in r ==> !p.userId.Null?
    ensures IsSubsequence(r, records) && |r| <= |records|
  {
    FilterComplete(OwnerIs(currentUserId), records);
    FilterIsSubsequence(OwnerIs(currentUserId), records);
    forall p ensures multiset(Filter(OwnerIs(currentUserId), records))[p]
                     == if StrictlyEqual(p.userId, currentUserId) then multiset(records)[p] else 0 {
      FilterCount(OwnerIs(currentUserId), records, p);
    }
    Filter(OwnerIs(currentUserId), records)
  }

  /** With nobody signed in, only records without a `userId` member are kept;
      if every record carries a `userId`, nothing is shown. */
  lemma OwnedByAbsentUser(records: seq<Property>)
    ensures forall p :: p in OwnedBy(records, None) ==> p.userId.Missing?
    ensures (forall p :: p in records ==> !p.userId.Missing?) ==> OwnedBy(records, None) == []
  {
    FilterEmptyIff(OwnerIs(None), records);
  }

  /** The removal callback: `property._id !== id`. */
  function OtherThan(id: string): Property -> bool
  {
    (p: Property) => p.id != id
  }

  /** `prev.filter(property => property._id !== id)`: every record with the
      given id is dropped, every other record is kept as often as it was, and
      the order is kept. */
  function RemoveById(properties: seq<Property>, id: string): (r: seq<Property>)
    ensures forall p :: p in r <==> p in properties && p.id != id
    ensures forall p :: multiset(r)[p] == if p.id == id then 0 else multiset(properties)[p]
    ensures IsSubsequence(r, properties) && |r| <= |properties|
  {
    FilterComplete(OtherThan(id), properties);
    FilterIsSubsequence(OtherThan(id), properties);
    forall p ensures multiset(Filter(OtherThan(id), properties))[p]
                     == if p.id == id then 0 else multiset(properties)[p] {
      FilterCount(OtherThan(id), properties, p);
    }
    Filter(OtherThan(id), properties)
  }

  /** Removing an id no record carries changes nothing. */
  lemma RemoveAbsentId(properties: seq<Property>, id: string)
    requires forall p :: p in properties ==> p.id != id
    ensures RemoveById(properties, id) == properties
  {
    FilterKeepsAll(OtherThan(id), properties);
  }

  /** Removing the same id twice leaves what removing it once left. */
  lemma RemoveTwice(properties: seq<Property>, id: string)
    ensures RemoveById(RemoveById(properties, id), id) == RemoveById(properties, id)
  {
    FilterIdempotent(OtherThan(id), properties);
  }

  /** Record identifiers are unique within one list. */
  predicate UniqueIds(properties: seq<Property>)
  {
    forall i, j :: 0 <= i < j < |properties| ==> properties[i].id != properties[j].id
  }

  /** With unique identifiers, removing the id of the record at index `k`
      removes exactly that record and leaves the others in order. */
  lemma RemoveExactlyOne(properties: seq<Property>, k: nat)
    requires UniqueIds(properties)
    requires k < |properties|
    ensures RemoveById(properties, properties[k].id) == properties[..k] + properties[k + 1..]
    ensures |RemoveById(properties, properties[k].id)| == |properties| - 1
  {
    var keep := OtherThan(properties[k].id);
    forall i | 0 <= i < |properties| && i != k ensures keep(properties[i]) {
      if i < k {
        assert properties[i].id != properties[k].id;
      } else {
        assert properties[k].id != properties[i].id;
      }
    }
    FilterDropsOne(keep, properties, k);
  }

  /** The dashboard's view state. */
  class PropertyWin {
    var properties: seq<Property>
    var loading: bool

    /** Mounting: no properties yet, and loading. */
    constructor ()
      ensures properties == [] && loading
    {
      properties := [];
      loading := true;
    }

    /** `fetchData`, run for the user id current when the effect runs.
        `response` is what the read of the collection yields. */
    method FetchData(currentUserId: Option<string>, response: FetchOutcome)
      modifies this
      ensures !loading
      ensures response.Fetched? ==> properties == OwnedBy(response.records, currentUserId)
      ensures !response.Fetched? ==> properties == old(properties)
    {
      if response.Fetched? {
        var filtered := OwnedBy(response.records, currentUserId);
        properties := filtered;
      }
      // the `finally` clause runs on both paths
      loading := false;
    }

    /** `handleDelete`. `confirmed` is the user's answer to the confirmation
        prompt, and `response` what the delete request yields; it is consulted
        only when a request is made. `requested` tells whether the request was
        issued; `toast` is the notification shown. */
    method HandleDelete(id: string, confirmed: bool, response: DeleteOutcome)
      returns (requested: bool, toast: Toast)
      modifies this`properties
      ensures requested == confirmed
      ensures !confirmed ==> properties == old(properties) && toast == NoToast
      ensures confirmed && response == DeleteOk ==>
                properties == RemoveById(old(properties), id) && toast == Success(DeletedMessage)
      ensures confirmed && response == DeleteNotOk ==>
                properties == old(properties) && toast == Error(DeleteFailedMessage)
      ensures confirmed && response == DeleteThrew ==>
                properties == old(properties) && toast == Error(DeleteErrorMessage)
    {
      if !confirmed {
        return false, NoToast;
      }
      requested := true;
      match response
      case DeleteOk =>
        properties := RemoveById(properties, id);
        toast := Success(DeletedMessage);
      case DeleteNotOk =>
        toast := Error(DeleteFailedMessage);
      case DeleteThrew =>
        toast := Error(DeleteErrorMessage);
    }
  }

  /** Mounting the dashboard and running its first load: loading ends either
      way, and a failed read leaves the initial empty list. */
  method Mount(currentUserId: Option<string>, response: FetchOutcome) returns (view: PropertyWin)
    ensures fresh(view) && !view.loading
    ensures view.properties == if response.Fetched? then OwnedBy(response.records, currentUserId) else []
  {
    view := new PropertyWin();
    view.FetchData(currentUserId, response);
  }

  /** The worked example: with one record owned by "u1" and one by "u2", user
      "u1" sees exactly the first. */
  lemma OwnerExample(mine: Property, theirs: Property)
    requires mine.userId == Owner("u1") && theirs.userId == Owner("u2")
    ensures OwnedBy([mine, theirs], Some("u1")) == [mine]
  {
    var keep := OwnerIs(Some("u1"));
    assert keep(mine) && !keep(theirs);
    assert [mine, theirs][1..] == [theirs] && [theirs][1..] == [];
    assert Filter(keep, [theirs]) == [];
  }
}
