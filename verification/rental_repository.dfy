/** The rental table, as a sequence, and the queries the services run on it. */
module RentalRepository {
  import opened Core
  import opened Dates
  import opened Collections
  import opened RentalEntity

  /** `GetByIdAsync`: the rental with that primary key, or null. */
  function GetById(rs: seq<Rental>, id: Guid): (r: Option<Rental>)
    ensures r.Some? ==> r.value in rs && r.value.id == id
    ensures r.None? <==> forall x :: x in rs ==> x.id != id
  {
    FirstWhere(rs, (x: Rental) => x.id == id)
  }

  /** `AddAsync`. */
  function Add(rs: seq<Rental>, r: Rental): (rs': seq<Rental>)
    ensures rs' == rs + [r]
  {
    rs + [r]
  }

  /** `UpdateAsync`: the stored row with the entity's key takes its values. */
  function Update(rs: seq<Rental>, r: Rental): (rs': seq<Rental>)
    ensures |rs'| == |rs|
    ensures forall i :: 0 <= i < |rs| ==> rs'[i] == (if rs[i].id == r.id then r else rs[i])
  {
    ReplaceWhere(rs, (x: Rental) => x.id == r.id, r)
  }

  /** `DeleteAsync`: the row with the entity's key is removed. */
  function Delete(rs: seq<Rental>, r: Rental): (rs': seq<Rental>)
    ensures forall x :: x in rs' <==> x in rs && x.id != r.id
  {
    Filter(rs, (x: Rental) => x.id != r.id)
  }

  /** `GetByMotorcycleIdAsync`: exactly the rentals of that vehicle. */
  function GetByMotorcycleId(rs: seq<Rental>, motorcycleId: Guid): (result: seq<Rental>)
    ensures forall x :: x in result <==> x in rs && x.motorcycleId == motorcycleId
  {
    Filter(rs, (x: Rental) => x.motorcycleId == motorcycleId)
  }

  /** `GetByDeliveryPersonIdAsync`: exactly the rentals of that driver. */
  function GetByDeliveryPersonId(rs: seq<Rental>, deliveryPersonId: Guid): (result: seq<Rental>)
    ensures forall x :: x in result <==> x in rs && x.deliveryPersonId == deliveryPersonId
  {
    Filter(rs, (x: Rental) => x.deliveryPersonId == deliveryPersonId)
  }

  /** A rental of that driver that has not been returned. */
  predicate IsActiveFor(r: Rental, deliveryPersonId: Guid) {
    r.deliveryPersonId == deliveryPersonId && r.returnDate.None?
  }

  /** `OrderByDescending(CreatedAt).FirstOrDefault()`: a most recently
      created rental (the first of them, as a stable sort keeps it), or null. */
  function Latest(rs: seq<Rental>): (r: Option<Rental>)
    ensures r.None? <==> |rs| == 0
    ensures r.Some? ==> r.value in rs
    ensures r.Some? ==> forall x :: x in rs ==> Ticks(x.createdAt) <= Ticks(r.value.createdAt)
    decreases |rs|
  {
    if |rs| == 0 then None
    else
      var rest := Latest(rs[1..]);
      assert forall x :: x in rs ==> x == rs[0] || x in rs[1..];
      if rest.None? || Ticks(rest.value.createdAt) <= Ticks(rs[0].createdAt) then Some(rs[0])
      else rest
  }

  /** `GetActiveByDeliveryPersonIdAsync`: the driver's unreturned rental with
      the latest creation time, or null exactly when the driver has none. */
  function GetActiveByDeliveryPersonId(rs: seq<Rental>, deliveryPersonId: Guid): (r: Option<Rental>)
    ensures r.None? <==> forall x :: x in rs ==> !IsActiveFor(x, deliveryPersonId)
    ensures r.Some? ==> r.value in rs && IsActiveFor(r.value, deliveryPersonId)
    ensures r.Some? ==> forall x :: x in rs && IsActiveFor(x, deliveryPersonId) ==>
                                     Ticks(x.createdAt) <= Ticks(r.value.createdAt)
  {
    var active := Filter(rs, (x: Rental) => IsActiveFor(x, deliveryPersonId));
    Latest(active)
  }

  /** `HasRentalsByMotorcycleIdAsync`: some rental, returned or not, names
      the vehicle. */
  function HasRentalsByMotorcycleId(rs: seq<Rental>, motorcycleId: Guid): (b: bool)
    ensures b <==> exists x :: x in rs && x.motorcycleId == motorcycleId
  {
    Any(rs, (x: Rental) => x.motorcycleId == motorcycleId)
  }

  /** After a delete, looking the rental up by its id finds nothing. */
  lemma DeletedNotFound(rs: seq<Rental>, r: Rental)
    ensures GetById(Delete(rs, r), r.id).None?
  {
  }

  /** After an update of a stored rental, looking it up finds the new values. */
  lemma UpdatedFound(rs: seq<Rental>, r: Rental)
    requires exists x :: x in rs && x.id == r.id
    ensures GetById(Update(rs, r), r.id) == Some(r)
  {
    var rs' := Update(rs, r);
    var x :| x in rs && x.id == r.id;
    var i :| 0 <= i < |rs| && rs[i] == x;
    assert rs'[i] == r;
  }

  /** An update leaves the lookups of every other id as they were. */
  lemma UpdateKeepsOthers(rs: seq<Rental>, r: Rental, id: Guid)
    requires id != r.id
    ensures GetById(Update(rs, r), id) == GetById(rs, id)
  {
    var rs' := Update(rs, r);
    var p := (x: Rental) => x.id == id;
    assert forall i :: 0 <= i < |rs| ==> (p(rs'[i]) <==> p(rs[i])) && (p(rs[i]) ==> rs'[i] == rs[i]);
    FirstWhereAgrees(rs, rs', p);
  }
}
