/** Nearest-store selection: the store rows are scanned in query order and the first one at
    the least distance from the customer is returned, with that distance added under
    `distance_m`. The distance itself (a haversine formula over floats) is a parameter. */
module Stores {
  import opened Wrappers
  import opened Records

  /** The customer's `latitude` and `longitude` columns; None is SQL NULL. */
  datatype Location = Location(latitude: Option<real>, longitude: Option<real>)

  /** `not x` for a coordinate: NULL and 0.0 are both false. */
  predicate Falsy(c: Option<real>)
  {
    c.None? || c.value == 0.0
  }

  /** The fallback branch applies: no customer row, or a falsy coordinate. */
  predicate Unlocated(customer: Option<Location>)
  {
    customer.None? || Falsy(customer.value.latitude) || Falsy(customer.value.longitude)
  }

  /** The distance the fallback and the demo report. */
  const DefaultDistance := Int(50)

  /** `dict(store)` with `distance_m` set. */
  function WithDistance(store: Record, d: Value): (r: Record)
    ensures FieldOf(r, "distance_m") == Some(d)
    ensures forall k :: k != "distance_m" ==> FieldOf(r, k) == FieldOf(store, k)
  {
    SetField(store, "distance_m", d)
  }

  /** The index of the first store at the least distance; the scan's strict `<` keeps an
      earlier store on a tie. */
  function FirstNearest(stores: seq<Record>, dist: Record -> real): (i: nat)
    requires stores != []
    ensures i < |stores|
    ensures forall j :: 0 <= j < |stores| ==> dist(stores[i]) <= dist(stores[j])
    ensures forall j :: 0 <= j < i ==> dist(stores[i]) < dist(stores[j])
  {
    if |stores| == 1 then 0
    else
      var k := FirstNearest(stores[..|stores| - 1], dist);
      var last := |stores| - 1;
      if dist(stores[last]) < dist(stores[k]) then last else k
  }

  /** `get_nearest_store_for_customer`. `customer` is the customer's row, `stores` the rows of
      `SELECT * FROM stores`, and `dist(s)` the
      distance from the customer to store `s`. */
  method NearestStoreForCustomer(customer: Option<Location>, stores: seq<Record>,
                                 dist: Record -> real)
    returns (r: Record)
    ensures stores == [] ==> r == []
    ensures stores != [] && Unlocated(customer) ==> r == WithDistance(stores[0], DefaultDistance)
    ensures stores != [] && !Unlocated(customer) ==>
              var i := FirstNearest(stores, dist);
              r == WithDistance(stores[i], Float(dist(stores[i])))
  {
    if Unlocated(customer) {
      if stores == [] {
        return [];
      }
      return WithDistance(stores[0], DefaultDistance);
    }
    if stores == [] {
      return [];
    }
    var nearest: Option<nat> := None;
    var minDistance: real := 0.0;
    for n := 0 to |stores|
      invariant n == 0 <==> nearest.None?
      invariant n > 0 ==> nearest == Some(FirstNearest(stores[..n], dist))
      invariant n > 0 ==> minDistance == dist(stores[nearest.value])
    {
      var distance := dist(stores[n]);
      assert stores[..n + 1][..n] == stores[..n];
      if nearest.None? || distance < minDistance {
        minDistance := distance;
        nearest := Some(n);
      }
    }
    assert stores[..|stores|] == stores;
    r := WithDistance(stores[nearest.value], Float(minDistance));
  }

  /** `get_nearest_store_for_demo`: the first store at the default distance, or `{}`. */
  function NearestStoreForDemo(stores: seq<Record>): (r: Record)
    ensures stores == [] <==> r == []
    ensures stores != [] ==> FieldOf(r, "distance_m") == Some(DefaultDistance)
    ensures stores != [] ==> forall k :: k != "distance_m" ==> FieldOf(r, k) == FieldOf(stores[0], k)
  {
    if stores == [] then [] else WithDistance(stores[0], DefaultDistance)
  }
}
