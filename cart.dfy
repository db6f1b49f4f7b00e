/** What `put_cart` and `delete_cart` compute: the new cart list and the new
    `added_to_cart` flags of the search result. */
module Cart {
  import opened Common
  import opened Storage
  import opened Search

  /** A cart entry: the resource id it is keyed by and the rest of the posted
      object. */
  datatype CartItem = CartItem(id: Id, fields: map<string, Json>)

  /** The argument of `delete_cart`: the text 'all', or a resource id. */
  datatype CartTarget = Everything | Resource(id: Id)

  /** `[cart for cart in items if cart["id"] != id]`. */
  function WithoutId(items: seq<CartItem>, id: Id): (r: seq<CartItem>)
    ensures forall c :: c in r <==> c in items && c.id != id
    ensures |r| <= |items|
  {
    if items == [] then []
    else (if items[0].id != id then [items[0]] else []) + WithoutId(items[1..], id)
  }

  /** The flag loop of `put_cart`: the first entry with the id is marked as
      in the cart; nothing else changes. */
  function MarkAdded(data: seq<Entry>, id: Id): (r: seq<Entry>)
    ensures |r| == |data|
    ensures forall k :: 0 <= k < |data| && r[k] != data[k] ==>
              && r[k] == data[k].(addedToCart := true)
              && data[k].id == id
              && forall j :: 0 <= j < k ==> data[j].id != id
    ensures forall k :: 0 <= k < |data| && data[k].id == id && (forall j :: 0 <= j < k ==> data[j].id != id) ==>
              r[k].addedToCart
  {
    match FirstIndex(data, (e: Entry) => e.id == id)
    case None => data
    case Some(i) => data[i := data[i].(addedToCart := true)]
  }

  /** The entry is one `delete_cart` clears. No resource id equals 'all'. */
  predicate Hits(e: Entry, target: CartTarget)
  {
    target.Resource? && e.id == target.id
  }

  /** The flag loop of `delete_cart`: every entry with the id is marked as
      out of the cart. */
  function ClearAdded(data: seq<Entry>, target: CartTarget): (r: seq<Entry>)
    ensures |r| == |data|
    ensures forall k :: 0 <= k < |data| ==>
              r[k] == if Hits(data[k], target) then data[k].(addedToCart := false) else data[k]
  {
    if data == [] then []
    else [if Hits(data[0], target) then data[0].(addedToCart := false) else data[0]] + ClearAdded(data[1..], target)
  }

  /** The cart `delete_cart` writes. */
  function RemainingCart(items: seq<CartItem>, target: CartTarget): seq<CartItem>
  {
    match target
    case Everything => []
    case Resource(id) => WithoutId(items, id)
  }

  /** After `put_cart` the cart holds the new item exactly once, last, after
      every other item of the old cart in its old order. */
  lemma {:induction false} PutCartHoldsItemOnce(items: seq<CartItem>, item: CartItem)
    ensures var c := WithoutId(items, item.id) + [item];
      && c[|c| - 1] == item
      && (forall k :: 0 <= k < |c| - 1 ==> c[k].id != item.id)
      && (forall x :: x in items && x.id != item.id ==> x in c)
      && c[..|c| - 1] == WithoutId(items, item.id)
  {
    var w := WithoutId(items, item.id);
    var c := w + [item];
    forall k | 0 <= k < |c| - 1
      ensures c[k].id != item.id
    {
      assert c[k] == w[k] && w[k] in w;
    }
    assert c[..|c| - 1] == w;
  }

  lemma {:induction false} WithoutIdConcat(a: seq<CartItem>, b: seq<CartItem>, id: Id)
    ensures WithoutId(a + b, id) == WithoutId(a, id) + WithoutId(b, id)
  {
    if a == [] {
      assert a + b == b;
    } else {
      assert (a + b)[1..] == a[1..] + b;
      WithoutIdConcat(a[1..], b, id);
    }
  }

  lemma {:induction false} WithoutIdAbsent(items: seq<CartItem>, id: Id)
    requires forall c :: c in items ==> c.id != id
    ensures WithoutId(items, id) == items
  {
    if items != [] {
      assert items[0] in items;
      assert forall c :: c in items[1..] ==> c in items;
      WithoutIdAbsent(items[1..], id);
      assert items == [items[0]] + items[1..];
    }
  }

  /** Putting an item into a cart that does not hold its resource, then
      deleting that resource, gives the old cart back. */
  lemma CartRoundTrip(items: seq<CartItem>, item: CartItem)
    requires forall c :: c in items ==> c.id != item.id
    ensures RemainingCart(WithoutId(items, item.id) + [item], Resource(item.id)) == items
  {
    WithoutIdAbsent(items, item.id);
    WithoutIdConcat(items, [item], item.id);
    assert WithoutId([item], item.id) == [];
  }

  /** Deleting a resource clears every flag `put_cart` could have set for
      it, so the put is undone on the flags as well. */
  lemma FlagsRoundTrip(data: seq<Entry>, id: Id)
    ensures ClearAdded(MarkAdded(data, id), Resource(id)) == ClearAdded(data, Resource(id))
  {
    var m := MarkAdded(data, id);
    assert forall k :: 0 <= k < |data| ==>
      ClearAdded(m, Resource(id))[k] == ClearAdded(data, Resource(id))[k];
  }

  /** Deleting 'all' empties the cart but leaves every flag as it was. */
  lemma DeleteAllKeepsFlags(data: seq<Entry>, items: seq<CartItem>)
    ensures ClearAdded(data, Everything) == data
    ensures RemainingCart(items, Everything) == []
  {
  }
}
