/** `ProductRepository`: the product table with its soft-delete flag, the
    filtered catalog query and the per-owner bulk operations. */
module ProductRepositories {
  import opened Common
  import opened ProductEntity
  import Text

  /** The `Products` table, keyed by product id. */
  type Table = map<Guid, Product>

  /** Every row is stored under its own id. */
  predicate KeysMatch(t: Table) {
    forall id :: id in t ==> t[id].Id == id
  }

  // ---------------------------------------------------------------------
  // The filtered query

  /** The arguments of `GetFilteredProductsAsync`; an absent (null) value
      imposes no constraint. */
  datatype ProductQuery = ProductQuery(
    SearchTerm: Option<string>,
    MinPrice: Option<real>,
    MaxPrice: Option<real>,
    IsAvailable: Option<bool>,
    UserId: Option<Guid>)

  const NoFilter := ProductQuery(None, None, None, None, None)

  /** `Name.Contains(term) || Description.Contains(term)`; a null description
      compares as SQL NULL and so never matches. */
  predicate Mentions(p: Product, term: string) {
    || Text.Contains(p.Name, term)
    || (p.Description.Some? && Text.Contains(p.Description.value, term))
  }

  /** The search filter: applied only to a term that is not blank. */
  predicate SearchAdmits(p: Product, term: Option<string>) {
    Text.IsNullOrWhiteSpace(term) || Mentions(p, term.value)
  }

  /** Inclusive price bounds. */
  predicate PriceAdmits(p: Product, min: Option<real>, max: Option<real>) {
    && (min.Some? ==> min.value <= p.Price)
    && (max.Some? ==> p.Price <= max.value)
  }

  /** Equality filter on an optional property value. */
  predicate Admits<T(==)>(value: T, filter: Option<T>) {
    filter.Some? ==> value == filter.value
  }

  /** The `Where` chain of `GetFilteredProductsAsync`. */
  predicate Matches(p: Product, q: ProductQuery) {
    && !p.IsDeleted
    && SearchAdmits(p, q.SearchTerm)
    && PriceAdmits(p, q.MinPrice, q.MaxPrice)
    && Admits(p.IsAvailable, q.IsAvailable)
    && Admits(p.UserId, q.UserId)
  }

  /** `GetFilteredProductsAsync`: the rows the query lists, under their keys.
      Exactly the non-deleted rows that pass every supplied filter. */
  function Filtered(t: Table, q: ProductQuery): (r: Table)
    ensures forall id :: id in r ==> id in t && r[id] == t[id]
    ensures forall id :: id in r ==> !r[id].IsDeleted
    ensures forall id :: id in r && q.MinPrice.Some? ==> q.MinPrice.value <= r[id].Price
    ensures forall id :: id in r && q.MaxPrice.Some? ==> r[id].Price <= q.MaxPrice.value
    ensures forall id :: id in r && q.IsAvailable.Some? ==> r[id].IsAvailable == q.IsAvailable.value
    ensures forall id :: id in r && q.UserId.Some? ==> r[id].UserId == q.UserId.value
    ensures forall id :: id in r && !Text.IsNullOrWhiteSpace(q.SearchTerm) ==>
      Mentions(r[id], q.SearchTerm.value)
    ensures forall id :: id in t ==>
      (!t[id].IsDeleted && SearchAdmits(t[id], q.SearchTerm)
       && PriceAdmits(t[id], q.MinPrice, q.MaxPrice) && Admits(t[id].IsAvailable, q.IsAvailable)
       && Admits(t[id].UserId, q.UserId)) ==> id in r
  {
    map id | id in t && Matches(t[id], q) :: t[id]
  }

  /** With no filter the query lists every row that is not soft-deleted. */
  lemma NoFilterListsAllLive(t: Table, id: Guid)
    requires id in t
    ensures id in Filtered(t, NoFilter) <==> !t[id].IsDeleted
  {
  }

  /** A blank search term (null, empty or white space) is the same as none. */
  lemma BlankSearchIsNoSearch(t: Table, q: ProductQuery, term: string)
    requires Text.IsNullOrWhiteSpace(Some(term))
    ensures Filtered(t, q.(SearchTerm := Some(term))) == Filtered(t, q.(SearchTerm := None))
  {
  }

  /** Searching for a product's own name lists it, unless it is deleted or
      fails another filter. */
  lemma SearchByOwnNameFinds(t: Table, id: Guid, q: ProductQuery)
    requires id in t && q.SearchTerm == Some(t[id].Name)
    requires Matches(t[id], q.(SearchTerm := None))
    ensures id in Filtered(t, q)
  {
    Text.ContainsSelfAndEmpty(t[id].Name);
  }

  /** Supplying one more filter value never lists more rows. */
  lemma OwnerFilterNarrows(t: Table, q: ProductQuery, owner: Guid)
    requires q.UserId == None
    ensures Filtered(t, q.(UserId := Some(owner))).Keys <= Filtered(t, q).Keys
  {
  }

  // ---------------------------------------------------------------------
  // Soft deletion

  /** The ids of `owner`'s rows whose flag is `deleted`: what the bulk
      operations select before their loops. */
  function OwnedWithFlag(t: Table, owner: Guid, deleted: bool): (ids: set<Guid>)
    ensures forall id :: id in ids <==> id in t && t[id].UserId == owner && t[id].IsDeleted == deleted
  {
    set id | id in t && t[id].UserId == owner && t[id].IsDeleted == deleted
  }

  /** The table after the rows in `ids` get their flag set to `deleted`. */
  function SetFlag(t: Table, ids: set<Guid>, deleted: bool): Table {
    map id | id in t :: if id in ids then t[id].(IsDeleted := deleted) else t[id]
  }

  /** `SoftDeleteProductsByUserIdAsync(owner)`: every row of `owner` ends up
      deleted, only the flag changes, other owners' rows are untouched. */
  function OwnerSoftDeleted(t: Table, owner: Guid): (r: Table)
    ensures r.Keys == t.Keys
    ensures forall id :: id in r ==> r[id] == t[id].(IsDeleted := r[id].IsDeleted)
    ensures forall id :: id in r && t[id].UserId == owner ==> r[id].IsDeleted
    ensures forall id :: id in r && t[id].UserId != owner ==> r[id] == t[id]
  {
    SetFlag(t, OwnedWithFlag(t, owner, false), true)
  }

  /** `RestoreProductsByUserIdAsync(owner)`: every row of `owner` ends up not
      deleted, whatever deleted it; other owners' rows are untouched. */
  function OwnerRestored(t: Table, owner: Guid): (r: Table)
    ensures r.Keys == t.Keys
    ensures forall id :: id in r ==> r[id] == t[id].(IsDeleted := r[id].IsDeleted)
    ensures forall id :: id in r && t[id].UserId == owner ==> !r[id].IsDeleted
    ensures forall id :: id in r && t[id].UserId != owner ==> r[id] == t[id]
  {
    SetFlag(t, OwnedWithFlag(t, owner, true), false)
  }

  /** `SoftDeleteAsync` / `RestoreAsync`: set one row's flag; an absent id
      changes nothing. */
  function WithFlag(t: Table, id: Guid, deleted: bool): (r: Table)
    ensures r.Keys == t.Keys
    ensures id in t ==> r[id] == t[id].(IsDeleted := deleted)
    ensures forall k :: k in t && k != id ==> r[k] == t[k]
  {
    if id in t then t[id := t[id].(IsDeleted := deleted)] else t
  }

  /** Deactivating an owner twice is deactivating once: a redelivered event
      or a repeated call is harmless. */
  lemma OwnerSoftDeleteIdempotent(t: Table, owner: Guid)
    ensures OwnerSoftDeleted(OwnerSoftDeleted(t, owner), owner) == OwnerSoftDeleted(t, owner)
  {
    var once := OwnerSoftDeleted(t, owner);
    assert OwnedWithFlag(once, owner, false) == {};
  }

  /** Restoring an owner twice is restoring once. */
  lemma OwnerRestoreIdempotent(t: Table, owner: Guid)
    ensures OwnerRestored(OwnerRestored(t, owner), owner) == OwnerRestored(t, owner)
  {
    var once := OwnerRestored(t, owner);
    assert OwnedWithFlag(once, owner, true) == {};
  }

  /** Deactivating and then reactivating an owner is the same as reactivating
      at once: every product of that owner is live again and nothing else
      differs from the restore. */
  lemma DeactivateThenRestore(t: Table, owner: Guid)
    ensures OwnerRestored(OwnerSoftDeleted(t, owner), owner) == OwnerRestored(t, owner)
  {
  }

  /** When none of `owner`'s rows was deleted beforehand, deactivating and
      reactivating gives back the original table. */
  lemma DeactivateThenRestoreRoundTrip(t: Table, owner: Guid)
    requires OwnedWithFlag(t, owner, true) == {}
    ensures OwnerRestored(OwnerSoftDeleted(t, owner), owner) == t
  {
    var back := OwnerRestored(OwnerSoftDeleted(t, owner), owner);
    forall id | id in t ensures back[id] == t[id] {
      assert id !in OwnedWithFlag(t, owner, true);
    }
  }

  /** The bulk restore also revives a product that was soft-deleted on its own. */
  lemma RestoreRevivesSingleDelete(t: Table, id: Guid, owner: Guid)
    requires id in t && t[id].UserId == owner
    ensures OwnerRestored(WithFlag(t, id, true), owner) == OwnerRestored(t, owner)
  {
  }

  /** Once an owner is deactivated, no query lists any product of theirs. */
  lemma DeactivatedOwnerIsUnlisted(t: Table, owner: Guid, q: ProductQuery, id: Guid)
    requires id in Filtered(OwnerSoftDeleted(t, owner), q)
    ensures t[id].UserId != owner
  {
  }

  // ---------------------------------------------------------------------
  // The repository object

  class ProductRepository {
    var products: Table

    ghost predicate Valid()
      reads this
    {
      KeysMatch(products)
    }

    constructor (initial: Table)
      requires KeysMatch(initial)
      ensures Valid() && products == initial
    {
      products := initial;
    }

    /** `GetByIdAsync` ignores the query filters: a soft-deleted product is
        found as well. */
    function GetById(id: Guid): (r: Option<Product>)
      reads this
      ensures r.Some? <==> id in products
      ensures r.Some? ==> r.value == products[id]
    {
      if id in products then Some(products[id]) else None
    }

    /** `GetFilteredProductsAsync`. */
    function GetFilteredProducts(q: ProductQuery): (r: Table)
      reads this
      ensures forall id :: id in r ==> id in products && Matches(products[id], q)
      ensures forall id :: id in products && Matches(products[id], q) ==> id in r
      ensures forall id :: id in r ==> r[id] == products[id]
    {
      Filtered(products, q)
    }

    /** `AddAsync`: the new row, stored under the key generated for it. */
    method Add(product: Product)
      requires Valid() && product.Id !in products
      modifies this
      ensures Valid()
      ensures products == old(products)[product.Id := product]
    {
      products := products[product.Id := product];
    }

    /** `UpdateAsync`: overwrite a row that the caller loaded before. */
    method Update(product: Product)
      requires Valid() && product.Id in products
      modifies this
      ensures Valid()
      ensures products == old(products)[product.Id := product]
    {
      products := products[product.Id := product];
    }

    /** `SoftDeleteAsync`. */
    method SoftDelete(id: Guid)
      requires Valid()
      modifies this
      ensures Valid()
      ensures products == WithFlag(old(products), id, true)
    {
      var product := GetById(id);
      if product.Some? {
        products := products[id := product.value.(IsDeleted := true)];
      }
    }

    /** `RestoreAsync`. */
    method Restore(id: Guid)
      requires Valid()
      modifies this
      ensures Valid()
      ensures products == WithFlag(old(products), id, false)
    {
      var product := GetById(id);
      if product.Some? {
        products := products[id := product.value.(IsDeleted := false)];
      }
    }

    /** Set the flag of every selected row to `deleted`, one row at a time,
        as the `foreach` loops of the two bulk operations do. */
    method SetFlagEach(selected: set<Guid>, deleted: bool)
      requires Valid() && selected <= products.Keys
      modifies this
      ensures Valid()
      ensures products == SetFlag(old(products), selected, deleted)
    {
      var pending := selected;
      while pending != {}
        invariant pending <= selected
        invariant products.Keys == old(products).Keys
        invariant forall k :: k in products ==>
          products[k] == if k in selected && k !in pending then old(products)[k].(IsDeleted := deleted) else old(products)[k]
        decreases pending
      {
        var id :| id in pending;
        products := products[id := products[id].(IsDeleted := deleted)];
        pending := pending - {id};
      }
      assert Valid();
    }

    /** `SoftDeleteProductsByUserIdAsync`. */
    method SoftDeleteProductsByUserId(userId: Guid)
      requires Valid()
      modifies this
      ensures Valid()
      ensures products == OwnerSoftDeleted(old(products), userId)
    {
      var selected := OwnedWithFlag(products, userId, false);
      SetFlagEach(selected, true);
    }

    /** `RestoreProductsByUserIdAsync`. */
    method RestoreProductsByUserId(userId: Guid)
      requires Valid()
      modifies this
      ensures Valid()
      ensures products == OwnerRestored(old(products), userId)
    {
      var selected := OwnedWithFlag(products, userId, true);
      SetFlagEach(selected, false);
    }
  }
}
