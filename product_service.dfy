/** `ProductService`: the owner guards, the create path behind the user
    status probe and the validator, and the status synchronisation. */
module ProductServices {
  import opened Common
  import opened ProductEntity
  import opened ProductDtoValidation
  import opened ProductRepositories
  import Text

  /** `CreateProductAsync`'s new entity, before the store gives it its key:
      owned by the caller, live, and carrying the DTO's values. */
  function CreatedProduct(dto: ProductDto, userId: Guid, id: Guid, now: Time): (p: Product)
    requires dto.Name.Some?
    ensures p.Id == id && p.UserId == userId && !p.IsDeleted && p.IsActive
    ensures p.Name == dto.Name.value && p.Description == dto.Description
    ensures p.Price == dto.Price && p.IsAvailable == dto.IsAvailable
    ensures p.CreatedAt == now && p.UpdatedAt == None
  {
    NewProduct(dto.Name.value, now).(
      Description := dto.Description,
      Price := dto.Price,
      IsAvailable := dto.IsAvailable,
      UserId := userId,
      CreatedAt := now,
      IsDeleted := false,
      Id := id)
  }

  /** The owner's update of `p`: a null name or description keeps the old
      one, price and availability are always overwritten, and identity,
      owner, creation time and deletion flag stay as they were. */
  function Merged(p: Product, dto: ProductDto, now: Time): (r: Product)
    ensures r.Name == (if dto.Name.Some? then dto.Name.value else p.Name)
    ensures r.Description == (if dto.Description.Some? then dto.Description else p.Description)
    ensures r.Price == dto.Price && r.IsAvailable == dto.IsAvailable
    ensures r == p.(Name := r.Name, Description := r.Description, Price := r.Price,
                    IsAvailable := r.IsAvailable, UpdatedAt := Some(now))
  {
    p.(Name := dto.Name.GetOr(p.Name),
       Description := if dto.Description.Some? then dto.Description else p.Description,
       Price := dto.Price,
       IsAvailable := dto.IsAvailable,
       UpdatedAt := Some(now))
  }

  /** The filter `GetProductsAsync` hands to the repository: all five
      values, the availability filter included. */
  function QueryOf(searchTerm: Option<string>, minPrice: Option<real>, maxPrice: Option<real>,
                   isAvailable: Option<bool>, userId: Option<Guid>): (q: ProductQuery)
    ensures q.IsAvailable == isAvailable && q.UserId == userId
    ensures q.SearchTerm == searchTerm && q.MinPrice == minPrice && q.MaxPrice == maxPrice
  {
    ProductQuery(searchTerm, minPrice, maxPrice, isAvailable, userId)
  }

  class ProductService {
    const repository: ProductRepository

    constructor (repository: ProductRepository)
      ensures this.repository == repository
    {
      this.repository := repository;
    }

    /** `CreateProductAsync`. `userActive` is the answer of the user service's
        status endpoint (a success status code); `newId` is the key the store
        generates. The status check runs first, then validation. */
    method CreateProduct(dto: ProductDto, userId: Guid, userActive: bool, newId: Guid, now: Time)
      returns (r: Result<Product>)
      requires repository.Valid() && newId !in repository.products
      modifies repository
      ensures repository.Valid()
      ensures !userActive ==>
        r == Failure(InvalidOperation) && repository.products == old(repository.products)
      ensures userActive && !IsValid(dto) ==>
        r == Failure(Validation) && repository.products == old(repository.products)
      ensures userActive && IsValid(dto) ==>
        && dto.Name.Some?
        && r == Success(CreatedProduct(dto, userId, newId, now))
        && repository.products == old(repository.products)[newId := r.value]
    {
      if !userActive {
        return Failure(InvalidOperation);
      }
      if !IsValid(dto) {
        return Failure(Validation);
      }
      ValidIff(dto);
      var product := CreatedProduct(dto, userId, newId, now);
      repository.Add(product);
      r := Success(product);
    }

    /** `GetProductByIdAsync`: any stored product, deleted or not. */
    method GetProductById(id: Guid) returns (r: Result<Product>)
      ensures r.Failure? <==> id !in repository.products
      ensures r.Failure? ==> r.error == KeyNotFound
      ensures r.Success? ==> r.value == repository.products[id]
    {
      var product := repository.GetById(id);
      if product.None? {
        return Failure(KeyNotFound);
      }
      r := Success(product.value);
    }

    /** `GetProductsAsync`: the filtered catalog query. */
    method GetProducts(searchTerm: Option<string>, minPrice: Option<real>, maxPrice: Option<real>,
                       isAvailable: Option<bool>, userId: Option<Guid>)
      returns (r: Table)
      ensures forall id :: id in r <==>
        (id in repository.products &&
         Matches(repository.products[id], ProductQuery(searchTerm, minPrice, maxPrice, isAvailable, userId)))
      ensures forall id :: id in r ==> r[id] == repository.products[id]
    {
      r := repository.GetFilteredProducts(QueryOf(searchTerm, minPrice, maxPrice, isAvailable, userId));
    }

    /** `UpdateProductAsync`. */
    method UpdateProduct(id: Guid, dto: ProductDto, userId: Guid, now: Time) returns (r: Outcome)
      requires repository.Valid()
      modifies repository
      ensures repository.Valid()
      ensures id !in old(repository.products) ==>
        r == Fail(KeyNotFound) && repository.products == old(repository.products)
      ensures id in old(repository.products) && old(repository.products)[id].UserId != userId ==>
        r == Fail(UnauthorizedAccess) && repository.products == old(repository.products)
      ensures id in old(repository.products) && old(repository.products)[id].UserId == userId ==>
        && r == Pass
        && repository.products == old(repository.products)[id := Merged(old(repository.products)[id], dto, now)]
    {
      var found := GetProductById(id);
      if found.Failure? {
        return Fail(found.error);
      }
      var product := found.value;
      if product.UserId != userId {
        return Fail(UnauthorizedAccess);
      }
      product := product.(Name := dto.Name.GetOr(product.Name));
      product := product.(Description := if dto.Description.Some? then dto.Description else product.Description);
      product := product.(Price := dto.Price);
      product := product.(IsAvailable := dto.IsAvailable);
      product := product.(UpdatedAt := Some(now));
      repository.Update(product);
      r := Pass;
    }

    /** `SoftDeleteProductAsync`. */
    method SoftDeleteProduct(id: Guid, userId: Guid) returns (r: Outcome)
      requires repository.Valid()
      modifies repository
      ensures repository.Valid()
      ensures id !in old(repository.products) ==>
        r == Fail(KeyNotFound) && repository.products == old(repository.products)
      ensures id in old(repository.products) && old(repository.products)[id].UserId != userId ==>
        r == Fail(UnauthorizedAccess) && repository.products == old(repository.products)
      ensures id in old(repository.products) && old(repository.products)[id].UserId == userId ==>
        r == Pass && repository.products == WithFlag(old(repository.products), id, true)
    {
      var found := GetProductById(id);
      if found.Failure? {
        return Fail(found.error);
      }
      if found.value.UserId != userId {
        return Fail(UnauthorizedAccess);
      }
      repository.SoftDelete(id);
      r := Pass;
    }

    /** `SyncUserStatusAsync`: an inactive user's products are all
        soft-deleted, an active user's are all restored. */
    method SyncUserStatus(userId: Guid, isActive: bool)
      requires repository.Valid()
      modifies repository
      ensures repository.Valid()
      ensures repository.products == SyncedTable(old(repository.products), userId, isActive)
    {
      if !isActive {
        repository.SoftDeleteProductsByUserId(userId);
      } else {
        repository.RestoreProductsByUserId(userId);
      }
    }
  }

  /** The table after `SyncUserStatusAsync(userId, isActive)`. */
  function SyncedTable(t: Table, userId: Guid, isActive: bool): (r: Table)
    ensures r.Keys == t.Keys
    ensures forall id :: id in r && t[id].UserId == userId ==> r[id].IsDeleted == !isActive
    ensures forall id :: id in r && t[id].UserId != userId ==> r[id] == t[id]
  {
    if isActive then OwnerRestored(t, userId) else OwnerSoftDeleted(t, userId)
  }

  /** Whatever the previous status pushes, the last one decides: the final
      table after sync(false) then sync(true) equals a single sync(true). */
  lemma LastSyncWins(t: Table, userId: Guid, first: bool, second: bool)
    ensures SyncedTable(SyncedTable(t, userId, first), userId, second) == SyncedTable(t, userId, second)
  {
    var mid := SyncedTable(t, userId, first);
    var a := SyncedTable(mid, userId, second);
    var b := SyncedTable(t, userId, second);
    forall id | id in t ensures a[id] == b[id] {
      assert mid[id] == t[id].(IsDeleted := mid[id].IsDeleted);
    }
  }

  /** Owner U1 has products P1 and P2. After U1 is deactivated the owner
      query lists neither, while the lookup by id still finds both, deleted;
      after U1 is reactivated both are live again. */
  lemma DeactivationScenario()
    ensures
      var u1, p1, p2 := 1, 10, 11;
      var t: Table := map[p1 := CreatedProduct(ProductDto(Some("P1"), None, 5.0, true), u1, p1, 0),
                          p2 := CreatedProduct(ProductDto(Some("P2"), None, 7.0, true), u1, p2, 0)];
      var off := SyncedTable(t, u1, false);
      && Filtered(off, NoFilter.(UserId := Some(u1))) == map[]
      && p1 in off && off[p1].IsDeleted && p2 in off && off[p2].IsDeleted
      && var on := SyncedTable(off, u1, true);
         !on[p1].IsDeleted && !on[p2].IsDeleted && on == t
  {
    var u1, p1, p2 := 1, 10, 11;
    var t: Table := map[p1 := CreatedProduct(ProductDto(Some("P1"), None, 5.0, true), u1, p1, 0),
                        p2 := CreatedProduct(ProductDto(Some("P2"), None, 7.0, true), u1, p2, 0)];
    assert OwnedWithFlag(t, u1, true) == {};
    DeactivateThenRestoreRoundTrip(t, u1);
  }
}
