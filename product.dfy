/** The `Product` entity of the product catalog service. */
module ProductEntity {
  import opened Common

  /** A catalog row. `Name` is required, `Description` nullable; `UserId`
      records the creator, the only owner identity the guards compare. The
      entity declares no `UpdatedAt`, although the service assigns one; the
      model keeps that timestamp as a nullable field. */
  datatype Product = Product(
    Id: Guid,
    Name: string,
    Description: Option<string>,
    Price: real,
    IsAvailable: bool,
    IsActive: bool,
    UserId: Guid,
    CreatedAt: Time,
    UpdatedAt: Option<Time>,
    IsDeleted: bool)

  /** `new Product { Name = name }` at time `now`: every property but the
      required name takes its declared default. */
  function NewProduct(name: string, now: Time): (p: Product)
    ensures p.Name == name && p.CreatedAt == now
    ensures p.IsActive && !p.IsDeleted
    ensures p.Description == None && p.UpdatedAt == None
    ensures p.Id == EmptyGuid && p.UserId == EmptyGuid
    ensures p.Price == 0.0 && !p.IsAvailable
  {
    Product(EmptyGuid, name, None, 0.0, false, true, EmptyGuid, now, None, false)
  }
}
