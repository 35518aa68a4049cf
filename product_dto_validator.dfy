/** `ProductDto` and the FluentValidation rules that `ProductDtoValidator`
    declares for it. */
module ProductDtoValidation {
  import opened Common
  import Text

  /** The request body of create and update. `Name` is declared required but
      may still arrive as null, which the update path coalesces. */
  datatype ProductDto = ProductDto(
    Name: Option<string>,
    Description: Option<string>,
    Price: real,
    IsAvailable: bool)

  /** One failed rule. */
  datatype Failure = NameEmpty | NameTooLong | PriceNotGreaterThanZero

  const MaxNameLength: nat := 100

  /** The failures of `RuleFor(Name).NotEmpty().MaximumLength(100)` and
      `RuleFor(Price).GreaterThan(0)`, in rule order. Every rule runs
      (FluentValidation's default cascade), `NotEmpty` rejects null, empty
      and white-space names, and a null name passes `MaximumLength`. */
  function Validate(dto: ProductDto): (failures: seq<Failure>)
    ensures NameEmpty in failures <==> Text.IsNullOrWhiteSpace(dto.Name)
    ensures NameTooLong in failures <==> dto.Name.Some? && |dto.Name.value| > MaxNameLength
    ensures PriceNotGreaterThanZero in failures <==> dto.Price <= 0.0
    ensures |failures| <= 3
  {
    (if Text.IsNullOrWhiteSpace(dto.Name) then [NameEmpty] else [])
    + (if dto.Name.Some? && |dto.Name.value| > MaxNameLength then [NameTooLong] else [])
    + (if dto.Price <= 0.0 then [PriceNotGreaterThanZero] else [])
  }

  /** `ValidateAndThrowAsync` does not throw. */
  predicate IsValid(dto: ProductDto) {
    Validate(dto) == []
  }

  /** A DTO is valid exactly when it has a non-blank name of at most 100
      characters and a positive price; Description and IsAvailable are free. */
  lemma ValidIff(dto: ProductDto)
    ensures IsValid(dto) <==>
      && dto.Name.Some?
      && !Text.IsNullOrWhiteSpace(dto.Name)
      && |dto.Name.value| <= MaxNameLength
      && dto.Price > 0.0
  {
    if !IsValid(dto) {
      var f := Validate(dto)[0];
      assert f in Validate(dto);
    }
  }

  /** A zero price is rejected, whatever the name. */
  lemma ZeroPriceRejected(dto: ProductDto)
    requires dto.Price == 0.0
    ensures !IsValid(dto) && PriceNotGreaterThanZero in Validate(dto)
  {
  }

  /** A blank name of over 100 characters fails both name rules at once,
      reported in rule order before any price failure. */
  lemma LongBlankNameFailsBothRules(dto: ProductDto)
    requires dto.Name.Some? && Text.IsNullOrWhiteSpace(dto.Name) && |dto.Name.value| > MaxNameLength
    ensures |Validate(dto)| >= 2 && Validate(dto)[..2] == [NameEmpty, NameTooLong]
    ensures |Validate(dto)| == 3 <==> dto.Price <= 0.0
  {
  }
}
