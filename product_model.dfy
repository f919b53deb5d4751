/** The `Product` entity: its attributes on `Title`, `Description`, `Price` and `CategoryId`, and the joined `Category`. */
module ProductModel {
  import opened Wrappers
  import opened DataAnnotations
  import opened CategoryModel

  /**
   * A product. `price` is the decimal price as a whole number; `category` is the
   * navigation property, filled only when a query joins the categories table.
   */
  datatype Product = Product(
    id: int,
    title: Option<string>,
    description: Option<string>,
    price: int,
    categoryId: int,
    category: Option<Category>)

  /** `[MaxLength(1024)]` on `Description`; there is no `[Required]`, so null passes. */
  function DescriptionChecks(description: Option<string>): (checks: seq<Check>)
    ensures AllApply(checks)
  {
    [Check(Description, MaxLength(1024), Text(description))]
  }

  /** The result of running the description attribute. */
  function DescriptionViolations(description: Option<string>): (fields: set<Field>)
    ensures fields == if description.Some? && Utf16Length(description.value) > 1024 then {Description} else {}
  {
    var checks := DescriptionChecks(description);
    assert !IsValid(checks[0].rule, checks[0].value) ==> Description in Violations(checks);
    Violations(checks)
  }

  /** `[Required]` and `[Range(1, int.MaxValue)]` on a numeric property. */
  function RangeChecks(field: Field, n: int): (checks: seq<Check>)
    ensures AllApply(checks)
  {
    [Check(field, Required, Number(n)), Check(field, Range(1, IntMaxValue), Number(n))]
  }

  /** The result of running the two attributes of a numeric property: `Required` never fails on a value type, so only the range decides. */
  function RangeViolations(field: Field, n: int): (fields: set<Field>)
    ensures fields == if 1 <= n <= IntMaxValue then {} else {field}
  {
    var checks := RangeChecks(field, n);
    assert !IsValid(checks[1].rule, checks[1].value) ==> field in Violations(checks);
    Violations(checks)
  }

  /** The attributes of the product class, property by property in declaration order. */
  function ProductChecks(p: Product): (checks: seq<Check>)
    ensures AllApply(checks)
  {
    TitleChecks(p.title) + DescriptionChecks(p.description)
      + RangeChecks(Price, p.price) + RangeChecks(CategoryId, p.categoryId)
  }

  /**
   * The fields of a product that fail validation. Each field is judged on its own
   * and every failing field is reported.
   */
  function ProductViolations(p: Product): (fields: set<Field>)
    ensures fields <= {Title, Description, Price, CategoryId}
    ensures Title in fields <==> !ValidTitle(p.title)
    ensures Description in fields <==> p.description.Some? && Utf16Length(p.description.value) > 1024
    ensures Price in fields <==> !(1 <= p.price <= IntMaxValue)
    ensures CategoryId in fields <==> !(1 <= p.categoryId <= IntMaxValue)
  {
    var title, description := TitleViolations(p.title), DescriptionViolations(p.description);
    var price, categoryId := RangeViolations(Price, p.price), RangeViolations(CategoryId, p.categoryId);
    ghost var validTitle := ValidTitle(p.title);
    ghost var validDescription := !(p.description.Some? && Utf16Length(p.description.value) > 1024);
    assert title == if validTitle then {} else {Title};
    assert description == if validDescription then {} else {Description};
    UnionOfFieldSets(validTitle, validDescription, 1 <= p.price <= IntMaxValue, 1 <= p.categoryId <= IntMaxValue);
    title + description + price + categoryId
  }

  /** The per-field computation is what running every attribute of the class reports. */
  lemma {:induction false} ProductViolationsRunEveryAttribute(p: Product)
    ensures ProductViolations(p) == Violations(ProductChecks(p))
  {
    var t, d := TitleChecks(p.title), DescriptionChecks(p.description);
    var pr, c := RangeChecks(Price, p.price), RangeChecks(CategoryId, p.categoryId);
    ViolationsOfConcatenation(t, d);
    ViolationsOfConcatenation(t + d, pr);
    ViolationsOfConcatenation(t + d + pr, c);
  }

  lemma UnionOfFieldSets(title: bool, description: bool, price: bool, categoryId: bool)
    ensures var fields := (if title then {} else {Title}) + (if description then {} else {Description})
      + (if price then {} else {Price}) + (if categoryId then {} else {CategoryId});
      && fields <= {Title, Description, Price, CategoryId}
      && (Title in fields <==> !title) && (Description in fields <==> !description)
      && (Price in fields <==> !price) && (CategoryId in fields <==> !categoryId)
  {
  }

  predicate IsValidProduct(p: Product)
  {
    ProductViolations(p) == {}
  }

  /** A product's title obeys the same rule as a category's title. */
  lemma {:induction false} SameTitleRule(p: Product, c: Category)
    requires p.title == c.title
    ensures Title in ProductViolations(p) <==> Title in CategoryViolations(c)
  {
  }

  /** The navigation property carries no attribute, so it never changes a product's violations. */
  lemma NavigationDoesNotAffectValidity(p: Product, c: Option<Category>)
    ensures ProductViolations(p.(category := c)) == ProductViolations(p)
  {
  }

  /** A body with no title, no price and no category: all three fields are reported, not only the first. */
  lemma AllViolationsReported()
    ensures ProductViolations(Product(0, None, None, 0, 0, None)) == {Title, Price, CategoryId}
  {
    var fields := ProductViolations(Product(0, None, None, 0, 0, None));
    assert Description !in fields;
  }
}
