/**
 * A walk through the catalog using only the contracts of the actions: create a
 * category and a product in it, refuse a product whose category does not
 * exist, list the category's products, then delete the category.
 */
module Walkthrough {
  import opened Wrappers
  import opened DataAnnotations
  import opened CategoryModel
  import opened ProductModel
  import opened Auth
  import opened ActionResults
  import opened Data
  import CategoryController
  import ProductController

  /** Creating "Books" in an empty store gives it id 1. */
  method CreateCategory() returns (context: DataContext)
    ensures context.Valid() && context.categories == map[1 := Category(1, Some("Books"))]
    ensures context.products == map[] && context.nextProductId == 1
  {
    context := new DataContext();
    assert Utf16Length("Books") == 5 && !IsWhiteSpace('B');
    var books := CategoryController.Post(context, Authenticated({Employee}), Category(0, Some("Books")), false);
    assert books == Ok(Category(1, Some("Books")));
  }

  /** A two-letter title is refused even though its category exists. */
  method ShortTitle(context: DataContext)
    requires context.Valid() && 1 in context.categories
    modifies context
  {
    assert Utf16Length("Go") == 2;
    assert context.categories[1].id == 1;
    assert HasCategory(context.categories, 1);
    var short := ProductController.Post(context, Authenticated({Employee}), Product(0, Some("Go"), None, 10, 1, None), false);
    assert short == ValidationFailed({Title});
  }

  /** A product posted into "Books" gets id 1. */
  method CreateProduct(context: DataContext)
    requires context.Valid() && context.categories == map[1 := Category(1, Some("Books"))]
    requires context.products == map[] && context.nextProductId == 1
    modifies context
    ensures context.Valid() && context.categories == map[1 := Category(1, Some("Books"))]
    ensures context.products == map[1 := Product(1, Some("Dune"), None, 10, 1, None)]
  {
    DuneIsValid();
    assert context.categories[1].id == 1;
    assert HasCategory(context.categories, 1);
    var go := ProductController.Post(context, Authenticated({Employee}), Product(0, Some("Dune"), None, 10, 1, None), false);
    assert go == Ok(Product(1, Some("Dune"), None, 10, 1, None));
  }

  /** "Dune", priced 10 in category 1, breaks no rule of the product model. */
  lemma DuneIsValid()
    ensures IsValidProduct(Product(0, Some("Dune"), None, 10, 1, None))
  {
    assert Utf16Length("Dune") == 4 && !IsWhiteSpace('D');
    assert ValidTitle(Some("Dune"));
  }

  /** The product reads back with its category joined, and is listed under that category. */
  method ReadProduct(context: DataContext)
    requires context.Valid() && context.categories == map[1 := Category(1, Some("Books"))]
    requires context.products == map[1 := Product(1, Some("Dune"), None, 10, 1, None)]
  {
    var read := ProductController.GetById(context, 1);
    assert read.value.category == Some(Category(1, Some("Books")));
    var listed := ProductController.GetByCategory(context, 1);
    assert read.value in listed.value;
  }

  /**
   * Deleting the category of a stored product leaves the product in its table,
   * but no read returns it any more: the join with its category finds no row.
   */
  method OrphanedProduct(context: DataContext)
    requires context.Valid() && context.categories == map[1 := Category(1, Some("Books"))]
    requires context.products == map[1 := Product(1, Some("Dune"), None, 10, 1, None)]
    modifies context
  {
    var deleted := CategoryController.Delete(context, Authenticated({Employee}), 1, false);
    assert deleted == Ok(());
    assert 1 in context.products;
    assert ProductController.GetById(context, 1) == NotFound;
    assert ProductController.GetByCategory(context, 1).value == [];
    assert ProductController.Get(context).value == [];
  }

  /** Whatever the store holds: a missing category wins over an invalid body, and the roles gate writes. */
  method RejectedRequests(context: DataContext)
    requires context.Valid() && 999 !in context.categories
    modifies context
  {
    var employee := Authenticated({Employee});
    var missing := ProductController.Post(context, employee, Product(0, None, None, 0, 999, None), false);
    assert !HasCategory(context.categories, 999);
    assert missing == InvalidReference;

    var anonymous := CategoryController.Delete(context, Anonymous, 1, false);
    assert anonymous == Unauthenticated;
    var product := ProductController.Delete(context, employee, 1, false);
    assert product == Forbidden;
  }

  /** Deleting a stored category makes a later read of it `NotFound`. */
  method DeleteThenRead(context: DataContext)
    requires context.Valid() && 1 in context.categories
    modifies context
  {
    var deleted := CategoryController.Delete(context, Authenticated({Employee}), 1, false);
    assert deleted == Ok(());
    assert CategoryController.GetById(context, 1) == NotFound;
  }
}
