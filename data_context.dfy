/**
 * The data context: the two tables of the in-memory store, keyed by id, and the
 * key generators the store uses for new rows.
 */
module Data {
  import opened Wrappers
  import opened CategoryModel
  import opened ProductModel
  import opened Tables

  /** The id the store gives a new row: a generated one when the id is left at 0, the given one otherwise. */
  function NewKey(givenId: int, nextId: int): (key: int)
    ensures givenId != 0 ==> key == givenId
    ensures givenId == 0 ==> key == nextId
  {
    if givenId == 0 then nextId else givenId
  }

  /** The generator after a row was stored under `key`: always past every stored key. */
  function BumpedGenerator(key: int, nextId: int): (next: int)
    ensures next > key && next >= nextId
  {
    if key < nextId then nextId else key + 1
  }

  class DataContext {
    var categories: map<int, Category>
    var products: map<int, Product>
    var nextCategoryId: int
    var nextProductId: int

    /**
     * Each row is stored under its own id, stored products carry no joined
     * category, and the generators are past every key in use.
     */
    ghost predicate Valid()
      reads this
    {
      && 1 <= nextCategoryId && 1 <= nextProductId
      && (forall k :: k in categories ==> categories[k].id == k && k < nextCategoryId)
      && (forall k :: k in products ==> products[k].id == k && products[k].category.None? && k < nextProductId)
    }

    /** An empty store whose generators start at 1. */
    constructor ()
      ensures Valid()
      ensures categories == map[] && products == map[]
      ensures nextCategoryId == 1 && nextProductId == 1
    {
      categories, products := map[], map[];
      nextCategoryId, nextProductId := 1, 1;
    }
  }

  /** Whether a stored category has the given `Id` (the `FirstOrDefault(x => x.Id == id)` lookup). */
  predicate HasCategory(categories: map<int, Category>, id: int)
  {
    exists k :: k in categories && categories[k].id == id
  }

  /** Whether a stored product has the given `Id`. */
  predicate HasProduct(products: map<int, Product>, id: int)
  {
    exists k :: k in products && products[k].id == id
  }

  /** In a consistent store, looking a row up by its `Id` is looking it up by key. */
  lemma LookupByIdIsByKey(context: DataContext, id: int)
    requires context.Valid()
    ensures HasCategory(context.categories, id) <==> id in context.categories
    ensures HasProduct(context.products, id) <==> id in context.products
  {
    if id in context.categories {
      assert context.categories[id].id == id;
    }
    if id in context.products {
      assert context.products[id].id == id;
    }
  }

  /** A generated key is never a key already in use. */
  lemma GeneratedKeyIsFresh(context: DataContext)
    requires context.Valid()
    ensures NewKey(0, context.nextCategoryId) !in context.categories
    ensures NewKey(0, context.nextProductId) !in context.products
  {
  }

  /** `Id` is the key: two stored categories never share an id, and neither do two stored products. */
  lemma IdsAreUnique(context: DataContext)
    requires context.Valid()
    ensures forall j, k :: j in context.categories && k in context.categories && j != k ==>
      context.categories[j].id != context.categories[k].id
    ensures forall j, k :: j in context.products && k in context.products && j != k ==>
      context.products[j].id != context.products[k].id
  {
  }
}
