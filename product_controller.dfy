/**
 * The product endpoints. Reads join each product with its category from the
 * categories table. `Post` checks that the category exists before it validates
 * the model; `Put` has no such check. Updates and deletes need "manager",
 * creation only "employee".
 *
 * `saveFails` stands for a save that throws for a reason outside the model;
 * the outcome is then `PersistenceFailed` and the tables are as before.
 */
module ProductController {
  import opened Wrappers
  import opened DataAnnotations
  import opened CategoryModel
  import opened ProductModel
  import opened Auth
  import opened ActionResults
  import opened Tables
  import opened Data

  datatype Action = GetAction | GetByIdAction | GetByCategoryAction | PostAction | PutAction | DeleteAction

  /** The authorization attribute of each action: reads anonymous, `Post` "employee", `Put` and `Delete` "manager". */
  function PolicyOf(action: Action): (p: Policy)
    ensures p.AllowAnonymous? <==> action.GetAction? || action.GetByIdAction? || action.GetByCategoryAction?
    ensures action.PostAction? ==> p == RequireRole(Employee)
    ensures action.PutAction? || action.DeleteAction? ==> p == RequireRole(Manager)
  {
    match action
    case GetAction => AllowAnonymous
    case GetByIdAction => AllowAnonymous
    case GetByCategoryAction => AllowAnonymous
    case PostAction => RequireRole(Employee)
    case PutAction => RequireRole(Manager)
    case DeleteAction => RequireRole(Manager)
  }

  /**
   * A product as a query returns it: its `Category` filled from the categories
   * table by `CategoryId`. Defined only when that category row exists; a query
   * drops the product otherwise.
   */
  function Joined(p: Product, categories: map<int, Category>): (q: Product)
    requires p.categoryId in categories
    ensures q.category == Some(categories[p.categoryId])
    ensures q.(category := p.category) == p
  {
    p.(category := Some(categories[p.categoryId]))
  }

  predicate IdsAscending(ps: seq<Product>)
  {
    forall i, j :: 0 <= i < j < |ps| ==> ps[i].id < ps[j].id
  }

  lemma PrependKeepsIdOrder(p: Product, rest: seq<Product>)
    requires IdsAscending(rest)
    requires forall q :: q in rest ==> p.id < q.id
    ensures IdsAscending([p] + rest)
  {
    var r := [p] + rest;
    forall i, j | 0 <= i < j < |r|
      ensures r[i].id < r[j].id
    {
      assert r[j] == rest[j - 1];
      if i > 0 {
        assert r[i] == rest[i - 1];
      }
    }
  }

  lemma TailKeepsIdOrder(ps: seq<Product>)
    requires ps != [] && IdsAscending(ps)
    ensures IdsAscending(ps[1..])
    ensures forall q :: q in ps[1..] ==> ps[0].id < q.id
  {
    forall i, j | 0 <= i < j < |ps[1..]|
      ensures ps[1..][i].id < ps[1..][j].id
    {
      assert ps[1..][i] == ps[i + 1] && ps[1..][j] == ps[j + 1];
    }
    forall q | q in ps[1..]
      ensures ps[0].id < q.id
    {
      var j :| 0 <= j < |ps[1..]| && ps[1..][j] == q;
      assert ps[j + 1] == q;
    }
  }

  /** The `Where(x => x.CategoryId == id)` filter: exactly the products of that category, id order kept. */
  function WithCategoryId(ps: seq<Product>, id: int): (r: seq<Product>)
    ensures forall p :: p in r <==> p in ps && p.categoryId == id
    ensures |r| <= |ps|
    ensures IdsAscending(ps) ==> IdsAscending(r)
  {
    if ps == [] then []
    else
      var rest := WithCategoryId(ps[1..], id);
      if ps[0].categoryId == id then
        assert IdsAscending(ps) ==> IdsAscending([ps[0]] + rest) by {
          if IdsAscending(ps) {
            TailKeepsIdOrder(ps);
            PrependKeepsIdOrder(ps[0], rest);
          }
        }
        [ps[0]] + rest
      else
        assert IdsAscending(ps) ==> IdsAscending(rest) by {
          if IdsAscending(ps) {
            TailKeepsIdOrder(ps);
          }
        }
        rest
  }

  /**
   * `Include(x => x.Category)` over a list of rows. `CategoryId` is not
   * nullable, so the relationship is required and the include is an inner
   * join: a row whose category does not exist is left out.
   */
  function JoinAll(rows: seq<Product>, categories: map<int, Category>): (ps: seq<Product>)
    ensures |ps| <= |rows|
    ensures forall r :: r in rows && r.categoryId in categories ==> Joined(r, categories) in ps
    ensures forall p :: p in ps ==> exists r :: r in rows && r.categoryId in categories && p == Joined(r, categories)
    ensures IdsAscending(rows) ==> IdsAscending(ps)
  {
    if rows == [] then []
    else
      var rest := JoinAll(rows[1..], categories);
      assert forall r :: r in rows ==> r == rows[0] || r in rows[1..];
      if rows[0].categoryId in categories then
        var ps := [Joined(rows[0], categories)] + rest;
        assert IdsAscending(rows) ==> IdsAscending(ps) by {
          if IdsAscending(rows) {
            TailKeepsIdOrder(rows);
            forall q | q in rest
              ensures rows[0].id < q.id
            {
              var r :| r in rows[1..] && r.categoryId in categories && q == Joined(r, categories);
            }
            PrependKeepsIdOrder(Joined(rows[0], categories), rest);
          }
        }
        ps
      else
        assert IdsAscending(rows) ==> IdsAscending(rest) by {
          if IdsAscending(rows) {
            TailKeepsIdOrder(rows);
          }
        }
        rest
  }

  /** The rows of a products table stored under their own ids, listed in ascending id order. */
  lemma RowsInIdOrder(products: map<int, Product>)
    requires forall k :: k in products ==> products[k].id == k
    ensures IdsAscending(Rows(products))
    ensures forall r :: r in Rows(products) ==> r.id in products && products[r.id] == r
  {
    var keys, rows := SortedKeys(products.Keys), Rows(products);
    forall i | 0 <= i < |rows|
      ensures rows[i].id == keys[i]
    {
      assert rows[i] == products[keys[i]];
    }
  }

  /**
   * All products a query over the table returns, joined: each stored product
   * whose category exists, exactly once, in ascending id order.
   */
  function AllJoined(products: map<int, Product>, categories: map<int, Category>): (ps: seq<Product>)
    requires forall k :: k in products ==> products[k].id == k
    ensures |ps| <= |products|
    ensures forall k :: k in products && products[k].categoryId in categories ==>
      Joined(products[k], categories) in ps
    ensures forall p :: p in ps ==>
      p.id in products && products[p.id].categoryId in categories && p == Joined(products[p.id], categories)
    ensures IdsAscending(ps)
  {
    var rows := Rows(products);
    RowsInIdOrder(products);
    var ps := JoinAll(rows, categories);
    assert forall p :: p in ps ==>
      p.id in products && products[p.id].categoryId in categories && p == Joined(products[p.id], categories) by {
      forall p | p in ps
        ensures p.id in products && products[p.id].categoryId in categories
        ensures p == Joined(products[p.id], categories)
      {
        var r :| r in rows && r.categoryId in categories && p == Joined(r, categories);
        assert p.id == r.id;
      }
    }
    ps
  }

  /** Every stored product whose category exists, with that category joined in. */
  function Get(context: DataContext): (r: Outcome<seq<Product>>)
    reads context
    requires context.Valid()
    ensures r.Ok? && |r.value| <= |context.products|
    ensures forall k :: k in context.products && context.products[k].categoryId in context.categories ==>
      Joined(context.products[k], context.categories) in r.value
    ensures forall p :: p in r.value ==>
      && p.id in context.products && context.products[p.id].categoryId in context.categories
      && p == Joined(context.products[p.id], context.categories)
    ensures IdsAscending(r.value)
  {
    Ok(AllJoined(context.products, context.categories))
  }

  /**
   * The product whose `Id` is `id`, joined with its category. `NotFound` when
   * there is no such product, and also when its category row is missing.
   */
  function GetById(context: DataContext, id: int): (r: Outcome<Product>)
    reads context
    requires context.Valid()
    ensures r.Ok? || r.NotFound?
    ensures r.Ok? <==> id in context.products && context.products[id].categoryId in context.categories
    ensures !HasProduct(context.products, id) ==> r == NotFound
    ensures r.Ok? ==> id in context.products && r.value == Joined(context.products[id], context.categories)
    ensures r.Ok? ==> r.value.id == id
  {
    if id in context.products && context.products[id].categoryId in context.categories then
      Ok(Joined(context.products[id], context.categories))
    else
      assert id in context.products ==> context.products[id].id == id;
      NotFound
  }

  /**
   * The products of category `id`, joined: exactly the stored products whose
   * `CategoryId` is `id`, provided that category exists. No match is an empty
   * list, never `NotFound`.
   */
  function GetByCategory(context: DataContext, id: int): (r: Outcome<seq<Product>>)
    reads context
    requires context.Valid()
    ensures r.Ok?
    ensures forall p :: p in r.value <==>
      && id in context.categories && p.id in context.products && context.products[p.id].categoryId == id
      && p == Joined(context.products[p.id], context.categories)
    ensures IdsAscending(r.value)
    ensures id !in context.categories ==> r.value == []
    ensures (forall k :: k in context.products ==> context.products[k].categoryId != id) ==> r.value == []
  {
    var all := AllJoined(context.products, context.categories);
    var ps := WithCategoryId(all, id);
    assert forall p: Product :: (id in context.categories && p.id in context.products
      && context.products[p.id].categoryId == id && p == Joined(context.products[p.id], context.categories)) ==> p in ps by {
      forall p: Product | id in context.categories && p.id in context.products
        && context.products[p.id].categoryId == id && p == Joined(context.products[p.id], context.categories)
        ensures p in ps
      {
        assert p in all;
      }
    }
    assert ps != [] ==> ps[0] in ps;
    Ok(ps)
  }

  /** The row `Post` and `Put` write: the product without its navigation property. */
  function Row(p: Product): (q: Product)
    ensures q.category.None?
    ensures q.(category := p.category) == p
  {
    p.(category := None)
  }

  /**
   * Creates a product. After the role check, the category must exist (otherwise
   * `InvalidReference`, whatever else is wrong with the model); then the model
   * must be valid; then it is added under the id the store gives it.
   */
  method Post(context: DataContext, caller: Caller, model: Product, saveFails: bool)
    returns (r: Outcome<Product>)
    requires context.Valid()
    modifies context
    ensures context.Valid()
    ensures context.categories == old(context.categories) && context.nextCategoryId == old(context.nextCategoryId)
    ensures Authorize(PolicyOf(PostAction), caller) != Allow ==>
      r == Denied(Authorize(PolicyOf(PostAction), caller))
    ensures Authorize(PolicyOf(PostAction), caller) == Allow && !HasCategory(old(context.categories), model.categoryId) ==>
      r == InvalidReference
    ensures (Authorize(PolicyOf(PostAction), caller) == Allow && HasCategory(old(context.categories), model.categoryId)
      && !IsValidProduct(model)) ==>
      r == ValidationFailed(ProductViolations(model))
    ensures (Authorize(PolicyOf(PostAction), caller) == Allow && HasCategory(old(context.categories), model.categoryId)
      && IsValidProduct(model)) ==>
      var key := NewKey(model.id, old(context.nextProductId));
      r == if key in old(context.products) || saveFails then PersistenceFailed else Ok(Row(model).(id := key))
    ensures (Authorize(PolicyOf(PostAction), caller) == Allow && HasCategory(old(context.categories), model.categoryId)
      && IsValidProduct(model) && model.id == 0 && !saveFails) ==>
      r.Ok?
    ensures r.Ok? ==> r.value.id !in old(context.products)
    ensures context.products == if r.Ok? then old(context.products)[r.value.id := r.value] else old(context.products)
    ensures r.Ok? ==>
      r.value.categoryId in context.categories && GetById(context, r.value.id) == Ok(Joined(r.value, context.categories))
    ensures context.nextProductId ==
      if r.Ok? then BumpedGenerator(r.value.id, old(context.nextProductId))
      else if Authorize(PolicyOf(PostAction), caller) == Allow && HasCategory(old(context.categories), model.categoryId)
        && IsValidProduct(model) && model.id == 0
      then old(context.nextProductId) + 1
      else old(context.nextProductId)
  {
    var decision := Authorize(PolicyOf(PostAction), caller);
    if !decision.Allow? {
      return Denied(decision);
    }
    if model.categoryId !in context.categories {
      assert !HasCategory(context.categories, model.categoryId);
      return InvalidReference;
    }
    assert HasCategory(context.categories, model.categoryId);
    if !IsValidProduct(model) {
      return ValidationFailed(ProductViolations(model));
    }
    // The id is drawn when the entity is added, before the save.
    var key := NewKey(model.id, context.nextProductId);
    if model.id == 0 {
      context.nextProductId := context.nextProductId + 1;
    }
    if key in context.products || saveFails {
      return PersistenceFailed;
    }
    var stored := Row(model).(id := key);
    context.products := context.products[key := stored];
    context.nextProductId := BumpedGenerator(key, context.nextProductId);
    assert stored.categoryId in context.categories && context.products[key] == stored;
    r := Ok(stored);
  }

  /**
   * Replaces the product `id`. The route id must equal the body's id (otherwise
   * `NotFound`, before validation); the model must be valid; the row must still
   * be in the store. Unlike `Post`, the category is not looked up.
   */
  method Put(context: DataContext, caller: Caller, id: int, model: Product, saveFails: bool)
    returns (r: Outcome<Product>)
    requires context.Valid()
    modifies context
    ensures context.Valid()
    ensures context.categories == old(context.categories)
    ensures context.nextCategoryId == old(context.nextCategoryId) && context.nextProductId == old(context.nextProductId)
    ensures Authorize(PolicyOf(PutAction), caller) != Allow ==>
      r == Denied(Authorize(PolicyOf(PutAction), caller))
    ensures Authorize(PolicyOf(PutAction), caller) == Allow && id != model.id ==> r == NotFound
    ensures Authorize(PolicyOf(PutAction), caller) == Allow && id == model.id && !IsValidProduct(model) ==>
      r == ValidationFailed(ProductViolations(model))
    ensures Authorize(PolicyOf(PutAction), caller) == Allow && id == model.id && IsValidProduct(model) ==>
      r == if id !in old(context.products) then ConcurrencyConflict
           else if saveFails then PersistenceFailed
           else Ok(Row(model))
    ensures context.products == if r.Ok? then old(context.products)[id := Row(model)] else old(context.products)
    ensures r.Ok? ==> (GetById(context, id) ==
      if model.categoryId in context.categories then Ok(Joined(model, context.categories)) else NotFound)
  {
    var decision := Authorize(PolicyOf(PutAction), caller);
    if !decision.Allow? {
      return Denied(decision);
    }
    if id != model.id {
      return NotFound;
    }
    if !IsValidProduct(model) {
      return ValidationFailed(ProductViolations(model));
    }
    // Marking the entity modified and saving: a row that is gone is a concurrency failure.
    if id !in context.products {
      return ConcurrencyConflict;
    }
    if saveFails {
      return PersistenceFailed;
    }
    context.products := context.products[id := Row(model)];
    r := Ok(Row(model));
  }

  /** Deletes the product `id`: `NotFound` when absent, otherwise exactly that key is removed. */
  method Delete(context: DataContext, caller: Caller, id: int, saveFails: bool)
    returns (r: Outcome<()>)
    requires context.Valid()
    modifies context
    ensures context.Valid()
    ensures context.categories == old(context.categories)
    ensures context.nextCategoryId == old(context.nextCategoryId) && context.nextProductId == old(context.nextProductId)
    ensures Authorize(PolicyOf(DeleteAction), caller) != Allow ==>
      r == Denied(Authorize(PolicyOf(DeleteAction), caller))
    ensures Authorize(PolicyOf(DeleteAction), caller) == Allow && id !in old(context.products) ==> r == NotFound
    ensures Authorize(PolicyOf(DeleteAction), caller) == Allow && id in old(context.products) ==>
      r == if saveFails then PersistenceFailed else Ok(())
    ensures context.products == if r.Ok? then old(context.products) - {id} else old(context.products)
    ensures r.Ok? ==> GetById(context, id) == NotFound
  {
    var decision := Authorize(PolicyOf(DeleteAction), caller);
    if !decision.Allow? {
      return Denied(decision);
    }
    if id !in context.products {
      return NotFound;
    }
    if saveFails {
      return PersistenceFailed;
    }
    context.products := context.products - {id};
    r := Ok(());
  }
}
