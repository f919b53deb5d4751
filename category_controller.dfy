/**
 * The category endpoints. Reads are queries over the categories table; `Post`,
 * `Put` and `Delete` run their checks in a fixed order and change the table only
 * when every check passes and the save succeeds.
 *
 * `saveFails` stands for a save that throws for a reason outside the model
 * (the store itself failing); the outcome is then `PersistenceFailed` and the
 * tables are as before.
 */
module CategoryController {
  import opened Wrappers
  import opened DataAnnotations
  import opened CategoryModel
  import opened Auth
  import opened ActionResults
  import opened Tables
  import opened Data

  datatype Action = GetAction | GetByIdAction | PostAction | PutAction | DeleteAction

  /** The authorization attribute of each action: reads are anonymous, writes need "employee". */
  function PolicyOf(action: Action): (p: Policy)
    ensures p.AllowAnonymous? <==> action.GetAction? || action.GetByIdAction?
    ensures p.RequireRole? ==> p.role == Employee
  {
    match action
    case GetAction => AllowAnonymous
    case GetByIdAction => AllowAnonymous
    case _ => RequireRole(Employee)
  }

  /** Every stored category, unfiltered, each exactly once, in ascending id order. */
  function Get(context: DataContext): (r: Outcome<seq<Category>>)
    reads context
    requires context.Valid()
    ensures r.Ok? && |r.value| == |context.categories|
    ensures forall k :: k in context.categories ==> context.categories[k] in r.value
    ensures forall i :: 0 <= i < |r.value| ==>
      r.value[i].id in context.categories && context.categories[r.value[i].id] == r.value[i]
    ensures forall i, j :: 0 <= i < j < |r.value| ==> r.value[i].id < r.value[j].id
  {
    Ok(Rows(context.categories))
  }

  /** The category whose `Id` is `id`, or `NotFound` when there is none. */
  function GetById(context: DataContext, id: int): (r: Outcome<Category>)
    reads context
    requires context.Valid()
    ensures r.Ok? || r.NotFound?
    ensures r.Ok? <==> HasCategory(context.categories, id)
    ensures r.Ok? ==> r.value.id == id && id in context.categories && r.value == context.categories[id]
  {
    if id in context.categories then Ok(context.categories[id])
    else
      assert !HasCategory(context.categories, id);
      NotFound
  }

  /**
   * Creates a category. After the role check, an invalid model is rejected with
   * its violations; a valid one is added under the id the store gives it.
   */
  method Post(context: DataContext, caller: Caller, model: Category, saveFails: bool)
    returns (r: Outcome<Category>)
    requires context.Valid()
    modifies context
    ensures context.Valid()
    ensures context.products == old(context.products) && context.nextProductId == old(context.nextProductId)
    ensures Authorize(PolicyOf(PostAction), caller) != Allow ==>
      r == Denied(Authorize(PolicyOf(PostAction), caller))
    ensures Authorize(PolicyOf(PostAction), caller) == Allow && !IsValidCategory(model) ==>
      r == ValidationFailed(CategoryViolations(model))
    ensures Authorize(PolicyOf(PostAction), caller) == Allow && IsValidCategory(model) ==>
      var key := NewKey(model.id, old(context.nextCategoryId));
      r == if key in old(context.categories) || saveFails then PersistenceFailed else Ok(model.(id := key))
    ensures Authorize(PolicyOf(PostAction), caller) == Allow && IsValidCategory(model) && model.id == 0 && !saveFails ==>
      r.Ok?
    ensures r.Ok? ==> r.value.id !in old(context.categories)
    ensures context.categories == if r.Ok? then old(context.categories)[r.value.id := r.value] else old(context.categories)
    ensures r.Ok? ==> GetById(context, r.value.id) == r
    ensures context.nextCategoryId ==
      if r.Ok? then BumpedGenerator(r.value.id, old(context.nextCategoryId))
      else if Authorize(PolicyOf(PostAction), caller) == Allow && IsValidCategory(model) && model.id == 0
      then old(context.nextCategoryId) + 1
      else old(context.nextCategoryId)
  {
    var decision := Authorize(PolicyOf(PostAction), caller);
    if !decision.Allow? {
      return Denied(decision);
    }
    if !IsValidCategory(model) {
      return ValidationFailed(CategoryViolations(model));
    }
    // The id is drawn when the entity is added, before the save.
    var key := NewKey(model.id, context.nextCategoryId);
    if model.id == 0 {
      context.nextCategoryId := context.nextCategoryId + 1;
    }
    if key in context.categories || saveFails {
      return PersistenceFailed;
    }
    var stored := model.(id := key);
    context.categories := context.categories[key := stored];
    context.nextCategoryId := BumpedGenerator(key, context.nextCategoryId);
    r := Ok(stored);
  }

  /**
   * Replaces the category `id` with `model`. The route id must equal the body's
   * id (otherwise `NotFound`, before validation); then the model must be valid;
   * then the row must still be in the store (otherwise a concurrency conflict).
   */
  method Put(context: DataContext, caller: Caller, id: int, model: Category, saveFails: bool)
    returns (r: Outcome<Category>)
    requires context.Valid()
    modifies context
    ensures context.Valid()
    ensures context.products == old(context.products)
    ensures context.nextCategoryId == old(context.nextCategoryId) && context.nextProductId == old(context.nextProductId)
    ensures Authorize(PolicyOf(PutAction), caller) != Allow ==>
      r == Denied(Authorize(PolicyOf(PutAction), caller))
    ensures Authorize(PolicyOf(PutAction), caller) == Allow && id != model.id ==> r == NotFound
    ensures Authorize(PolicyOf(PutAction), caller) == Allow && id == model.id && !IsValidCategory(model) ==>
      r == ValidationFailed(CategoryViolations(model))
    ensures Authorize(PolicyOf(PutAction), caller) == Allow && id == model.id && IsValidCategory(model) ==>
      r == if id !in old(context.categories) then ConcurrencyConflict
           else if saveFails then PersistenceFailed
           else Ok(model)
    ensures context.categories == if r.Ok? then old(context.categories)[id := model] else old(context.categories)
    ensures r.Ok? ==> GetById(context, id) == Ok(model)
  {
    var decision := Authorize(PolicyOf(PutAction), caller);
    if !decision.Allow? {
      return Denied(decision);
    }
    if id != model.id {
      return NotFound;
    }
    if !IsValidCategory(model) {
      return ValidationFailed(CategoryViolations(model));
    }
    // Marking the entity modified and saving: a row that is gone is a concurrency failure.
    if id !in context.categories {
      return ConcurrencyConflict;
    }
    if saveFails {
      return PersistenceFailed;
    }
    context.categories := context.categories[id := model];
    r := Ok(model);
  }

  /**
   * Deletes the category `id`. A missing id is `NotFound`; otherwise exactly that
   * key is removed. Products are not touched, including those that still refer to it.
   */
  method Delete(context: DataContext, caller: Caller, id: int, saveFails: bool)
    returns (r: Outcome<()>)
    requires context.Valid()
    modifies context
    ensures context.Valid()
    ensures context.products == old(context.products)
    ensures context.nextCategoryId == old(context.nextCategoryId) && context.nextProductId == old(context.nextProductId)
    ensures Authorize(PolicyOf(DeleteAction), caller) != Allow ==>
      r == Denied(Authorize(PolicyOf(DeleteAction), caller))
    ensures Authorize(PolicyOf(DeleteAction), caller) == Allow && id !in old(context.categories) ==> r == NotFound
    ensures Authorize(PolicyOf(DeleteAction), caller) == Allow && id in old(context.categories) ==>
      r == if saveFails then PersistenceFailed else Ok(())
    ensures context.categories == if r.Ok? then old(context.categories) - {id} else old(context.categories)
    ensures r.Ok? ==> GetById(context, id) == NotFound
  {
    var decision := Authorize(PolicyOf(DeleteAction), caller);
    if !decision.Allow? {
      return Denied(decision);
    }
    if id !in context.categories {
      return NotFound;
    }
    if saveFails {
      return PersistenceFailed;
    }
    context.categories := context.categories - {id};
    r := Ok(());
  }
}
