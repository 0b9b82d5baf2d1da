/** CategoryService: user categories can be edited and deleted; the
    system-seeded default categories cannot. */
module Categories {
  import opened Common
  import opened Entities
  import opened Requests

  /** CategoryService.getCategory / findById: found only when the category's
      user is the caller (a category with no user is never found this way). */
  function GetCategory(s: Ledger, id: Id, user: UserId): (r: Result<Category>)
    ensures r.Ok? <==> id in s.categories && s.categories[id].owner == Some(user)
    ensures r.Ok? ==> r.value == s.categories[id]
    ensures r.Err? ==> r.error == NotFound("Category not found")
  {
    if id in s.categories && s.categories[id].owner == Some(user) then Ok(s.categories[id])
    else Err(NotFound("Category not found"))
  }

  /** CategoryRepository.findAllByUserIdOrDefault: the user's own categories
      together with every default one. */
  predicate Visible(c: Category, user: UserId) {
    c.owner == Some(user) || c.isDefault
  }

  /** CategoryService.findAll. */
  function FindAll(s: Ledger, user: UserId): (rows: seq<Category>)
    ensures forall i :: 0 <= i < |rows| ==> rows[i] in s.categories.Values && Visible(rows[i], user)
    ensures forall k :: k in s.categories && Visible(s.categories[k], user) ==> s.categories[k] in rows
  {
    Select(s.categories, (c: Category) => Visible(c, user))
  }

  /** The list holds every category the user can look up by id, and a
      listed category the user cannot look up is a default one that belongs
      to someone else or to no one. */
  lemma FindAllAgreesWithGetCategory(s: Ledger, user: UserId, k: Id)
    requires k in s.categories
    ensures GetCategory(s, k, user).Ok? ==> s.categories[k] in FindAll(s, user)
    ensures s.categories[k] in FindAll(s, user) && GetCategory(s, k, user).Err? ==>
      s.categories[k].isDefault && s.categories[k].owner != Some(user)
  {
    var rows := FindAll(s, user);
    if s.categories[k] in rows {
      var i :| 0 <= i < |rows| && rows[i] == s.categories[k];
    }
  }

  /** CategoryService.create: a user's category is never a default one. */
  function Create(s: Ledger, req: CategoryRequest, user: UserId, id: Id): (r: (Ledger, Category))
    requires req.Complete()
    requires id !in s.categories
    ensures !r.1.isDefault
    ensures r.1.name == req.name.value && r.1.kind == req.kind.value
    ensures r.1.color == req.color && r.1.icon == req.icon
    ensures GetCategory(r.0, id, user) == Ok(r.1)
    ensures r.0.categories.Keys == s.categories.Keys + {id}
    ensures forall k :: k in s.categories ==> r.0.categories[k] == s.categories[k]
    ensures r.0.(categories := s.categories) == s
  {
    var category := Category(Some(user), req.name.value, req.kind.value, req.color, req.icon, false);
    (s.(categories := s.categories[id := category]), category)
  }

  /** CategoryService.update: replaces name, type, colour and icon of a
      non-default category. */
  function Update(s: Ledger, id: Id, req: CategoryRequest, user: UserId): (r: Result<(Ledger, Category)>)
    requires req.Complete()
    ensures GetCategory(s, id, user).Err? ==> r == Err(NotFound("Category not found"))
    ensures GetCategory(s, id, user).Ok? && s.categories[id].isDefault ==>
      r == Err(Business("Default categories cannot be edited"))
    ensures r.Ok? <==> GetCategory(s, id, user).Ok? && !s.categories[id].isDefault
    ensures r.Ok? ==> r.value.1.name == req.name.value && r.value.1.kind == req.kind.value
                      && r.value.1.color == req.color && r.value.1.icon == req.icon
    ensures r.Ok? ==> r.value.1.isDefault == s.categories[id].isDefault && r.value.1.owner == Some(user)
    ensures r.Ok? ==> r.value.0 == s.(categories := s.categories[id := r.value.1])
  {
    var category :- GetCategory(s, id, user);
    if category.isDefault then Err(Business("Default categories cannot be edited"))
    else
      var updated := category.(name := req.name.value, kind := req.kind.value, color := req.color, icon := req.icon);
      Ok((s.(categories := s.categories[id := updated]), updated))
  }

  /** CategoryService.delete: removes a non-default category. While a
      transaction, a budget or an installment group still points at it, the
      database refuses the delete and the call fails unexpectedly. */
  function Delete(s: Ledger, id: Id, user: UserId): (r: Result<Ledger>)
    ensures GetCategory(s, id, user).Err? ==> r == Err(NotFound("Category not found"))
    ensures GetCategory(s, id, user).Ok? && s.categories[id].isDefault ==>
      r == Err(Business("Default categories cannot be deleted"))
    ensures GetCategory(s, id, user).Ok? && !s.categories[id].isDefault && CategoryReferenced(s, id) ==>
      r.Err? && r.error.Unexpected?
    ensures r.Ok? <==> GetCategory(s, id, user).Ok? && !s.categories[id].isDefault && !CategoryReferenced(s, id)
    ensures r.Ok? ==> r.value == s.(categories := s.categories - {id})
  {
    var category :- GetCategory(s, id, user);
    if category.isDefault then Err(Business("Default categories cannot be deleted"))
    else if CategoryReferenced(s, id) then Err(Unexpected("foreign key violation"))
    else Ok(s.(categories := s.categories - {id}))
  }

  /** A default category survives every edit and delete attempt unchanged:
      whatever succeeds leaves it as it was. */
  lemma DefaultCategoriesAreProtected(s: Ledger, id: Id, k: Id, req: CategoryRequest, user: UserId)
    requires req.Complete()
    requires k in s.categories && s.categories[k].isDefault
    ensures Update(s, id, req, user).Ok? ==>
      (k in Update(s, id, req, user).value.0.categories && Update(s, id, req, user).value.0.categories[k] == s.categories[k])
    ensures Delete(s, id, user).Ok? ==>
      (k in Delete(s, id, user).value.categories && Delete(s, id, user).value.categories[k] == s.categories[k])
  {
  }
}
