/** The editorial panel of `src/pages/Admin.tsx`: the admin login form, the reload of
    the four admin lists, the recipe form and the create, delete and visibility-toggle
    actions. Each handler takes the settled outcomes of the calls it makes. */
module AdminPage {
  import opened Wrappers
  import opened Api
  import Session
  import FanIn

  type AdminData = Session.AdminBootstrap

  datatype Page = Page(
    data: Option<AdminData>,
    error: Option<string>,
    loading: bool,
    form: RecipePayload,
    submitting: bool)

  /** The empty recipe form. */
  const DefaultRecipe: RecipePayload := RecipePayload("", "", "", false)

  const InitialPage: Page := Page(None, None, false, DefaultRecipe, false)

  const LoadFallback: string := "Não foi possível carregar os dados administrativos agora."
  const LoginFallback: string := "Credenciais inválidas. Verifique usuário e senha."
  const CreateFallback: string := "Não foi possível criar a receita agora."
  const DeleteFallback: string := "Não foi possível excluir a receita."
  const ToggleFallback: string := "Não foi possível atualizar a receita."

  /** `loadAdminData(header)` once the four reads settled: the panel data is replaced only
      when all four succeeded; otherwise the previous data stays and the error is shown. */
  function LoadAdminData(p: Page, o: Session.BootstrapOutcomes): (r: Page)
    requires FanIn.IsSettleOrder(o.settleOrder, 4)
    ensures r.form == p.form && r.submitting == p.submitting && !r.loading
    ensures r.error.None? <==> o.recipes.Success? && o.stats.Success? && o.users.Success? && o.payments.Success?
    ensures r.error.None? ==>
      r.data == Some(Session.AdminBootstrap(o.recipes.value, o.stats.value, o.users.value, o.payments.value))
    ensures r.error.Some? ==>
      && r.data == p.data
      && exists e :: Some(e) in Session.BootstrapErrors(o) && r.error == Some(ErrorText(e, LoadFallback))
  {
    match Session.JoinBootstrap(o)
    case Success(d) => p.(data := Some(d), error := None, loading := false)
    case Failure(e) => p.(error := Some(ErrorText(e, LoadFallback)), loading := false)
  }

  /** `handleLoginSubmit` once `adminLogin` settled with `result`. When it rejects (no
      Base64 encoder) the rejection is not caught and the form stays busy. */
  function HandleLoginSubmit(p: Page, result: Session.AdminLoginOutcome): (r: Page)
    ensures r.form == p.form && r.submitting == p.submitting
    ensures result.Escaped? ==> r == p.(error := None, loading := true)
    ensures result.Settled? && !result.success ==>
      r == p.(error := Some(result.error.GetOr(LoginFallback)), loading := false)
    ensures result.Settled? && result.success && result.data.Some? ==>
      r == p.(data := result.data, error := None, loading := false)
  {
    match result
    case Escaped(_) => p.(error := None, loading := true)
    case Settled(_, success, error, data) =>
      if !success then p.(error := Some(error.GetOr(LoginFallback)), loading := false)
      else p.(data := data, error := None, loading := false)
  }

  /** Submitting the admin login form with the session's `adminLogin`: the panel data
      appears exactly when all four bootstrap reads succeed, together with the admin
      session; a failure shows the reason and keeps whatever data was on screen. */
  lemma LoginSubmitWithSession(p: Page, s: Session.State, username: string, password: string, o: Session.BootstrapOutcomes)
    requires FanIn.IsSettleOrder(o.settleOrder, 4)
    ensures var res := Session.AdminLogin(s, username, password, true, o);
      var r := HandleLoginSubmit(p, res);
      && (r.error.None? <==> res.success)
      && (res.success <==> o.recipes.Success? && o.stats.Success? && o.users.Success? && o.payments.Success?)
      && (res.success ==>
            res.state.admin == Some(Session.AdminAuth(username, password, Session.BasicHeader(username, password))))
      && (res.success ==> r.data == Some(Session.AdminBootstrap(o.recipes.value, o.stats.value, o.users.value, o.payments.value)))
      && (!res.success ==> r.data == p.data && r.error.Some? && res.state == s)
      && !r.loading
  {
  }

  /** The state change the `admin` effect makes: the panel data is dropped once the admin
      session is gone. */
  function OnAdminChange(p: Page, admin: Option<Session.AdminAuth>): (r: Page)
    ensures admin.None? ==> r == p.(data := None)
    ensures admin.Some? ==> r == p
  {
    if admin.None? then p.(data := None) else p
  }

  /** The "end admin session" button: the session forgets the admin, the page its data. */
  function EndAdminSession(s: Session.State, p: Page): (r: (Session.State, Page))
    ensures r.0.admin.None? && r.0.user == s.user
    ensures r.1 == p.(data := None)
  {
    (Session.ClearAdmin(s), p.(data := None))
  }

  /** The form's visibility button. */
  function FlipFormVisibility(p: Page): (r: Page)
    ensures r.form.isPublic == !p.form.isPublic
    ensures r.form.title == p.form.title && r.form.content == p.form.content && r.form.category == p.form.category
    ensures r.data == p.data && r.error == p.error && r.loading == p.loading && r.submitting == p.submitting
  {
    p.(form := p.form.(isPublic := !p.form.isPublic))
  }

  /** All four reads of a reload succeeded. */
  predicate ReloadSucceeded(o: Session.BootstrapOutcomes) {
    o.recipes.Success? && o.stats.Success? && o.users.Success? && o.payments.Success?
  }

  /** A stored recipe holds exactly what a create or update payload sent. */
  predicate Stores(rec: Recipe, payload: RecipePayload) {
    && rec.title == payload.title && rec.content == payload.content
    && rec.category == Some(payload.category) && rec.isPublic == payload.isPublic
  }

  /** `handleCreateRecipe`: `created` is how `createAdminRecipe` settled and `reload` how
      the reload after it did. */
  function HandleCreate(p: Page, admin: Option<Session.AdminAuth>, created: Result<(), Thrown>, reload: Session.BootstrapOutcomes): (r: Page)
    requires FanIn.IsSettleOrder(reload.settleOrder, 4)
    ensures admin.None? ==> r == p
    ensures admin.Some? ==> !r.submitting
    ensures admin.Some? && created.Success? ==>
      r == LoadAdminData(p.(form := DefaultRecipe, error := None), reload).(submitting := false)
    ensures admin.Some? && created.Failure? ==>
      r == p.(error := Some(ErrorText(created.error, CreateFallback)), submitting := false)
  {
    if admin.None? then p
    else
      var started := p.(submitting := true, error := None);
      match created
      case Success(_) => LoadAdminData(started.(form := DefaultRecipe), reload).(submitting := false)
      case Failure(e) => started.(error := Some(ErrorText(e, CreateFallback)), submitting := false)
  }

  /** The form is cleared exactly when the recipe was created; a failure keeps the typed values. */
  lemma CreateResetsForm(p: Page, admin: Option<Session.AdminAuth>, created: Result<(), Thrown>, reload: Session.BootstrapOutcomes)
    requires FanIn.IsSettleOrder(reload.settleOrder, 4)
    requires admin.Some?
    ensures created.Success? ==> HandleCreate(p, admin, created, reload).form == DefaultRecipe
    ensures created.Failure? ==> HandleCreate(p, admin, created, reload).form == p.form
  {
  }

  /** After a successful create the form is empty whatever the reload did. When the
      reload succeeds and the server lists the new recipe, the panel shows a recipe holding
      what the form sent. When a reload read fails, the panel keeps its old data and shows
      the error, although the recipe was created. */
  lemma CreateThenReload(p: Page, admin: Option<Session.AdminAuth>, reload: Session.BootstrapOutcomes)
    requires FanIn.IsSettleOrder(reload.settleOrder, 4)
    requires admin.Some?
    ensures var r := HandleCreate(p, admin, Success(()), reload);
      && r.form == DefaultRecipe && !r.submitting
      && (ReloadSucceeded(reload) && (exists x :: x in reload.recipes.value && Stores(x, p.form)) ==>
            r.error.None? && r.data.Some? && exists x :: x in r.data.value.recipes && Stores(x, p.form))
      && (!ReloadSucceeded(reload) ==> r.data == p.data && r.error.Some?)
  {
  }

  /** `handleDeleteRecipe(id)`: `deleted` is how `deleteAdminRecipe` settled. */
  function HandleDelete(p: Page, admin: Option<Session.AdminAuth>, deleted: Result<(), Thrown>, reload: Session.BootstrapOutcomes): (r: Page)
    requires FanIn.IsSettleOrder(reload.settleOrder, 4)
    ensures admin.None? ==> r == p
    ensures admin.Some? ==> !r.loading && r.form == p.form
    ensures admin.Some? && deleted.Success? ==> r == LoadAdminData(p, reload)
    ensures admin.Some? && deleted.Failure? ==>
      r == p.(error := Some(ErrorText(deleted.error, DeleteFallback)), loading := false)
  {
    if admin.None? then p
    else
      match deleted
      case Success(_) => LoadAdminData(p.(loading := true), reload).(loading := false)
      case Failure(e) => p.(error := Some(ErrorText(e, DeleteFallback)), loading := false)
  }

  /** After a successful delete whose reload no longer lists the id, no recipe on the panel
      has that id; a failed reload keeps the old list and shows the error. */
  lemma DeleteThenReload(p: Page, admin: Option<Session.AdminAuth>, reload: Session.BootstrapOutcomes, id: int)
    requires FanIn.IsSettleOrder(reload.settleOrder, 4)
    requires admin.Some?
    ensures var r := HandleDelete(p, admin, Success(()), reload);
      && (ReloadSucceeded(reload) && (forall x :: x in reload.recipes.value ==> x.id != id) ==>
            r.data.Some? && forall x :: x in r.data.value.recipes ==> x.id != id)
      && (!ReloadSucceeded(reload) ==> r.data == p.data && r.error.Some?)
  {
  }

  /** The payload `handleToggleRecipeVisibility` sends: the same text, the category or
      `"geral"` when it has none, and the opposite visibility. */
  function TogglePayload(recipe: Recipe): (payload: RecipePayload)
    ensures payload.title == recipe.title && payload.content == recipe.content
    ensures payload.isPublic == !recipe.isPublic
    ensures recipe.category.Some? ==> payload.category == recipe.category.value
    ensures recipe.category.None? ==> payload.category == DefaultCategory
  {
    RecipePayload(recipe.title, recipe.content, recipe.category.GetOr(DefaultCategory), !recipe.isPublic)
  }

  /** The recipe as the server stores it after an update with `payload`. */
  function Updated(recipe: Recipe, payload: RecipePayload): (r: Recipe)
    ensures r.id == recipe.id && Stores(r, payload)
  {
    Recipe(recipe.id, payload.title, payload.content, Some(payload.category), payload.isPublic)
  }

  /** Toggling twice restores the visibility and the text, and pins a missing category to
      `"geral"`. */
  lemma ToggleTwice(recipe: Recipe)
    ensures var once := Updated(recipe, TogglePayload(recipe));
      var twice := Updated(once, TogglePayload(once));
      && twice.isPublic == recipe.isPublic
      && twice.title == recipe.title && twice.content == recipe.content
      && twice.category == Some(recipe.category.GetOr(DefaultCategory))
  {
  }

  /** The call the toggle makes, if any. */
  function ToggleCall(admin: Option<Session.AdminAuth>, recipe: Recipe): (e: Option<Endpoint>)
    ensures e.None? <==> admin.None?
    ensures e.Some? ==> e.value == UpdateAdminRecipe(admin.value.header, recipe.id, TogglePayload(recipe))
  {
    match admin
    case None => None
    case Some(a) => Some(UpdateAdminRecipe(a.header, recipe.id, TogglePayload(recipe)))
  }

  /** After a successful toggle whose reload lists the recipe as the server stored it, the
      panel shows that recipe with the same id and text and the opposite visibility. */
  lemma ToggleThenReload(p: Page, admin: Option<Session.AdminAuth>, reload: Session.BootstrapOutcomes, recipe: Recipe)
    requires FanIn.IsSettleOrder(reload.settleOrder, 4)
    requires admin.Some?
    ensures var r := HandleToggle(p, admin, Success(()), reload);
      && (ReloadSucceeded(reload) && Updated(recipe, TogglePayload(recipe)) in reload.recipes.value ==>
            r.data.Some? &&
            exists x :: x in r.data.value.recipes && x.id == recipe.id && x.isPublic == !recipe.isPublic
                        && x.title == recipe.title && x.content == recipe.content)
      && (!ReloadSucceeded(reload) ==> r.data == p.data && r.error.Some?)
  {
  }

  /** `handleToggleRecipeVisibility(recipe)`: `updated` is how `updateAdminRecipe` settled. */
  function HandleToggle(p: Page, admin: Option<Session.AdminAuth>, updated: Result<(), Thrown>, reload: Session.BootstrapOutcomes): (r: Page)
    requires FanIn.IsSettleOrder(reload.settleOrder, 4)
    ensures admin.None? ==> r == p
    ensures admin.Some? ==> !r.loading && r.form == p.form
    ensures admin.Some? && updated.Success? ==> r == LoadAdminData(p, reload)
    ensures admin.Some? && updated.Failure? ==>
      r == p.(error := Some(ErrorText(updated.error, ToggleFallback)), loading := false)
  {
    if admin.None? then p
    else
      match updated
      case Success(_) => LoadAdminData(p.(loading := true), reload).(loading := false)
      case Failure(e) => p.(error := Some(ErrorText(e, ToggleFallback)), loading := false)
  }
}
