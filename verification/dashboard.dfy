/** The member area of `src/pages/Dashboard.tsx`: the recipe list and its grouping by
    category, the rule that clears it for visitors without access, the outcome of the
    "I already paid" check, the payment overlay and the greeting. */
module Dashboard {
  import opened Wrappers
  import opened Strings
  import opened Api
  import Session
  import SignupPage

  const LoadFallback: string := "Nao foi possivel carregar suas receitas agora."

  /** `recipe.category ?? "geral"`: only a missing category falls back; `""` stays `""`. */
  function Key(r: Recipe): (k: string)
    ensures r.category.Some? ==> k == r.category.value
    ensures r.category.None? ==> k == DefaultCategory
  {
    r.category.GetOr(DefaultCategory)
  }

  /** The recipes with key `k`, in input order. */
  function Filter(xs: seq<Recipe>, k: string): (r: seq<Recipe>)
    ensures |r| <= |xs|
    ensures forall i :: 0 <= i < |r| ==> Key(r[i]) == k
  {
    if |xs| == 0 then []
    else if Key(xs[0]) == k then [xs[0]] + Filter(xs[1..], k)
    else Filter(xs[1..], k)
  }

  lemma {:induction false} FilterSnoc(xs: seq<Recipe>, x: Recipe, k: string)
    ensures Filter(xs + [x], k) == Filter(xs, k) + (if Key(x) == k then [x] else [])
    decreases |xs|
  {
    if |xs| == 0 {
      assert xs + [x] == [x];
    } else {
      assert (xs + [x])[1..] == xs[1..] + [x];
      FilterSnoc(xs[1..], x, k);
    }
  }

  /** The index of the first recipe with key `k`, or `|xs|` when there is none. */
  function Position(xs: seq<Recipe>, k: string): (p: nat)
    ensures p <= |xs|
    ensures p < |xs| ==> Key(xs[p]) == k
    ensures forall q :: 0 <= q < p ==> Key(xs[q]) != k
  {
    if |xs| == 0 then 0
    else if Key(xs[0]) == k then 0
    else 1 + Position(xs[1..], k)
  }

  lemma PositionSnoc(xs: seq<Recipe>, x: Recipe, k: string)
    ensures Position(xs, k) < |xs| ==> Position(xs + [x], k) == Position(xs, k)
    ensures Position(xs, k) == |xs| && Key(x) == k ==> Position(xs + [x], k) == |xs|
    ensures Position(xs, k) == |xs| && Key(x) != k ==> Position(xs + [x], k) == |xs| + 1
  {
    var ys := xs + [x];
    var p, p' := Position(xs, k), Position(ys, k);
    assert forall q :: 0 <= q < |xs| ==> ys[q] == xs[q];
    assert ys[|xs|] == x;
    if p < |xs| {
      assert Key(ys[p]) == k;
    } else {
      assert forall q :: 0 <= q < |xs| ==> Key(ys[q]) != k;
    }
  }

  /** A key some recipe carries is found before the end. */
  lemma FilterFound(xs: seq<Recipe>, k: string)
    requires |Filter(xs, k)| > 0
    ensures Position(xs, k) < |xs|
  {
    if Position(xs, k) == |xs| {
      FilterAbsent(xs, k);
    }
  }

  /** The record `recipesByCategory` builds: keys in the order they were assigned. */
  type Groups = seq<(string, seq<Recipe>)>

  function Keys(g: Groups): (ks: seq<string>)
    ensures |ks| == |g| && forall i :: 0 <= i < |g| ==> ks[i] == g[i].0
  {
    seq(|g|, i requires 0 <= i < |g| => g[i].0)
  }

  predicate DistinctKeys(g: Groups) {
    forall i, j :: 0 <= i < j < |g| ==> g[i].0 != g[j].0
  }

  /** `g` groups `xs` by key: one non-empty group per key, each holding exactly the recipes
      with that key in input order, every recipe's key present, and the keys ordered by
      where each first occurs in `xs`. */
  predicate IsGrouping(g: Groups, xs: seq<Recipe>) {
    && DistinctKeys(g)
    && (forall i :: 0 <= i < |g| ==> g[i].1 == Filter(xs, g[i].0) && |g[i].1| > 0)
    && (forall p :: 0 <= p < |xs| ==> Key(xs[p]) in Keys(g))
    && (forall i, j :: 0 <= i < j < |g| ==> Position(xs, g[i].0) < Position(xs, g[j].0))
  }

  /** The index of the group with key `k`, or `|g|` when there is none. */
  function KeyIndex(g: Groups, k: string): (i: nat)
    ensures i <= |g|
    ensures i < |g| ==> g[i].0 == k
    ensures forall j :: 0 <= j < i ==> g[j].0 != k
    ensures i < |g| <==> k in Keys(g)
  {
    if |g| == 0 then 0
    else if g[0].0 == k then 0
    else
      var i := 1 + KeyIndex(g[1..], k);
      assert forall j :: 1 <= j < |g| ==> g[j] == g[1..][j - 1];
      i
  }

  /** `acc[key] = acc[key] ? [...acc[key], recipe] : [recipe]`: an existing key keeps its
      place and gains the recipe at its end; a new key goes last. */
  function Insert(g: Groups, k: string, x: Recipe): (r: Groups)
    requires DistinctKeys(g)
    ensures k in Keys(g) ==>
      && |r| == |g|
      && forall i :: 0 <= i < |g| ==>
           r[i].0 == g[i].0 && r[i].1 == (if g[i].0 == k then g[i].1 + [x] else g[i].1)
    ensures k !in Keys(g) ==> r == g + [(k, [x])]
  {
    var i := KeyIndex(g, k);
    if i == |g| then g + [(k, [x])]
    else g[i := (k, g[i].1 + [x])]
  }

  /** Each group of `g` was found before the end of `xs`. */
  lemma GroupsFound(g: Groups, xs: seq<Recipe>)
    requires IsGrouping(g, xs)
    ensures forall i :: 0 <= i < |g| ==> Position(xs, g[i].0) < |xs|
  {
    forall i | 0 <= i < |g| ensures Position(xs, g[i].0) < |xs| {
      FilterFound(xs, g[i].0);
    }
  }

  /** Joining an existing group keeps every key in place and extends just that group. */
  lemma InsertExistingFilters(g: Groups, xs: seq<Recipe>, x: Recipe)
    requires IsGrouping(g, xs) && Key(x) in Keys(g)
    ensures var r := Insert(g, Key(x), x);
      && |r| == |g|
      && (forall i :: 0 <= i < |r| ==> r[i].0 == g[i].0)
      && (forall i :: 0 <= i < |r| ==> r[i].1 == Filter(xs + [x], r[i].0) && |r[i].1| > 0)
  {
    var r := Insert(g, Key(x), x);
    forall i | 0 <= i < |r| ensures r[i].1 == Filter(xs + [x], r[i].0) && |r[i].1| > 0 {
      FilterSnoc(xs, x, r[i].0);
    }
  }

  /** Joining an existing group changes no key's first occurrence. */
  lemma InsertExistingOrder(g: Groups, xs: seq<Recipe>, x: Recipe)
    requires IsGrouping(g, xs) && Key(x) in Keys(g)
    ensures var r := Insert(g, Key(x), x);
      forall i, j :: 0 <= i < j < |r| ==> Position(xs + [x], r[i].0) < Position(xs + [x], r[j].0)
  {
    var r := Insert(g, Key(x), x);
    GroupsFound(g, xs);
    forall i | 0 <= i < |r| ensures Position(xs + [x], r[i].0) == Position(xs, g[i].0) {
      PositionSnoc(xs, x, g[i].0);
    }
  }

  /** Joining an existing group leaves every recipe's key, the new one's included, with a group. */
  lemma InsertExistingCovers(g: Groups, xs: seq<Recipe>, x: Recipe)
    requires IsGrouping(g, xs) && Key(x) in Keys(g)
    ensures var r := Insert(g, Key(x), x);
      forall p :: 0 <= p < |xs + [x]| ==> Key((xs + [x])[p]) in Keys(r)
  {
    var ys, r := xs + [x], Insert(g, Key(x), x);
    assert Keys(r) == Keys(g);
    forall p | 0 <= p < |ys| ensures Key(ys[p]) in Keys(r) {
      if p < |xs| { assert ys[p] == xs[p]; }
    }
  }

  /** A recipe whose key already has a group joins that group. */
  lemma InsertExisting(g: Groups, xs: seq<Recipe>, x: Recipe)
    requires IsGrouping(g, xs) && Key(x) in Keys(g)
    ensures IsGrouping(Insert(g, Key(x), x), xs + [x])
  {
    InsertExistingFilters(g, xs, x);
    InsertExistingOrder(g, xs, x);
    InsertExistingCovers(g, xs, x);
  }

  /** A key no recipe carries yet is found at the end. */
  lemma NewKeyAtEnd(g: Groups, xs: seq<Recipe>, k: string)
    requires IsGrouping(g, xs) && k !in Keys(g)
    ensures Position(xs, k) == |xs| && Filter(xs, k) == []
  {
    FilterAbsent(xs, k);
  }

  /** The new key's first occurrence comes after every existing key's. */
  lemma InsertNewOrder(g: Groups, xs: seq<Recipe>, x: Recipe)
    requires IsGrouping(g, xs) && Key(x) !in Keys(g)
    ensures var r := g + [(Key(x), [x])];
      forall i, j :: 0 <= i < j < |r| ==> Position(xs + [x], r[i].0) < Position(xs + [x], r[j].0)
  {
    var k, ys := Key(x), xs + [x];
    var r := g + [(k, [x])];
    GroupsFound(g, xs);
    NewKeyAtEnd(g, xs, k);
    forall i | 0 <= i < |g| ensures Position(ys, g[i].0) == Position(xs, g[i].0) {
      PositionSnoc(xs, x, g[i].0);
    }
    PositionSnoc(xs, x, k);
    forall i, j | 0 <= i < j < |r| ensures Position(ys, r[i].0) < Position(ys, r[j].0) {
      assert r[i] == g[i];
      if j < |g| {
        assert r[j] == g[j];
      }
    }
  }

  /** The new group holds just the new recipe; the old groups keep their members. */
  lemma InsertNewFilters(g: Groups, xs: seq<Recipe>, x: Recipe)
    requires IsGrouping(g, xs) && Key(x) !in Keys(g)
    ensures var r := g + [(Key(x), [x])];
      forall i :: 0 <= i < |r| ==> r[i].1 == Filter(xs + [x], r[i].0) && |r[i].1| > 0
  {
    var k, ys := Key(x), xs + [x];
    var r := g + [(k, [x])];
    NewKeyAtEnd(g, xs, k);
    forall i | 0 <= i < |r| ensures r[i].1 == Filter(ys, r[i].0) && |r[i].1| > 0 {
      FilterSnoc(xs, x, r[i].0);
      if i < |g| {
        assert r[i] == g[i];
      }
    }
  }

  /** Every recipe's key, the new one's included, has a group. */
  lemma InsertNewCovers(g: Groups, xs: seq<Recipe>, x: Recipe)
    requires forall p :: 0 <= p < |xs| ==> Key(xs[p]) in Keys(g)
    ensures var r := g + [(Key(x), [x])];
      forall p :: 0 <= p < |xs + [x]| ==> Key((xs + [x])[p]) in Keys(r)
  {
    var ys, r := xs + [x], g + [(Key(x), [x])];
    assert Keys(r) == Keys(g) + [Key(x)];
    forall p | 0 <= p < |ys| ensures Key(ys[p]) in Keys(r) {
      if p < |xs| { assert ys[p] == xs[p]; }
    }
  }

  /** A recipe with a new key opens a group at the end. */
  lemma InsertNew(g: Groups, xs: seq<Recipe>, x: Recipe)
    requires IsGrouping(g, xs) && Key(x) !in Keys(g)
    ensures IsGrouping(Insert(g, Key(x), x), xs + [x])
  {
    InsertNewFilters(g, xs, x);
    InsertNewOrder(g, xs, x);
    InsertNewCovers(g, xs, x);
    assert DistinctKeys(g + [(Key(x), [x])]);
  }

  /** Adding one more recipe at the end keeps the grouping. */
  lemma InsertKeepsGrouping(g: Groups, xs: seq<Recipe>, x: Recipe)
    requires IsGrouping(g, xs)
    ensures IsGrouping(Insert(g, Key(x), x), xs + [x])
  {
    if Key(x) in Keys(g) {
      InsertExisting(g, xs, x);
    } else {
      InsertNew(g, xs, x);
    }
  }

  /** A key with no recipe before `Position` has no recipe at all when it is `|xs|`. */
  lemma {:induction false} FilterAbsent(xs: seq<Recipe>, k: string)
    requires Position(xs, k) == |xs|
    ensures Filter(xs, k) == []
    decreases |xs|
  {
    if |xs| > 0 {
      FilterAbsent(xs[1..], k);
    }
  }

  /** `recipes.reduce(...)` into `recipesByCategory`. */
  function Group(xs: seq<Recipe>): (g: Groups)
    ensures IsGrouping(g, xs)
    decreases |xs|
  {
    if |xs| == 0 then []
    else
      var init := xs[..|xs| - 1];
      var last := xs[|xs| - 1];
      var prev := Group(init);
      InsertLastKeepsGrouping(prev, xs);
      Insert(prev, Key(last), last)
  }

  /** The grouping step for the last recipe of `xs`. */
  lemma InsertLastKeepsGrouping(g: Groups, xs: seq<Recipe>)
    requires |xs| > 0 && IsGrouping(g, xs[..|xs| - 1])
    ensures DistinctKeys(g)
    ensures IsGrouping(Insert(g, Key(xs[|xs| - 1]), xs[|xs| - 1]), xs)
  {
    assert xs[..|xs| - 1] + [xs[|xs| - 1]] == xs;
    InsertKeepsGrouping(g, xs[..|xs| - 1], xs[|xs| - 1]);
  }

  function TotalSize(g: Groups): nat {
    if |g| == 0 then 0 else |g[0].1| + TotalSize(g[1..])
  }

  lemma {:induction false} TotalSizeUpdate(g: Groups, i: nat, e: (string, seq<Recipe>))
    requires i < |g|
    ensures TotalSize(g[i := e]) == TotalSize(g) - |g[i].1| + |e.1|
    decreases |g|
  {
    if i > 0 {
      TotalSizeUpdate(g[1..], i - 1, e);
      assert g[i := e][1..] == g[1..][i - 1 := e];
    } else {
      assert g[i := e][1..] == g[1..];
    }
  }

  lemma {:induction false} TotalSizeSnoc(g: Groups, e: (string, seq<Recipe>))
    ensures TotalSize(g + [e]) == TotalSize(g) + |e.1|
    decreases |g|
  {
    if |g| > 0 {
      TotalSizeSnoc(g[1..], e);
      assert (g + [e])[1..] == g[1..] + [e];
    } else {
      assert (g + [e])[1..] == [];
    }
  }

  /** The property names a `{}` literal inherits from `Object.prototype` (section 20.1.3
      of ECMA-262, with the accessors of its Annex B). */
  const PrototypeNames: set<string> := {
    "constructor", "hasOwnProperty", "isPrototypeOf", "propertyIsEnumerable",
    "toLocaleString", "toString", "valueOf", "__proto__",
    "__defineGetter__", "__defineSetter__", "__lookupGetter__", "__lookupSetter__"}

  predicate IsPrototypeName(k: string) {
    k in PrototypeNames
  }

  /** The reduce as the page writes it, on an accumulator that starts as `{}`. Reading
      `acc[key]` for an inherited name finds a function, or `Object.prototype` itself for
      `__proto__`. Either is truthy and not iterable, so spreading it throws a `TypeError`
      (`None`) and the render fails. Any other list groups as `Group` does. */
  function GroupAsWritten(xs: seq<Recipe>): (r: Option<Groups>)
    ensures r.Some? ==> r.value == Group(xs)
    decreases |xs|
  {
    if |xs| == 0 then Some([])
    else
      var init, last := xs[..|xs| - 1], xs[|xs| - 1];
      match GroupAsWritten(init)
      case None => None
      case Some(g) =>
        if IsPrototypeName(Key(last)) then None
        else
          InsertLastKeepsGrouping(g, xs);
          Some(Insert(g, Key(last), last))
  }

  /** The page crashes exactly when some recipe's category is an inherited name. */
  lemma {:induction false} GroupAsWrittenFails(xs: seq<Recipe>)
    ensures GroupAsWritten(xs).None? <==> exists i :: 0 <= i < |xs| && IsPrototypeName(Key(xs[i]))
    decreases |xs|
  {
    if |xs| > 0 {
      var init, last := xs[..|xs| - 1], xs[|xs| - 1];
      GroupAsWrittenFails(init);
      if GroupAsWritten(init).None? {
        var i :| 0 <= i < |init| && IsPrototypeName(Key(init[i]));
        assert init[i] == xs[i];
      } else if IsPrototypeName(Key(last)) {
        assert IsPrototypeName(Key(xs[|xs| - 1]));
      } else {
        forall i | 0 <= i < |xs| ensures !IsPrototypeName(Key(xs[i])) {
          if i < |xs| - 1 {
            assert xs[i] == init[i];
          }
        }
      }
    }
  }

  /** One recipe in a category named `constructor` already crashes the page as written,
      while the intended grouping puts it in a group of its own. */
  lemma PrototypeKeyCrashes(r: Recipe)
    requires r.category == Some("constructor")
    ensures GroupAsWritten([r]).None?
    ensures Group([r]) == [("constructor", [r])]
  {
  }

  lemma InsertSize(g: Groups, k: string, x: Recipe)
    requires DistinctKeys(g)
    ensures TotalSize(Insert(g, k, x)) == TotalSize(g) + 1
  {
    var i := KeyIndex(g, k);
    if i == |g| {
      TotalSizeSnoc(g, (k, [x]));
    } else {
      TotalSizeUpdate(g, i, (k, g[i].1 + [x]));
    }
  }

  /** Every recipe lands in exactly one group: the group sizes add up to the list length. */
  lemma {:induction false} GroupSizesSum(xs: seq<Recipe>)
    ensures TotalSize(Group(xs)) == |xs|
    decreases |xs|
  {
    if |xs| > 0 {
      var init := xs[..|xs| - 1];
      GroupSizesSum(init);
      InsertSize(Group(init), Key(xs[|xs| - 1]), xs[|xs| - 1]);
    }
  }

  /** `categories[0] ?? "geral"`. */
  function FirstCategory(g: Groups): string {
    if |g| == 0 then DefaultCategory else g[0].0
  }

  /** The tab opened first is the first recipe's category, or `"geral"` with no recipes.
      (JavaScript lists integer-like keys such as `"7"` before the others; the grouping keeps
      insertion order, so this holds when no category name is such a key.) */
  lemma FirstCategoryIsFirstRecipe(xs: seq<Recipe>)
    ensures |xs| == 0 ==> FirstCategory(Group(xs)) == DefaultCategory
    ensures |xs| > 0 ==> FirstCategory(Group(xs)) == Key(xs[0])
  {
    if |xs| > 0 {
      FirstGroupIsFirstKey(Group(xs), xs);
    }
  }

  /** In any grouping of a non-empty list the first group is the first recipe's. */
  lemma FirstGroupIsFirstKey(g: Groups, xs: seq<Recipe>)
    requires IsGrouping(g, xs) && |xs| > 0
    ensures |g| > 0 && g[0].0 == Key(xs[0])
  {
    var k := Key(xs[0]);
    assert k in Keys(g);
    var i := KeyIndex(g, k);
    assert Position(xs, g[i].0) == 0;
    assert i == 0;
  }

  /** The dashboard's recipe panel. */
  datatype RecipesView = RecipesView(recipes: seq<Recipe>, error: Option<string>, loading: bool)

  const InitialView: RecipesView := RecipesView([], None, false)

  /** Whether the user may see premium recipes. */
  predicate HasAccess(user: Option<Session.User>) {
    user.Some? && user.value.hasPaid
  }

  /** The request the recipe effect makes: the member's own recipes, for paying members. */
  function RecipesCall(user: Option<Session.User>): (e: Option<Endpoint>)
    ensures e.Some? <==> HasAccess(user)
    ensures e.Some? ==> e.value == ListMyRecipes(user.value.email, user.value.password, None)
  {
    if HasAccess(user) then Some(ListMyRecipes(user.value.email, user.value.password, None)) else None
  }

  /** The recipe effect run for `user`, its call settled with `outcome`. */
  function LoadRecipes(user: Option<Session.User>, v: RecipesView, outcome: Result<seq<Recipe>, Thrown>): (r: RecipesView)
    ensures !HasAccess(user) ==> r == v.(recipes := [])
    ensures HasAccess(user) && outcome.Success? ==> r == RecipesView(outcome.value, None, false)
    ensures HasAccess(user) && outcome.Failure? ==>
      r == RecipesView(v.recipes, Some(ErrorText(outcome.error, LoadFallback)), false)
  {
    if !HasAccess(user) then v.(recipes := [])
    else
      match outcome
      case Success(items) => RecipesView(items, None, false)
      case Failure(e) => RecipesView(v.recipes, Some(ErrorText(e, LoadFallback)), false)
  }

  /** Nobody without access sees recipes: a load for a visitor or an unpaid member empties
      the list whatever the call would have returned, and leaves the error as it was. */
  lemma NoRecipesWithoutAccess(user: Option<Session.User>, v: RecipesView, outcome: Result<seq<Recipe>, Thrown>)
    requires !HasAccess(user)
    ensures LoadRecipes(user, v, outcome).recipes == []
    ensures LoadRecipes(user, v, outcome).error == v.error
  {
  }

  /** The list follows the call: with no call the list is empty; a call that returned
      items shows exactly those; a failed call keeps what was shown. Running the effect
      again on the same answer changes nothing. */
  lemma LoadFollowsCall(user: Option<Session.User>, v: RecipesView, outcome: Result<seq<Recipe>, Thrown>)
    ensures var r := LoadRecipes(user, v, outcome);
      && (RecipesCall(user).None? ==> r.recipes == [])
      && (RecipesCall(user).Some? && outcome.Success? ==> r.recipes == outcome.value && r.error.None?)
      && (RecipesCall(user).Some? && outcome.Failure? ==> r.recipes == v.recipes && r.error.Some?)
      && LoadRecipes(user, r, outcome) == r
  {
  }

  /** A toast notification. */
  datatype Toast = Toast(title: string, description: string, destructive: bool)

  const RetryLater: string := "Tente novamente em alguns instantes."
  const NotVerifiedNow: Toast := Toast("Nao foi possivel verificar agora", RetryLater, true)
  const Confirmed: Toast :=
    Toast("Pagamento confirmado!", "Seu acesso premium foi liberado. Recarregando receitas...", false)
  const Pending: Toast :=
    Toast("Pagamento ainda nao confirmado",
          "A Stripe ainda nao confirmou o pagamento. Aguarde alguns segundos e tente novamente.", false)
  const NotVerifiedTitle: string := "Nao foi possivel verificar"
  const ServerErrorTitle: string := "Erro ao contactar o servidor"

  /** `handleVerifyPayment()`: the toast shown once `refreshUser()` settled with `refreshed`
      (a rejection, or its result, `null` included); no toast without a user. */
  function VerifyPayment(user: Option<Session.User>, refreshed: Result<Option<Session.LoginResult>, Thrown>): (t: Option<Toast>)
    ensures user.None? <==> t.None?
    ensures user.Some? && refreshed == Success(None) ==> t == Some(NotVerifiedNow)
    ensures user.Some? && refreshed.Success? && refreshed.value.Some? ==>
      var res := refreshed.value.value;
      && (res.success && res.hasPaid ==> t == Some(Confirmed))
      && (res.success && !res.hasPaid ==> t == Some(Pending))
      && (!res.success ==> t == Some(Toast(NotVerifiedTitle, res.error.GetOr(RetryLater), true)))
    ensures user.Some? && refreshed.Failure? ==>
      t == Some(Toast(ServerErrorTitle, ErrorText(refreshed.error, RetryLater), true))
    ensures t.Some? && !t.value.destructive ==> t.value.title in {Confirmed.title, Pending.title}
  {
    if user.None? then None
    else
      match refreshed
      case Failure(e) => Some(Toast(ServerErrorTitle, ErrorText(e, RetryLater), true))
      case Success(None) => Some(NotVerifiedNow)
      case Success(Some(res)) =>
        if res.success then Some(if res.hasPaid then Confirmed else Pending)
        else Some(Toast(NotVerifiedTitle, res.error.GetOr(RetryLater), true))
  }

  /** With the session's own `refreshUser`, which never rejects and returns `null` only
      without a user, the check confirms payment exactly when the server reports it, and
      a failure shows the reason the session reported. */
  lemma VerifyAfterRefresh(s: Session.State, outcome: Result<LoginResponse, Thrown>)
    requires s.user.Some?
    ensures var t := VerifyPayment(s.user, Success(Session.Refresh(s, outcome).result));
      && t.Some?
      && t.value != NotVerifiedNow
      && t.value.title != ServerErrorTitle
      && (t.value == Confirmed <==> outcome.Success? && outcome.value.hasPaid)
      && (t.value == Pending <==> outcome.Success? && !outcome.value.hasPaid)
      && (outcome.Failure? ==>
            t.value == Toast(NotVerifiedTitle, ErrorText(outcome.error, Session.RefreshFallback), true))
  {
    var res := Session.Refresh(s, outcome).result;
    assert res.Some?;
    assert Confirmed != Pending;
    if outcome.Failure? {
      assert res.value.error == Some(ErrorText(outcome.error, Session.RefreshFallback));
    }
  }

  /** The payment overlay covers the dashboard exactly for members who have not paid. */
  function ShowPaymentOverlay(u: Session.User): (show: bool)
    ensures show <==> !HasAccess(Some(u))
  {
    !u.hasPaid
  }

  /** `user.email.split("@")[0]`: the part of the address before its first `@`. */
  function GreetingName(email: string): (name: string)
    ensures '@' !in name && name <= email
    ensures |name| < |email| ==> email[|name|] == '@'
  {
    Split(email, '@')[0]
  }

  lemma GreetingOfAddress(local: string, domain: string)
    requires '@' !in local
    ensures GreetingName(local + "@" + domain) == local
  {
    BeforeFirstThen(local, '@', domain);
    assert local + "@" + domain == local + ['@'] + domain;
  }

  /** The redirect effect: a visitor without a session is sent to `/login`, replacing the
      history entry. */
  function LoginRedirect(user: Option<Session.User>): (nav: Option<SignupPage.Nav>)
    ensures nav.Some? <==> user.None?
    ensures nav.Some? ==> nav.value.path == "/login" && nav.value.replace
  {
    if user.None? then Some(SignupPage.Nav("/login", true)) else None
  }
}
