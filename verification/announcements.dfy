/** The notice board of `src/hooks/use-announcements.ts`: a list kept in the
    browser's local storage, read once on mount with a fallback to two built-in
    notices, grown by prepending and shrunk by removing an id. */
module Announcements {
  import opened Wrappers
  import opened Strings

  datatype Announcement = Announcement(id: string, title: string, content: string, createdAt: string)

  const StorageKey: string := "love-recipes-announcements"
  const RequiredFields: string := "Titulo e conteudo sao obrigatorios"
  const IdPrefix: string := "announcement_"

  /** The two built-in notices; their timestamps come from the clock at load time
      (`now` and one day earlier). */
  function Defaults(now: string, dayBefore: string): seq<Announcement>
  {
    [ Announcement("sample-1", "Desafio da semana",
        "Explore o ritual de 10 minutos focado em reconhecimento mutuo. Ideal para reaproximar depois de um dia corrido.",
        now),
      Announcement("sample-2", "Atualizacao do ebook",
        "Receitas de reconexao rapida foram aprimoradas com novos prompts de conversa.",
        dayBefore) ]
  }

  /** What `JSON.parse` made of the stored text. */
  datatype Parsed = ParseThrows | NotArray | ArrayOf(items: seq<Announcement>)

  /** What reading local storage found: no `window` (server rendering), a storage access
      that threw, or the stored text (`null` when absent) and its parse. */
  datatype Storage = NoWindow | StorageThrows | Stored(raw: Option<string>, parsed: Parsed)

  /** Storage holds a non-empty text that parsed to a non-empty array. */
  predicate HoldsList(store: Storage) {
    && store.Stored? && store.raw.Some? && store.raw.value != ""
    && store.parsed.ArrayOf? && |store.parsed.items| > 0
  }

  /** `readAnnouncements()`: the stored list when there is one, the defaults otherwise. */
  function Read(store: Storage, defaults: seq<Announcement>): (r: seq<Announcement>)
    ensures HoldsList(store) ==> r == store.parsed.items
    ensures !HoldsList(store) ==> r == defaults
    ensures |defaults| > 0 ==> |r| > 0
  {
    match store
    case NoWindow => defaults
    case StorageThrows => defaults
    case Stored(raw, parsed) =>
      if raw.None? || raw.value == "" then defaults
      else match parsed
        case ArrayOf(items) => if |items| == 0 then defaults else items
        case _ => defaults
  }

  /** The list to show and the list written back to storage. */
  datatype ListUpdate = ListUpdate(shown: seq<Announcement>, persisted: seq<Announcement>)

  /** `addAnnouncement(title, content)` on the list `prev`; `uniqueId` and `createdAt`
      stand for the random UUID (or time-based id) and the clock. */
  function Add(prev: seq<Announcement>, title: string, content: string, uniqueId: string, createdAt: string)
    : (r: Result<ListUpdate, string>)
    ensures r.Failure? <==> Trim(title) == "" || Trim(content) == ""
    ensures r.Failure? ==> r.error == RequiredFields
    ensures r.Success? ==>
      && r.value.shown == r.value.persisted
      && |r.value.shown| == |prev| + 1
      && r.value.shown[1..] == prev
      && r.value.shown[0].title == Trim(title) && r.value.shown[0].content == Trim(content)
      && IdPrefix <= r.value.shown[0].id
      && r.value.shown[0].createdAt == createdAt
  {
    var t, c := Trim(title), Trim(content);
    if t == "" || c == "" then Failure(RequiredFields)
    else
      var next := [Announcement(IdPrefix + uniqueId, t, c, createdAt)] + prev;
      Success(ListUpdate(next, next))
  }

  /** The items whose id is not `id`, in their order. */
  function WithoutId(xs: seq<Announcement>, id: string): (r: seq<Announcement>)
    ensures |r| <= |xs|
    ensures forall i :: 0 <= i < |r| ==> r[i].id != id
  {
    if |xs| == 0 then []
    else if xs[0].id == id then WithoutId(xs[1..], id)
    else [xs[0]] + WithoutId(xs[1..], id)
  }

  /** Filtering keeps order: it distributes over concatenation. */
  lemma {:induction false} WithoutIdAppend(xs: seq<Announcement>, ys: seq<Announcement>, id: string)
    ensures WithoutId(xs + ys, id) == WithoutId(xs, id) + WithoutId(ys, id)
    decreases |xs|
  {
    if |xs| == 0 {
      assert xs + ys == ys;
    } else {
      var zs := xs + ys;
      assert zs[0] == xs[0] && zs[1..] == xs[1..] + ys;
      WithoutIdAppend(xs[1..], ys, id);
      if xs[0].id != id {
        var a, b := WithoutId(xs[1..], id), WithoutId(ys, id);
        assert [xs[0]] + (a + b) == ([xs[0]] + a) + b;
      }
    }
  }

  /** Filtering counts: each item other than those with `id` keeps its multiplicity. */
  lemma {:induction false} WithoutIdCount(xs: seq<Announcement>, id: string, a: Announcement)
    ensures multiset(WithoutId(xs, id))[a] == if a.id == id then 0 else multiset(xs)[a]
    decreases |xs|
  {
    if |xs| > 0 {
      var rest := WithoutId(xs[1..], id);
      WithoutIdCount(xs[1..], id, a);
      assert xs == [xs[0]] + xs[1..];
      assert multiset(xs) == multiset([xs[0]]) + multiset(xs[1..]);
      if xs[0].id != id {
        assert multiset(WithoutId(xs, id)) == multiset([xs[0]]) + multiset(rest);
      }
    }
  }

  /** A list with no item of that id passes through unchanged. */
  lemma {:induction false} WithoutAbsentId(xs: seq<Announcement>, id: string)
    requires forall i :: 0 <= i < |xs| ==> xs[i].id != id
    ensures WithoutId(xs, id) == xs
    decreases |xs|
  {
    if |xs| > 0 {
      WithoutAbsentId(xs[1..], id);
    }
  }

  /** `deleteAnnouncement(id)` on the list `prev`: storage receives the filtered list,
      the screen shows it, or the defaults once it is empty. */
  function Delete(prev: seq<Announcement>, id: string, defaults: seq<Announcement>): (r: ListUpdate)
    ensures r.persisted == WithoutId(prev, id)
    ensures |r.persisted| > 0 ==> r.shown == r.persisted
    ensures |r.persisted| == 0 ==> r.shown == defaults
  {
    var next := WithoutId(prev, id);
    ListUpdate(if |next| > 0 then next else defaults, next)
  }

  /** What a later mount reads back from a written list (its JSON text is never empty):
      the list that was shown, whether an add or a delete wrote it. */
  lemma ReloadShowsList(u: ListUpdate, raw: string, defaults: seq<Announcement>)
    requires raw != ""
    requires |u.persisted| > 0 ==> u.shown == u.persisted
    requires |u.persisted| == 0 ==> u.shown == defaults
    ensures Read(Stored(Some(raw), ArrayOf(u.persisted)), defaults) == u.shown
  {
  }

  /** Deleting the same id twice, each time on the list the hook holds. While the first
      delete leaves items, the second changes nothing. Once it empties the list, the hook
      holds the defaults, so the second delete writes the defaults without that id to
      storage: all of them when no default has it. */
  lemma DeleteTwice(prev: seq<Announcement>, id: string, defaults: seq<Announcement>)
    ensures var first := Delete(prev, id, defaults);
      var second := Delete(first.shown, id, defaults);
      && (|first.persisted| > 0 ==> second == first)
      && (|first.persisted| == 0 ==> second.persisted == WithoutId(defaults, id))
      && (|first.persisted| == 0 && (forall i :: 0 <= i < |defaults| ==> defaults[i].id != id) ==>
            first.persisted == [] && second.persisted == defaults)
  {
    var first := Delete(prev, id, defaults);
    WithoutAbsentId(first.persisted, id);
    if forall i :: 0 <= i < |defaults| ==> defaults[i].id != id {
      WithoutAbsentId(defaults, id);
    }
  }

  /** Deleting a fresh announcement right after adding it restores the list it was added
      to, when that list was not empty and held no item with the new id. */
  lemma DeleteUndoesAdd(prev: seq<Announcement>, title: string, content: string, uniqueId: string,
                        createdAt: string, defaults: seq<Announcement>)
    requires Add(prev, title, content, uniqueId, createdAt).Success?
    requires forall i :: 0 <= i < |prev| ==> prev[i].id != IdPrefix + uniqueId
    ensures var added := Add(prev, title, content, uniqueId, createdAt).value.shown;
      Delete(added, IdPrefix + uniqueId, defaults).persisted == prev
    ensures |prev| > 0 ==>
      Delete(Add(prev, title, content, uniqueId, createdAt).value.shown, IdPrefix + uniqueId, defaults).shown == prev
  {
    var added := Add(prev, title, content, uniqueId, createdAt).value.shown;
    assert added == [added[0]] + prev;
    WithoutIdAppend([added[0]], prev, IdPrefix + uniqueId);
    WithoutAbsentId(prev, IdPrefix + uniqueId);
  }
}
