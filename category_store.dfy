/** The in-memory category cache (src/store/categoryStore.ts): the category
    list and the selected category id. As in the task cache, every action
    writes the cache only after the awaited storage call returned, and
    swallows a rejection. */
module Categories {
  import opened Types
  import opened Sequences
  import opened Db

  /** `categories[0]?.id || null`: the first id, where an empty id counts as
      absent, as JavaScript's `||` treats `''`. */
  function FirstIdOrNull(cs: seq<Category>): (r: Option<string>)
    ensures r.Some? <==> |cs| > 0 && cs[0].id != ""
    ensures r.Some? ==> r.value == cs[0].id
  {
    if |cs| > 0 && cs[0].id != "" then Some(cs[0].id) else None
  }

  /** `categories.map((cat) => cat.id === id ? { ...cat, ...p } : cat)`. */
  function MergeCategoryWhere(cs: seq<Category>, id: string, p: CategoryPatch): (r: seq<Category>)
    ensures |r| == |cs|
    ensures forall i :: 0 <= i < |cs| ==> r[i].id == cs[i].id
    ensures forall i :: 0 <= i < |cs| && cs[i].id != id ==> r[i] == cs[i]
  {
    seq(|cs|, i requires 0 <= i < |cs| => if cs[i].id == id then MergeCategory(cs[i], p) else cs[i])
  }

  /** `categories.map((cat, index) => ({ ...cat, order: index }))`. */
  function Renumbered(cs: seq<Category>): (r: seq<Category>)
  {
    seq(|cs|, i requires 0 <= i < |cs| => cs[i].(order := i))
  }

  /** Renumbering keeps the list and its order and makes each order equal to
      the position, so the result is sorted by order. */
  lemma RenumberedSpec(cs: seq<Category>)
    ensures |Renumbered(cs)| == |cs|
    ensures forall i :: 0 <= i < |cs| ==> Renumbered(cs)[i].order == i
    ensures forall i :: 0 <= i < |cs| ==> Renumbered(cs)[i] == cs[i].(order := i)
    ensures SortedBy(Renumbered(cs), (c: Category) => c.order)
  {
  }

  /** One per-item write of `reorderCategories`: `update(id, { order })`. */
  function SetCategoryOrder(m: map<string, Category>, id: string, order: int): (r: map<string, Category>)
    ensures r.Keys == m.Keys
  {
    if id in m then m[id := m[id].(order := order)] else m
  }

  /** The category table after the first `n` writes of the reorder loop. */
  function ReorderedTable(m: map<string, Category>, cs: seq<Category>, n: nat): (r: map<string, Category>)
    requires n <= |cs|
    ensures r.Keys == m.Keys
  {
    if n == 0 then m else SetCategoryOrder(ReorderedTable(m, cs, n - 1), cs[n - 1].id, n - 1)
  }

  predicate DistinctCategoryIds(cs: seq<Category>)
  {
    forall i, j :: 0 <= i < j < |cs| ==> cs[i].id != cs[j].id
  }

  /** When the list repeats no id, the reorder loop leaves each listed and
      stored category with its position as order and every other stored
      category as it was. */
  lemma {:induction false} ReorderedTableSpec(m: map<string, Category>, cs: seq<Category>, n: nat)
    requires n <= |cs| && DistinctCategoryIds(cs)
    ensures forall j :: 0 <= j < n && cs[j].id in m ==>
              ReorderedTable(m, cs, n)[cs[j].id] == m[cs[j].id].(order := j)
    ensures forall k :: k in m && (forall j :: 0 <= j < n ==> cs[j].id != k) ==>
              ReorderedTable(m, cs, n)[k] == m[k]
  {
    forall j | 0 <= j < n && cs[j].id in m
      ensures ReorderedTable(m, cs, n)[cs[j].id] == m[cs[j].id].(order := j)
    {
      ReorderedListed(m, cs, n, j);
    }
    forall k | k in m && (forall j :: 0 <= j < n ==> cs[j].id != k)
      ensures ReorderedTable(m, cs, n)[k] == m[k]
    {
      ReorderedUnlisted(m, cs, n, k);
    }
  }

  /** A key the first `n` writes do not name keeps its category. */
  lemma {:induction false} ReorderedUnlisted(m: map<string, Category>, cs: seq<Category>, n: nat, k: string)
    requires n <= |cs| && k in m && forall j :: 0 <= j < n ==> cs[j].id != k
    ensures ReorderedTable(m, cs, n)[k] == m[k]
  {
    if n > 0 {
      assert cs[n - 1].id != k;
      ReorderedUnlisted(m, cs, n - 1, k);
    }
  }

  /** The `j`-th listed id ends with order `j` once the loop is past it. */
  lemma {:induction false} ReorderedListed(m: map<string, Category>, cs: seq<Category>, n: nat, j: nat)
    requires j < n <= |cs| && DistinctCategoryIds(cs) && cs[j].id in m
    ensures ReorderedTable(m, cs, n)[cs[j].id] == m[cs[j].id].(order := j)
  {
    if j == n - 1 {
      assert forall i :: 0 <= i < j ==> cs[i].id != cs[j].id;
      ReorderedUnlisted(m, cs, j, cs[j].id);
    } else {
      assert cs[n - 1].id != cs[j].id;
      ReorderedListed(m, cs, n - 1, j);
    }
  }

  class CategoryStore {
    var categories: seq<Category>
    var selectedCategoryId: Option<string>
    var isLoading: bool
    const db: Database

    ghost predicate Valid()
      reads this, db
    {
      db.Valid()
    }

    constructor (db: Database)
      requires db.Valid()
      ensures Valid() && this.db == db
      ensures categories == [] && selectedCategoryId.None? && !isLoading
    {
      this.db := db;
      categories := [];
      selectedCategoryId := None;
      isLoading := false;
    }

    /** `loadCategories`: the stored categories by order; the first one is
        selected, or none when there is none. */
    method LoadCategories()
      requires Valid()
      modifies this
      ensures Valid() && !isLoading
      ensures old(db.storageFault) ==> categories == old(categories) && selectedCategoryId == old(selectedCategoryId)
      ensures !old(db.storageFault) ==>
                && SortedBy(categories, (c: Category) => c.order)
                && |categories| == |db.categories|
                && (forall c :: c in categories <==> c in db.categories.Values)
                && selectedCategoryId == FirstIdOrNull(categories)
    {
      isLoading := true;
      var r := db.CategoryGetAll();
      if r.Ok? {
        categories := r.value;
        selectedCategoryId := FirstIdOrNull(r.value);
      }
      isLoading := false;
    }

    /** `selectCategory`: no check that the id exists. */
    method SelectCategory(id: string)
      modifies this
      ensures selectedCategoryId == Some(id)
      ensures categories == old(categories) && isLoading == old(isLoading)
    {
      selectedCategoryId := Some(id);
    }

    /** `addCategory`: the order is the number of stored categories; the new
        category goes to the end of the cache and becomes the selection. */
    method AddCategory(name: string, freshId: string, now: Timestamp)
      requires Valid()
      modifies this, db
      ensures Valid() && db.storageFault == old(db.storageFault)
      ensures var added := Category(freshId, name, now, |old(db.categories)|);
              if old(db.storageFault) || freshId in old(db.categories) then
                categories == old(categories) && selectedCategoryId == old(selectedCategoryId) &&
                db.categories == old(db.categories)
              else
                categories == old(categories) + [added] && selectedCategoryId == Some(freshId) &&
                db.categories == old(db.categories)[freshId := added]
      ensures db.tasks == old(db.tasks) && db.taskDetails == old(db.taskDetails) && db.appSettings == old(db.appSettings)
    {
      var all := db.CategoryGetAll();
      if all.Err? {
        return;
      }
      var order := |all.value|;
      var r := db.CategoryCreate(Category("", name, now, order), freshId);
      if r.Ok? {
        categories := categories + [Category(r.value, name, now, order)];
        selectedCategoryId := Some(r.value);
      }
    }

    /** `updateCategory`: merge into the store and into the matching cached
        category. */
    method UpdateCategory(id: string, p: CategoryPatch)
      requires Valid()
      modifies this, db
      ensures Valid() && db.storageFault == old(db.storageFault)
      ensures categories == if old(db.storageFault) then old(categories) else MergeCategoryWhere(old(categories), id, p)
      ensures db.categories == if old(db.storageFault) || id !in old(db.categories) then old(db.categories)
                               else old(db.categories)[id := MergeCategory(old(db.categories)[id], p)]
      ensures selectedCategoryId == old(selectedCategoryId)
      ensures db.tasks == old(db.tasks) && db.taskDetails == old(db.taskDetails) && db.appSettings == old(db.appSettings)
    {
      var ok := db.CategoryUpdate(id, p);
      if ok {
        categories := MergeCategoryWhere(categories, id, p);
      }
    }

    /** `deleteCategory`: the cascade runs in the store; the cache drops the
        category and selects the first remaining one (or none), whatever was
        selected before. The task cache is not touched. */
    method DeleteCategory(id: string)
      requires Valid()
      modifies this, db
      ensures Valid() && db.storageFault == old(db.storageFault)
      ensures old(db.storageFault) ==>
                categories == old(categories) && selectedCategoryId == old(selectedCategoryId) &&
                db.categories == old(db.categories) && db.tasks == old(db.tasks) && db.taskDetails == old(db.taskDetails)
      ensures !old(db.storageFault) ==>
                && categories == Filter(old(categories), (c: Category) => c.id != id)
                && selectedCategoryId == FirstIdOrNull(categories)
                && db.categories == old(db.categories) - {id}
                && db.tasks == WithoutCategory(old(db.tasks), id)
                && db.taskDetails == old(db.taskDetails) - TasksOf(old(db.tasks), id)
      ensures db.appSettings == old(db.appSettings)
    {
      var ok := db.CategoryDelete(id);
      if ok {
        var filtered := Filter(categories, (c: Category) => c.id != id);
        categories := filtered;
        selectedCategoryId := FirstIdOrNull(filtered);
      }
    }

    /** `reorderCategories`: one order write per category, in list order;
        then the cache becomes the renumbered list. The first rejected write
        ends the action with the cache unchanged. */
    method ReorderCategories(cs: seq<Category>)
      requires Valid()
      modifies this, db
      ensures Valid() && db.storageFault == old(db.storageFault)
      ensures old(db.storageFault) && cs != [] ==> categories == old(categories) && db.categories == old(db.categories)
      ensures !old(db.storageFault) || cs == [] ==>
                categories == Renumbered(cs) && db.categories == ReorderedTable(old(db.categories), cs, |cs|)
      ensures selectedCategoryId == old(selectedCategoryId)
      ensures db.tasks == old(db.tasks) && db.taskDetails == old(db.taskDetails) && db.appSettings == old(db.appSettings)
    {
      var updates := Renumbered(cs);
      var i := 0;
      while i < |updates|
        invariant 0 <= i <= |updates| == |cs|
        invariant Valid() && db.storageFault == old(db.storageFault)
        invariant db.categories == ReorderedTable(old(db.categories), cs, i)
        invariant i > 0 ==> !db.storageFault
        invariant categories == old(categories) && selectedCategoryId == old(selectedCategoryId)
        invariant db.tasks == old(db.tasks) && db.taskDetails == old(db.taskDetails) && db.appSettings == old(db.appSettings)
      {
        var ok := db.CategoryUpdate(updates[i].id, CategoryPatch(None, None, Some(updates[i].order)));
        if !ok {
          return;
        }
        i := i + 1;
      }
      categories := updates;
    }
  }
}
