/**
 * The Category model and its `saving` hook: before a category row is written, an empty
 * slug is filled in from the name, and `level` and `full_slug` are derived from the
 * parent row as it is currently stored. Nothing is propagated to the children.
 */
module Categories {
  import opened Wrappers
  import opened Php

  /**
   * A category row. `parentId` 0 stands for NULL: ids start at 1, and PHP's
   * `if ($model->parent_id)` treats NULL and 0 alike.
   */
  datatype Category = Category(parentId: nat, name: string, slug: string, fullSlug: string, level: int)

  /**
   * The row the `saving` hook produces for `c`, reading the parent from `rows`; None when
   * the parent row is missing, because reading `->level` of the null that `find` returns
   * raises an error and the save is aborted.
   */
  function Saving(rows: map<nat, Category>, c: Category, slugify: string -> string): (r: Option<Category>)
    ensures r.None? <==> c.parentId != 0 && c.parentId !in rows
    ensures r.Some? ==> r.value.parentId == c.parentId && r.value.name == c.name
    ensures r.Some? && Falsy(c.slug) ==> r.value.slug == slugify(c.name)
    ensures r.Some? && !Falsy(c.slug) ==> r.value.slug == c.slug
    ensures r.Some? && c.parentId == 0 ==> r.value.level == 1 && r.value.fullSlug == r.value.slug
    ensures r.Some? && c.parentId != 0 ==>
      && r.value.level == rows[c.parentId].level + 1
      && r.value.fullSlug == rows[c.parentId].fullSlug + "/" + r.value.slug
  {
    var slug := if Falsy(c.slug) then slugify(c.name) else c.slug;
    if c.parentId == 0 then
      Some(c.(slug := slug, level := 1, fullSlug := slug))
    else if c.parentId in rows then
      var parent := rows[c.parentId];
      Some(c.(slug := slug, level := parent.level + 1, fullSlug := parent.fullSlug + "/" + slug))
    else
      None
  }

  // ---------------------------------------------------------------------------
  // The hierarchy invariant and what it means
  // ---------------------------------------------------------------------------

  /**
   * Row `id` agrees with its parent's stored row: what the hook writes when it saves the row
   * under that parent. In a finite store of such rows every level is at least 1 (a chain of
   * parents cannot descend for ever); the conjunct says so outright, so that `level` can
   * measure the way up to the root.
   */
  ghost predicate LocallyCoherent(rows: map<nat, Category>, id: nat)
    requires id in rows
  {
    var c := rows[id];
    && c.level >= 1
    && if c.parentId == 0 then c.level == 1 && c.fullSlug == c.slug
       else
         && c.parentId in rows
         && c.level == rows[c.parentId].level + 1
         && c.fullSlug == rows[c.parentId].fullSlug + "/" + c.slug
  }

  /** Every row's derived fields agree with its parent's. */
  ghost predicate Coherent(rows: map<nat, Category>) {
    forall id :: id in rows ==> LocallyCoherent(rows, id)
  }

  /** The depth of a category, found by following parent references: 1 at a root, one more than the parent's below it. */
  ghost function Depth(rows: map<nat, Category>, id: nat): (d: nat)
    requires Coherent(rows) && id in rows
    ensures d >= 1
    decreases rows[id].level
  {
    assert LocallyCoherent(rows, id);
    var p := rows[id].parentId;
    if p == 0 then 1
    else
      assert LocallyCoherent(rows, p);
      Depth(rows, p) + 1
  }

  /** The slugs from the root down to the category itself. */
  ghost function SlugPath(rows: map<nat, Category>, id: nat): (path: seq<string>)
    requires Coherent(rows) && id in rows
    ensures |path| == Depth(rows, id)
    decreases rows[id].level
  {
    assert LocallyCoherent(rows, id);
    var p := rows[id].parentId;
    if p == 0 then [rows[id].slug]
    else
      assert LocallyCoherent(rows, p);
      SlugPath(rows, p) + [rows[id].slug]
  }

  /** Non-empty parts joined by "/". */
  function JoinSlash(parts: seq<string>): string
    requires parts != []
  {
    if |parts| == 1 then parts[0] else JoinSlash(parts[..|parts| - 1]) + "/" + parts[|parts| - 1]
  }

  /**
   * In a coherent store `level` is the depth of the category (so at least 1) and
   * `full_slug` is the root-to-node slugs joined by "/".
   */
  lemma {:induction false} CoherentDerivedFields(rows: map<nat, Category>, id: nat)
    requires Coherent(rows) && id in rows
    ensures rows[id].level == Depth(rows, id)
    ensures rows[id].fullSlug == JoinSlash(SlugPath(rows, id))
    decreases rows[id].level
  {
    assert LocallyCoherent(rows, id);
    var p := rows[id].parentId;
    if p != 0 {
      assert LocallyCoherent(rows, p);
      CoherentDerivedFields(rows, p);
      var path := SlugPath(rows, p);
      assert (path + [rows[id].slug])[..|path|] == path;
    }
  }

  /** Creating a row under a fresh id through the hook keeps the store coherent. */
  lemma SavingNewKeepsCoherent(rows: map<nat, Category>, id: nat, c: Category, slugify: string -> string)
    requires Coherent(rows) && id !in rows
    requires Saving(rows, c, slugify).Some?
    ensures Coherent(rows[id := Saving(rows, c, slugify).value])
  {
    var rows' := rows[id := Saving(rows, c, slugify).value];
    if c.parentId != 0 {
      assert LocallyCoherent(rows, c.parentId);
    }
    forall k | k in rows'
      ensures LocallyCoherent(rows', k)
    {
      if k != id {
        assert LocallyCoherent(rows, k);
      }
    }
  }

  /**
   * Re-saving a category nobody points to, under any parent but itself, keeps the store
   * coherent: only re-saving an ancestor can break the invariant.
   */
  lemma SavingLeafKeepsCoherent(rows: map<nat, Category>, id: nat, c: Category, slugify: string -> string)
    requires Coherent(rows) && id in rows
    requires forall k :: k in rows ==> rows[k].parentId != id
    requires c.parentId != id
    requires Saving(rows, c, slugify).Some?
    ensures Coherent(rows[id := Saving(rows, c, slugify).value])
  {
    var rows' := rows[id := Saving(rows, c, slugify).value];
    if c.parentId != 0 {
      assert LocallyCoherent(rows, c.parentId);
    }
    forall k | k in rows'
      ensures LocallyCoherent(rows', k)
    {
      if k != id {
        assert LocallyCoherent(rows, k);
      }
    }
  }

  /**
   * Saving a category as its own parent is accepted by the hook, which reads the row's old
   * stored level; the row then claims a level one above its own, and the store is no
   * longer coherent.
   */
  lemma SavingUnderItselfBreaksCoherence(rows: map<nat, Category>, id: nat, c: Category, slugify: string -> string)
    requires id != 0 && id in rows && c.parentId == id
    ensures Saving(rows, c, slugify).Some?
    ensures !LocallyCoherent(rows[id := Saving(rows, c, slugify).value], id)
  {
  }

  /**
   * A category may be given a parent that was created after it: the store below, where row 1
   * was re-saved under row 2, agrees with its parents, and that re-save is what the hook writes.
   */
  lemma ParentCreatedLaterIsCoherent(slugify: string -> string)
    ensures Saving(map[2 := Category(0, "b", "b", "b", 1)], Category(2, "a", "a", "", 0), slugify)
      == Some(Category(2, "a", "a", "b/a", 2))
    ensures Coherent(map[1 := Category(2, "a", "a", "b/a", 2), 2 := Category(0, "b", "b", "b", 1)])
  {
    var rows := map[1 := Category(2, "a", "a", "b/a", 2), 2 := Category(0, "b", "b", "b", 1)];
    assert LocallyCoherent(rows, 1) && LocallyCoherent(rows, 2);
  }

  /** Two different parent paths give two different child paths under the same slug. */
  lemma JoinedPathsDiffer(a: string, b: string, slug: string)
    requires a != b
    ensures a + "/" + slug != b + "/" + slug
  {
    if |a| == |b| {
      var i :| 0 <= i < |a| && a[i] != b[i];
      assert (a + "/" + slug)[i] == a[i] && (b + "/" + slug)[i] == b[i];
    }
  }

  /**
   * There is no cascade: re-saving a root category under a new slug leaves its child's row
   * as it was, so the child's `full_slug` no longer agrees with its parent's.
   */
  lemma ResavingParentLeavesChildStale(rows: map<nat, Category>, parent: nat, child: nat, newSlug: string, slugify: string -> string)
    requires Coherent(rows) && parent in rows && child in rows
    requires parent != 0 && rows[child].parentId == parent && rows[parent].parentId == 0
    requires !Falsy(newSlug) && newSlug != rows[parent].slug
    ensures Saving(rows, rows[parent].(slug := newSlug), slugify).Some?
    ensures var rows' := rows[parent := Saving(rows, rows[parent].(slug := newSlug), slugify).value];
      && rows'[child] == rows[child]
      && rows'[parent].fullSlug == newSlug
      && !LocallyCoherent(rows', child)
  {
    assert LocallyCoherent(rows, parent);
    assert LocallyCoherent(rows, child);
    JoinedPathsDiffer(rows[parent].slug, newSlug, rows[child].slug);
  }

  /** At most one row per name: what firstOrCreate by name maintains. */
  ghost predicate UniqueNames(rows: map<nat, Category>) {
    forall a, b :: a in rows && b in rows && a != b ==> rows[a].name != rows[b].name
  }

  /** `where('name', name)->first()`: the lowest id in lo..hi-1 whose row has that name. */
  function FirstNamed(rows: map<nat, Category>, name: string, lo: nat, hi: nat): (r: Option<nat>)
    ensures r.Some? ==> lo <= r.value < hi && r.value in rows && rows[r.value].name == name
    ensures r.Some? ==> forall k :: lo <= k < r.value && k in rows ==> rows[k].name != name
    ensures r.None? ==> forall k :: lo <= k < hi && k in rows ==> rows[k].name != name
    decreases hi - lo
  {
    if lo >= hi then None
    else if lo in rows && rows[lo].name == name then Some(lo)
    else FirstNamed(rows, name, lo + 1, hi)
  }

  // ---------------------------------------------------------------------------
  // The store that Category::find, create and save work on
  // ---------------------------------------------------------------------------

  /** The categories table: rows by id, and the next auto-increment id. */
  class CategoryStore {
    /** Str::slug, the transliterating slug function of the framework. */
    const slugify: string -> string
    var rows: map<nat, Category>
    var nextId: nat

    ghost predicate Valid()
      reads this
    {
      nextId >= 1 && forall id :: id in rows <==> 1 <= id < nextId
    }

    constructor (slugify: string -> string)
      ensures Valid() && this.slugify == slugify
      ensures rows == map[] && nextId == 1
    {
      this.slugify := slugify;
      rows := map[];
      nextId := 1;
    }

    /** Inserting a new row: the hook runs, then the row gets the next id. */
    method Create(c: Category) returns (r: Option<nat>)
      requires Valid()
      modifies this
      ensures Valid()
      ensures Saving(old(rows), c, slugify).None? ==> r.None? && rows == old(rows) && nextId == old(nextId)
      ensures Saving(old(rows), c, slugify).Some? ==>
        && r == Some(old(nextId))
        && rows == old(rows)[old(nextId) := Saving(old(rows), c, slugify).value]
        && nextId == old(nextId) + 1
      ensures old(Coherent(rows)) ==> Coherent(rows)
    {
      var saved := Saving(rows, c, slugify);
      if saved.None? {
        return None;
      }
      if Coherent(rows) {
        SavingNewKeepsCoherent(rows, nextId, c, slugify);
      }
      r := Some(nextId);
      rows := rows[nextId := saved.value];
      nextId := nextId + 1;
    }

    /** Saving an existing row: the hook runs against the current rows, and only that entry changes. */
    method Save(id: nat, c: Category) returns (ok: bool)
      requires Valid() && id in rows
      modifies this`rows
      ensures Valid()
      ensures ok <==> Saving(old(rows), c, slugify).Some?
      ensures ok ==> rows == old(rows)[id := Saving(old(rows), c, slugify).value]
      ensures !ok ==> rows == old(rows)
      ensures forall k :: k in old(rows) && k != id ==> k in rows && rows[k] == old(rows)[k]
    {
      var saved := Saving(rows, c, slugify);
      ok := saved.Some?;
      if ok {
        rows := rows[id := saved.value];
      }
    }

    /**
     * Category::firstOrCreate(['name' => name], ['slug' => slug, 'parent_id' => null]):
     * the existing row of that name, or a new root row created through the hook.
     */
    method FirstOrCreate(name: string, slug: string) returns (id: nat)
      requires Valid()
      modifies this
      ensures Valid()
      ensures id in rows && rows[id].name == name
      ensures FirstNamed(old(rows), name, 1, old(nextId)).Some? ==>
        id == FirstNamed(old(rows), name, 1, old(nextId)).value && rows == old(rows) && nextId == old(nextId)
      ensures FirstNamed(old(rows), name, 1, old(nextId)).None? ==>
        && id == old(nextId) && nextId == old(nextId) + 1
        && rows == old(rows)[id := Saving(old(rows), Category(0, name, slug, "", 0), slugify).value]
      ensures old(Coherent(rows)) ==> Coherent(rows)
      ensures old(UniqueNames(rows)) ==> UniqueNames(rows)
      ensures old(rows).Keys <= rows.Keys
    {
      var found := FirstNamed(rows, name, 1, nextId);
      if found.Some? {
        return found.value;
      }
      var created := Create(Category(0, name, slug, "", 0));
      id := created.value;
    }
  }
}
