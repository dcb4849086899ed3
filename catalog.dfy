/**
 * The reconciling half of the parser command: `saveProduct` against the catalog tables,
 * and the `handle` loop that runs the crawl and saves every product that parses. Each
 * table is a sequence whose row with id k sits at position k - 1 (auto-increment ids
 * from 1); a reference column holds 0 for NULL. The categories table is the
 * CategoryStore, so every category write goes through its `saving` hook.
 */
module Catalog {
  import opened Wrappers
  import opened Php
  import opened Scraper
  import opened Categories

  datatype Brand = Brand(name: string, slug: string)

  /** An attribute row; its key is the pair (name, group id), so the row is its key. */
  datatype Attribute = Attribute(name: string, groupId: nat)

  datatype Product = Product(
    externalId: Option<string>,
    name: string,
    description: string,
    price: Option<string>,
    originalPrice: Option<string>,
    isAvailable: bool,
    brandId: nat,
    categoryId: nat)

  datatype Image = Image(productId: nat, url: string)

  datatype ProductAttribute = ProductAttribute(productId: nat, attributeId: nat, value: string)

  /** How a run of the command ends. */
  datatype RunOutcome =
    | MissingCategoryUrl              // no --category-url: nothing is done
    | ListingFetchFailed(page: nat)   // fetching this listing page failed: the run aborts before saving
    | Completed

  // ---------------------------------------------------------------------------
  // Lookups
  // ---------------------------------------------------------------------------

  /** `where(...)->first()`: the position of the first row satisfying `p`. */
  function FirstWhere<T>(rows: seq<T>, p: T -> bool): (r: Option<nat>)
    ensures r.Some? ==> r.value < |rows| && p(rows[r.value])
    ensures r.Some? ==> forall i :: 0 <= i < r.value ==> !p(rows[i])
    ensures r.None? ==> forall i :: 0 <= i < |rows| ==> !p(rows[i])
  {
    if rows == [] then None
    else if p(rows[0]) then Some(0)
    else
      match FirstWhere(rows[1..], p)
      case None => None
      case Some(i) => Some(i + 1)
  }

  /** A row that satisfies `p` with no earlier row that does is the first match. */
  lemma FirstWhereAt<T>(rows: seq<T>, p: T -> bool, j: nat)
    requires j < |rows| && p(rows[j]) && forall i :: 0 <= i < j ==> !p(rows[i])
    ensures FirstWhere(rows, p) == Some(j)
  {
  }

  function BrandNamed(name: string): Brand -> bool {
    (b: Brand) => b.name == name
  }

  /**
   * `where(...)->first()` on a table whose row is exactly its lookup key (an attribute group
   * by name; an attribute by name and group id): the position of the first equal row.
   */
  function FirstEqual<T(==)>(rows: seq<T>, key: T): (r: Option<nat>)
    ensures r.Some? ==> r.value < |rows| && rows[r.value] == key
    ensures r.Some? ==> forall i :: 0 <= i < r.value ==> rows[i] != key
    ensures r.None? <==> key !in rows
  {
    if rows == [] then None
    else if rows[0] == key then Some(0)
    else
      match FirstEqual(rows[1..], key)
      case None => None
      case Some(i) => Some(i + 1)
  }

  /** `where('external_id', id)`; for a null id Laravel queries `whereNull`, so null matches null. */
  function WithExternalId(id: Option<string>): Product -> bool {
    (p: Product) => p.externalId == id
  }

  ghost predicate Distinct<T>(rows: seq<T>) {
    forall i, j :: 0 <= i < j < |rows| ==> rows[i] != rows[j]
  }

  ghost predicate UniqueBrandNames(brands: seq<Brand>) {
    forall i, j :: 0 <= i < j < |brands| ==> brands[i].name != brands[j].name
  }

  ghost predicate UniqueExternalIds(products: seq<Product>) {
    forall i, j :: 0 <= i < j < |products| ==> products[i].externalId != products[j].externalId
  }

  /** A product's brand_id as saveProduct resolves it: the id of the brand of that name, or NULL. */
  ghost predicate BrandResolved(id: nat, brands: seq<Brand>, brand: Option<string>) {
    if Truthy(brand) then 1 <= id <= |brands| && brands[id - 1].name == brand.value else id == 0
  }

  /** A product's category_id as saveProduct resolves it: the id of the category of that name, or NULL. */
  ghost predicate CategoryResolved(id: nat, rows: map<nat, Category>, name: string) {
    if Falsy(name) then id == 0 else id in rows && rows[id].name == name
  }

  /** A product_attributes row for `t`: its product, its value, and an attribute with t's name in a group with t's label. */
  ghost predicate Links(pa: ProductAttribute, productId: nat, t: AttributeTriple, groups: seq<string>, attributes: seq<Attribute>) {
    && pa.productId == productId && pa.value == t.value
    && 1 <= pa.attributeId <= |attributes|
    && attributes[pa.attributeId - 1].name == t.name
    && 1 <= attributes[pa.attributeId - 1].groupId <= |groups|
    && groups[attributes[pa.attributeId - 1].groupId - 1] == t.group
  }

  /** A link stays valid when the group and attribute tables only grow at the end. */
  lemma LinksGrow(pa: ProductAttribute, productId: nat, t: AttributeTriple,
                  groups: seq<string>, attributes: seq<Attribute>, groups': seq<string>, attributes': seq<Attribute>)
    requires Links(pa, productId, t, groups, attributes)
    requires groups <= groups' && attributes <= attributes'
    ensures Links(pa, productId, t, groups', attributes')
  {
    assert attributes'[pa.attributeId - 1] == attributes[pa.attributeId - 1];
    assert groups'[attributes[pa.attributeId - 1].groupId - 1] == groups[attributes[pa.attributeId - 1].groupId - 1];
  }

  /** Rows base .. base + n - 1 of `links` link the product to the first n triples, in order. */
  ghost predicate LinksRun(links: seq<ProductAttribute>, base: nat, productId: nat, triples: seq<AttributeTriple>, n: nat,
                           groups: seq<string>, attributes: seq<Attribute>)
    decreases n
  {
    n == 0 ||
      (&& n <= |triples| && base + n <= |links|
       && LinksRun(links, base, productId, triples, n - 1, groups, attributes)
       && Links(links[base + n - 1], productId, triples[n - 1], groups, attributes))
  }

  /** A run of links stays valid when the link, group and attribute tables only grow at the end. */
  lemma {:induction false} LinksRunGrow(links: seq<ProductAttribute>, links': seq<ProductAttribute>, base: nat, productId: nat,
                                        triples: seq<AttributeTriple>, n: nat, groups: seq<string>, attributes: seq<Attribute>,
                                        groups': seq<string>, attributes': seq<Attribute>)
    requires LinksRun(links, base, productId, triples, n, groups, attributes)
    requires links <= links' && groups <= groups' && attributes <= attributes'
    ensures LinksRun(links', base, productId, triples, n, groups', attributes')
  {
    if n > 0 {
      LinksRunGrow(links, links', base, productId, triples, n - 1, groups, attributes, groups', attributes');
      assert links'[base + n - 1] == links[base + n - 1];
      LinksGrow(links[base + n - 1], productId, triples[n - 1], groups, attributes, groups', attributes');
    }
  }

  /** A run of links, spelled out row by row. */
  lemma {:induction false} LinksRunAll(links: seq<ProductAttribute>, base: nat, productId: nat, triples: seq<AttributeTriple>, n: nat,
                                       groups: seq<string>, attributes: seq<Attribute>)
    requires LinksRun(links, base, productId, triples, n, groups, attributes)
    ensures n == 0 || (n <= |triples| && base + n <= |links|)
    ensures forall k :: 0 <= k < n ==> Links(links[base + k], productId, triples[k], groups, attributes)
  {
    if n > 0 {
      LinksRunAll(links, base, productId, triples, n - 1, groups, attributes);
    }
  }

  /** One pass of the attribute loop extends both the table fold and the run of links by one triple. */
  lemma AttributeLoopStep(start: Lookups, triples: seq<AttributeTriple>, i: nat, base: nat, productId: nat,
                          before: Lookups, links0: seq<ProductAttribute>, after: Lookups, links: seq<ProductAttribute>,
                          attributeId: nat)
    requires i < |triples| && |links0| == base + i
    requires before == ResolveAll(start, triples[..i])
    requires LinksRun(links0, base, productId, triples, i, before.groups, before.attributes)
    requires after == ResolveStep(before, triples[i])
    requires links == links0 + [ProductAttribute(productId, attributeId, triples[i].value)]
    requires Links(ProductAttribute(productId, attributeId, triples[i].value), productId, triples[i], after.groups, after.attributes)
    ensures after == ResolveAll(start, triples[..i + 1])
    ensures LinksRun(links, base, productId, triples, i + 1, after.groups, after.attributes)
  {
    assert triples[..i + 1][..i] == triples[..i];
    ResolveStepGrows(before, triples[i]);
    LinksRunGrow(links0, links, base, productId, triples, i, before.groups, before.attributes, after.groups, after.attributes);
    assert links[base + i] == ProductAttribute(productId, attributeId, triples[i].value);
  }

  /** When the attribute loop ends, every link row still names an existing product and attribute. */
  lemma AttributeLoopDone(triples: seq<AttributeTriple>, base: nat, productId: nat, productCount: nat,
                          links0: seq<ProductAttribute>, links: seq<ProductAttribute>, groups: seq<string>, attributes: seq<Attribute>,
                          attributeCount0: nat)
    requires |links0| == base && links0 <= links && |links| == base + |triples|
    requires LinksRun(links, base, productId, triples, |triples|, groups, attributes)
    requires 1 <= productId <= productCount && attributeCount0 <= |attributes|
    requires forall pa :: pa in links0 ==> 1 <= pa.productId <= productCount && 1 <= pa.attributeId <= attributeCount0
    ensures forall pa :: pa in links ==> 1 <= pa.productId <= productCount && 1 <= pa.attributeId <= |attributes|
  {
    LinksRunAll(links, base, productId, triples, |triples|, groups, attributes);
    forall pa | pa in links
      ensures 1 <= pa.productId <= productCount && 1 <= pa.attributeId <= |attributes|
    {
      var k :| 0 <= k < |links| && links[k] == pa;
      if k >= base {
        assert Links(links[base + (k - base)], productId, triples[k - base], groups, attributes);
      } else {
        assert links0[k] == pa;
      }
    }
  }

  /**
   * With one attribute per (name, group id) and one group per name, two rows that link
   * the same triple point to the same attribute: the link names THE attribute of the triple.
   */
  lemma LinkedAttributeIsUnique(pa1: ProductAttribute, pa2: ProductAttribute, p1: nat, p2: nat, t: AttributeTriple,
                                groups: seq<string>, attributes: seq<Attribute>)
    requires Distinct(groups) && Distinct(attributes)
    requires Links(pa1, p1, t, groups, attributes) && Links(pa2, p2, t, groups, attributes)
    ensures pa1.attributeId == pa2.attributeId
  {
  }

  // ---------------------------------------------------------------------------
  // The group and attribute tables under the attribute loop
  // ---------------------------------------------------------------------------

  /** The attribute_groups names and the attributes rows, as the attribute loop sees them. */
  datatype Lookups = Lookups(groups: seq<string>, attributes: seq<Attribute>)

  /** The id AttributeGroup::firstOrCreate gives `name`: the first row with that name, or a new last row. */
  function GroupIdFor(groups: seq<string>, name: string): nat {
    match FirstEqual(groups, name)
    case Some(j) => j + 1
    case None => |groups| + 1
  }

  /** One triple of the attribute loop: firstOrCreate its group, then its attribute in that group. */
  function ResolveStep(tables: Lookups, t: AttributeTriple): (r: Lookups)
  {
    var groups := if t.group in tables.groups then tables.groups else tables.groups + [t.group];
    var groupId := GroupIdFor(tables.groups, t.group);
    var attributes :=
      if Attribute(t.name, groupId) in tables.attributes then tables.attributes
      else tables.attributes + [Attribute(t.name, groupId)];
    Lookups(groups, attributes)
  }

  /** One step only appends: the tables before it are prefixes of the tables after it. */
  lemma ResolveStepGrows(tables: Lookups, t: AttributeTriple)
    ensures tables.groups <= ResolveStep(tables, t).groups && tables.attributes <= ResolveStep(tables, t).attributes
  {
  }

  /** The whole attribute loop, triple by triple in order. */
  function ResolveAll(tables: Lookups, triples: seq<AttributeTriple>): Lookups {
    if triples == [] then tables
    else ResolveStep(ResolveAll(tables, triples[..|triples| - 1]), triples[|triples| - 1])
  }

  /** The loop only appends: the tables before it are prefixes of the tables after it. */
  lemma {:induction false} ResolveAllGrows(tables: Lookups, triples: seq<AttributeTriple>)
    ensures tables.groups <= ResolveAll(tables, triples).groups && tables.attributes <= ResolveAll(tables, triples).attributes
  {
    if triples != [] {
      ResolveAllGrows(tables, triples[..|triples| - 1]);
      ResolveStepGrows(ResolveAll(tables, triples[..|triples| - 1]), triples[|triples| - 1]);
    }
  }

  /** The group and the attribute of `t` both exist already. */
  predicate Known(tables: Lookups, t: AttributeTriple) {
    && FirstEqual(tables.groups, t.group).Some?
    && FirstEqual(tables.attributes, Attribute(t.name, GroupIdFor(tables.groups, t.group))).Some?
  }

  /** Every group the loop adds is the label of one of the triples. */
  lemma {:induction false} ResolveAllAddsTripleGroups(tables: Lookups, triples: seq<AttributeTriple>)
    ensures forall k :: |tables.groups| <= k < |ResolveAll(tables, triples).groups| ==>
      exists i :: 0 <= i < |triples| && ResolveAll(tables, triples).groups[k] == triples[i].group
  {
    if triples != [] {
      var init, last := triples[..|triples| - 1], triples[|triples| - 1];
      var p := ResolveAll(tables, init);
      var r := ResolveAll(tables, triples);
      ResolveAllAddsTripleGroups(tables, init);
      forall k | |tables.groups| <= k < |r.groups|
        ensures exists i :: 0 <= i < |triples| && r.groups[k] == triples[i].group
      {
        if k < |p.groups| {
          var i :| 0 <= i < |init| && p.groups[k] == init[i].group;
          assert r.groups[k] == triples[i].group;
        } else {
          assert r.groups[k] == triples[|triples| - 1].group;
        }
      }
    } else {
      assert ResolveAll(tables, triples) == tables;
    }
  }

  /**
   * Every attribute the loop adds carries the name of one of the triples and lies in a
   * group with that triple's label.
   */
  lemma {:induction false} ResolveAllAddsTripleAttributes(tables: Lookups, triples: seq<AttributeTriple>)
    ensures forall k :: |tables.attributes| <= k < |ResolveAll(tables, triples).attributes| ==>
      exists i :: 0 <= i < |triples| && AttributeOf(ResolveAll(tables, triples).groups, ResolveAll(tables, triples).attributes[k], triples[i])
  {
    if triples != [] {
      var init, last := triples[..|triples| - 1], triples[|triples| - 1];
      var p := ResolveAll(tables, init);
      var r := ResolveAll(tables, triples);
      ResolveAllAddsTripleAttributes(tables, init);
      forall k | |tables.attributes| <= k < |r.attributes|
        ensures exists i :: 0 <= i < |triples| && AttributeOf(r.groups, r.attributes[k], triples[i])
      {
        if k < |p.attributes| {
          var i :| 0 <= i < |init| && AttributeOf(p.groups, p.attributes[k], init[i]);
          assert triples[i] == init[i];
          assert AttributeOf(r.groups, r.attributes[k], triples[i]);
        } else {
          assert AttributeOf(r.groups, r.attributes[k], last);
        }
      }
    } else {
      assert ResolveAll(tables, triples) == tables;
    }
  }

  /** `a` is an attribute with t's name in a group of `groups` labelled with t's heading. */
  predicate AttributeOf(groups: seq<string>, a: Attribute, t: AttributeTriple) {
    a.name == t.name && 1 <= a.groupId <= |groups| && groups[a.groupId - 1] == t.group
  }

  /** A first match stays the first match when rows are appended. */
  lemma FirstEqualGrow<T>(rows: seq<T>, rows': seq<T>, key: T)
    requires rows <= rows' && FirstEqual(rows, key).Some?
    ensures FirstEqual(rows', key) == FirstEqual(rows, key)
  {
    var j := FirstEqual(rows, key).value;
    assert rows'[j] == rows[j];
    assert forall i :: 0 <= i < j ==> rows'[i] == rows[i];
  }

  /** A triple that is known stays known, with the same group id, as the tables grow. */
  lemma KnownGrows(tables: Lookups, tables': Lookups, t: AttributeTriple)
    requires Known(tables, t)
    requires tables.groups <= tables'.groups && tables.attributes <= tables'.attributes
    ensures Known(tables', t)
    ensures GroupIdFor(tables'.groups, t.group) == GroupIdFor(tables.groups, t.group)
  {
    FirstEqualGrow(tables.groups, tables'.groups, t.group);
    FirstEqualGrow(tables.attributes, tables'.attributes, Attribute(t.name, GroupIdFor(tables.groups, t.group)));
  }

  /** After its step, a triple's group and attribute exist. */
  lemma ResolveStepKnown(tables: Lookups, t: AttributeTriple)
    ensures Known(ResolveStep(tables, t), t)
  {
    var r := ResolveStep(tables, t);
    var groupId := GroupIdFor(tables.groups, t.group);
    if FirstEqual(tables.groups, t.group).Some? {
      FirstEqualGrow(tables.groups, r.groups, t.group);
    } else {
      assert r.groups[|tables.groups|] == t.group;
    }
    assert GroupIdFor(r.groups, t.group) == groupId;
    if FirstEqual(tables.attributes, Attribute(t.name, groupId)).Some? {
      FirstEqualGrow(tables.attributes, r.attributes, Attribute(t.name, groupId));
    } else {
      assert r.attributes[|tables.attributes|] == Attribute(t.name, groupId);
    }
  }

  /** After the loop, every triple's group and attribute exist. */
  lemma {:induction false} ResolveAllMakesKnown(tables: Lookups, triples: seq<AttributeTriple>)
    ensures forall i :: 0 <= i < |triples| ==> Known(ResolveAll(tables, triples), triples[i])
  {
    if triples != [] {
      var init, last := triples[..|triples| - 1], triples[|triples| - 1];
      var p := ResolveAll(tables, init);
      var r := ResolveAll(tables, triples);
      ResolveAllMakesKnown(tables, init);
      ResolveStepKnown(p, last);
      forall i | 0 <= i < |triples| ensures Known(r, triples[i]) {
        if i < |init| {
          assert triples[i] == init[i];
          KnownGrows(p, r, init[i]);
        }
      }
    }
  }

  /** When every triple is known already, the loop adds no group and no attribute. */
  lemma {:induction false} ResolveAllKnown(tables: Lookups, triples: seq<AttributeTriple>)
    requires forall i :: 0 <= i < |triples| ==> Known(tables, triples[i])
    ensures ResolveAll(tables, triples) == tables
  {
    if triples != [] {
      var init := triples[..|triples| - 1];
      assert forall i :: 0 <= i < |init| ==> init[i] == triples[i];
      ResolveAllKnown(tables, init);
      assert Known(tables, triples[|triples| - 1]);
    }
  }

  /** Running the attribute loop a second time over the same triples adds nothing. */
  lemma ResolveAllIdempotent(tables: Lookups, triples: seq<AttributeTriple>)
    ensures ResolveAll(ResolveAll(tables, triples), triples) == ResolveAll(tables, triples)
  {
    ResolveAllMakesKnown(tables, triples);
    ResolveAllKnown(ResolveAll(tables, triples), triples);
  }

  /** The Image rows of a new product: one per gallery URL, in order. */
  function ImageRows(productId: nat, urls: seq<string>): seq<Image> {
    seq(|urls|, i requires 0 <= i < |urls| => Image(productId, urls[i]))
  }

  /** The product-side tables saveProduct writes. */
  datatype Tables = Tables(
    products: seq<Product>,
    images: seq<Image>,
    groups: seq<string>,
    attributes: seq<Attribute>,
    links: seq<ProductAttribute>)

  /** The brand step of saveProduct: afterwards the brand is known; a row is appended only when it was missing. */
  ghost predicate BrandStep(before: seq<Brand>, after: seq<Brand>, brand: Option<string>, slugify: string -> string) {
    && (Truthy(brand) ==> FirstWhere(after, BrandNamed(brand.value)).Some?)
    && (!Truthy(brand) || FirstWhere(before, BrandNamed(brand.value)).Some? ==> after == before)
    && (after != before ==> brand.Some? && after == before + [Brand(brand.value, slugify(brand.value))])
  }

  /**
   * The category step of saveProduct: afterwards the category is known; when it was
   * missing it is added as a root category with its slug as its full slug and level 1.
   */
  ghost predicate CategoryStep(before: map<nat, Category>, nextBefore: nat, after: map<nat, Category>, nextAfter: nat,
                               name: string, slugify: string -> string) {
    && (!Falsy(name) ==> FirstNamed(after, name, 1, nextAfter).Some?)
    && (Falsy(name) || FirstNamed(before, name, 1, nextBefore).Some? ==> after == before && nextAfter == nextBefore)
    && (after != before ==> after == before[nextBefore := Category(0, name, slugify(name), slugify(name), 1)])
  }

  /**
   * The product step of saveProduct. Afterwards a product with d's external id exists.
   * When one existed, it gets d's price, original price and availability and every other
   * row of every table is as before. Otherwise one Product row with d's fields is appended
   * (its brand and category ids are set apart), then one Image row per gallery URL, and
   * one product_attributes row per attribute triple linking the new product to it.
   */
  ghost predicate ProductStep(d: ProductData, before: Tables, after: Tables) {
    var hit := FirstWhere(before.products, WithExternalId(d.externalId));
    && FirstWhere(after.products, WithExternalId(d.externalId)).Some?
    && (hit.Some? ==>
          after == before.(products := before.products[hit.value := before.products[hit.value].(
            price := d.price, originalPrice := d.originalPrice, isAvailable := d.isAvailable)]))
    && (hit.None? ==>
          && |after.products| == |before.products| + 1 && before.products <= after.products
          && after.products[|before.products|].(brandId := 0, categoryId := 0)
               == Product(d.externalId, d.name, d.description, d.price, d.originalPrice, d.isAvailable, 0, 0)
          && after.images == before.images + ImageRows(|after.products|, d.images)
          && Lookups(after.groups, after.attributes) == ResolveAll(Lookups(before.groups, before.attributes), d.attributes)
          && before.links <= after.links && |after.links| == |before.links| + |d.attributes|
          && forall k :: 0 <= k < |d.attributes| ==>
               Links(after.links[|before.links| + k], |after.products|, d.attributes[k], after.groups, after.attributes))
  }

  /** The three parts of the create branch together make its product step. */
  lemma ProductCreated(d: ProductData, before: Tables, after: Tables, p: Product, productId: nat, base: nat)
    requires FirstWhere(before.products, WithExternalId(d.externalId)).None?
    requires p.(brandId := 0, categoryId := 0) == Product(d.externalId, d.name, d.description, d.price, d.originalPrice, d.isAvailable, 0, 0)
    requires after.products == before.products + [p]
    requires after.images == before.images + ImageRows(|after.products|, d.images)
    requires Lookups(after.groups, after.attributes) == ResolveAll(Lookups(before.groups, before.attributes), d.attributes)
    requires before.links <= after.links && |after.links| == |before.links| + |d.attributes|
    requires productId == |after.products| && base == |before.links|
    requires LinksRun(after.links, base, productId, d.attributes, |d.attributes|, after.groups, after.attributes)
    ensures ProductStep(d, before, after)
  {
    LinksRunAll(after.links, base, productId, d.attributes, |d.attributes|, after.groups, after.attributes);
    assert WithExternalId(d.externalId)(after.products[|before.products|]);
  }

  /**
   * After the product step, the product with d's external id carries d's price, original
   * price and availability, whichever branch was taken.
   */
  lemma ProductStepStoresRecord(d: ProductData, before: Tables, after: Tables)
    requires ProductStep(d, before, after)
    ensures FirstWhere(after.products, WithExternalId(d.externalId)).Some?
    ensures var p := after.products[FirstWhere(after.products, WithExternalId(d.externalId)).value];
      p.price == d.price && p.originalPrice == d.originalPrice && p.isAvailable == d.isAvailable
  {
    var key := WithExternalId(d.externalId);
    var hit := FirstWhere(before.products, key);
    var j := if hit.Some? then hit.value else |before.products|;
    forall i | 0 <= i < j
      ensures !key(after.products[i])
    {
      assert after.products[i] == before.products[i];
    }
    FirstWhereAt(after.products, key, j);
  }

  // ---------------------------------------------------------------------------
  // The catalog store
  // ---------------------------------------------------------------------------

  class Catalog {
    /** Str::slug, the transliterating slug function of the framework. */
    const slugify: string -> string
    const categories: CategoryStore
    var brands: seq<Brand>
    var groups: seq<string>
    var attributes: seq<Attribute>
    var products: seq<Product>
    var images: seq<Image>
    var productAttributes: seq<ProductAttribute>
    /** The records passed to saveProduct, in call order. */
    ghost var saved: seq<ProductData>

    /**
     * At most one row per lookup key in every table firstOrCreate and the external-id
     * lookup guard, every reference points at an existing row, and the category rows
     * are derived as the hook derives them.
     */
    ghost predicate Valid()
      reads this`brands, this`groups, this`attributes, this`products, this`images, this`productAttributes, categories
    {
      && CategoriesValid() && UniqueBrandNames(brands) && AttributesValid()
      && ProductsValid() && ImagesValid() && LinksValid()
    }

    /** The category rows are the store's, saved through the hook with the same slug function. */
    ghost predicate CategoriesValid()
      reads categories
    {
      categories.Valid() && categories.slugify == slugify
    }

    ghost predicate AttributesValid()
      reads this`groups, this`attributes
    {
      Distinct(groups) && Distinct(attributes) && forall a :: a in attributes ==> 1 <= a.groupId <= |groups|
    }

    ghost predicate ProductsValid()
      reads this`products, this`brands, categories
    {
      && UniqueExternalIds(products)
      && forall p :: p in products ==> p.brandId <= |brands| && (p.categoryId == 0 || p.categoryId in categories.rows)
    }

    ghost predicate ImagesValid()
      reads this`images, this`products
    {
      forall im :: im in images ==> 1 <= im.productId <= |products|
    }

    ghost predicate LinksValid()
      reads this`productAttributes, this`products, this`attributes
    {
      forall pa :: pa in productAttributes ==> 1 <= pa.productId <= |products| && 1 <= pa.attributeId <= |attributes|
    }

    ghost function ProductTables(): Tables
      reads this`products, this`images, this`groups, this`attributes, this`productAttributes
    {
      Tables(products, images, groups, attributes, productAttributes)
    }

    constructor (slugify: string -> string)
      ensures Valid() && fresh(categories) && this.slugify == slugify
      ensures brands == [] && groups == [] && attributes == [] && products == [] && images == [] && productAttributes == []
      ensures categories.rows == map[] && saved == []
    {
      this.slugify := slugify;
      categories := new CategoryStore(slugify);
      brands, groups, attributes := [], [], [];
      products, images, productAttributes := [], [], [];
      saved := [];
    }

    /** Brand::firstOrCreate(['name' => name], ['slug' => Str::slug(name)]). */
    method FirstOrCreateBrand(name: string) returns (id: nat)
      requires Valid()
      modifies this`brands
      ensures Valid()
      ensures 1 <= id <= |brands| && brands[id - 1].name == name
      ensures FirstWhere(old(brands), BrandNamed(name)).Some? ==>
        brands == old(brands) && id == FirstWhere(old(brands), BrandNamed(name)).value + 1
      ensures FirstWhere(old(brands), BrandNamed(name)).None? ==>
        brands == old(brands) + [Brand(name, slugify(name))] && id == |brands|
    {
      var found := FirstWhere(brands, BrandNamed(name));
      if found.Some? {
        return found.value + 1;
      }
      brands := brands + [Brand(name, slugify(name))];
      id := |brands|;
    }

    /** AttributeGroup::firstOrCreate(['name' => name]). */
    method FirstOrCreateGroup(name: string) returns (id: nat)
      requires AttributesValid()
      modifies this`groups
      ensures AttributesValid()
      ensures 1 <= id <= |groups| && groups[id - 1] == name
      ensures FirstEqual(old(groups), name).Some? ==>
        groups == old(groups) && id == FirstEqual(old(groups), name).value + 1
      ensures FirstEqual(old(groups), name).None? ==>
        groups == old(groups) + [name] && id == |groups|
    {
      var found := FirstEqual(groups, name);
      if found.Some? {
        return found.value + 1;
      }
      groups := groups + [name];
      id := |groups|;
    }

    /** Attribute::firstOrCreate(['name' => name, 'attribute_group_id' => groupId]). */
    method FirstOrCreateAttribute(name: string, groupId: nat) returns (id: nat)
      requires AttributesValid() && 1 <= groupId <= |groups|
      modifies this`attributes
      ensures AttributesValid()
      ensures 1 <= id <= |attributes| && attributes[id - 1] == Attribute(name, groupId)
      ensures FirstEqual(old(attributes), Attribute(name, groupId)).Some? ==>
        attributes == old(attributes) && id == FirstEqual(old(attributes), Attribute(name, groupId)).value + 1
      ensures FirstEqual(old(attributes), Attribute(name, groupId)).None? ==>
        attributes == old(attributes) + [Attribute(name, groupId)] && id == |attributes|
    {
      var found := FirstEqual(attributes, Attribute(name, groupId));
      if found.Some? {
        return found.value + 1;
      }
      attributes := attributes + [Attribute(name, groupId)];
      id := |attributes|;
    }

    /** The image loop of saveProduct: one Image row per URL, in order, for the new product. */
    method AddImages(productId: nat, urls: seq<string>)
      requires Valid() && 1 <= productId <= |products|
      modifies this`images
      ensures Valid()
      ensures images == old(images) + ImageRows(productId, urls)
    {
      var i := 0;
      while i < |urls|
        invariant 0 <= i <= |urls|
        invariant Valid()
        invariant images == old(images) + ImageRows(productId, urls[..i])
      {
        assert ImageRows(productId, urls[..i + 1]) == ImageRows(productId, urls[..i]) + [Image(productId, urls[i])];
        images := images + [Image(productId, urls[i])];
        i := i + 1;
      }
      assert urls[..i] == urls;
    }

    /** One attribute triple of saveProduct: firstOrCreate its group, then its attribute in that group. */
    method ResolveAttribute(t: AttributeTriple) returns (attributeId: nat)
      requires AttributesValid()
      modifies this`groups, this`attributes
      ensures AttributesValid()
      ensures Lookups(groups, attributes) == ResolveStep(Lookups(old(groups), old(attributes)), t)
      ensures 1 <= attributeId <= |attributes| && attributes[attributeId - 1] == Attribute(t.name, GroupIdFor(old(groups), t.group))
      ensures 1 <= attributes[attributeId - 1].groupId <= |groups| && groups[attributes[attributeId - 1].groupId - 1] == t.group
    {
      var groupId := FirstOrCreateGroup(t.group);
      attributeId := FirstOrCreateAttribute(t.name, groupId);
    }

    /** One pass of the attribute loop: resolve the triple's attribute, then link the product to it with the triple's value. */
    method AddAttribute(productId: nat, t: AttributeTriple) returns (attributeId: nat)
      requires AttributesValid()
      modifies this`groups, this`attributes, this`productAttributes
      ensures AttributesValid()
      ensures Lookups(groups, attributes) == ResolveStep(Lookups(old(groups), old(attributes)), t)
      ensures productAttributes == old(productAttributes) + [ProductAttribute(productId, attributeId, t.value)]
      ensures Links(ProductAttribute(productId, attributeId, t.value), productId, t, groups, attributes)
    {
      attributeId := ResolveAttribute(t);
      productAttributes := productAttributes + [ProductAttribute(productId, attributeId, t.value)];
    }

    /**
     * The attribute loop of saveProduct: per triple, resolve its attribute, then add one
     * product_attributes row linking the product to it with the triple's value, in triple order.
     */
    method AddAttributes(productId: nat, triples: seq<AttributeTriple>)
      requires AttributesValid() && LinksValid() && 1 <= productId <= |products|
      modifies this`groups, this`attributes, this`productAttributes
      ensures AttributesValid() && LinksValid()
      ensures Lookups(groups, attributes) == ResolveAll(Lookups(old(groups), old(attributes)), triples)
      ensures old(productAttributes) <= productAttributes
      ensures |productAttributes| == |old(productAttributes)| + |triples|
      ensures LinksRun(productAttributes, |old(productAttributes)|, productId, triples, |triples|, groups, attributes)
    {
      var i := 0;
      while i < |triples|
        invariant 0 <= i <= |triples|
        invariant AttributesValid()
        invariant Lookups(groups, attributes) == ResolveAll(Lookups(old(groups), old(attributes)), triples[..i])
        invariant old(productAttributes) <= productAttributes
        invariant |productAttributes| == |old(productAttributes)| + i
        invariant LinksRun(productAttributes, |old(productAttributes)|, productId, triples, i, groups, attributes)
      {
        ghost var before, links0 := Lookups(groups, attributes), productAttributes;
        var attributeId := AddAttribute(productId, triples[i]);
        AttributeLoopStep(Lookups(old(groups), old(attributes)), triples, i, |old(productAttributes)|, productId, before, links0, Lookups(groups, attributes), productAttributes, attributeId);
        i := i + 1;
      }
      assert triples[..i] == triples;
      ResolveAllGrows(Lookups(old(groups), old(attributes)), triples);
      AttributeLoopDone(triples, |old(productAttributes)|, productId, |products|, old(productAttributes), productAttributes, groups, attributes, |old(attributes)|);
    }

    /** The brand step of saveProduct: a brand name that is not falsy is firstOrCreate'd, otherwise brand_id is NULL. */
    method ResolveBrand(brand: Option<string>) returns (id: nat)
      requires Valid()
      modifies this`brands
      ensures Valid()
      ensures BrandResolved(id, brands, brand)
      ensures BrandStep(old(brands), brands, brand, slugify)
    {
      id := 0;
      if brand.Some? && !Falsy(brand.value) {
        id := FirstOrCreateBrand(brand.value);
        assert BrandNamed(brand.value)(brands[id - 1]);
      }
    }

    /** The category step of saveProduct: a category name that is not falsy is firstOrCreate'd as a root category. */
    method ResolveCategory(name: string) returns (id: nat)
      requires Valid()
      modifies categories
      ensures Valid()
      ensures old(UniqueNames(categories.rows)) ==> UniqueNames(categories.rows)
      ensures old(Coherent(categories.rows)) ==> Coherent(categories.rows)
      ensures CategoryResolved(id, categories.rows, name)
      ensures CategoryStep(old(categories.rows), old(categories.nextId), categories.rows, categories.nextId, name, slugify)
    {
      id := 0;
      if !Falsy(name) {
        id := categories.FirstOrCreate(name, slugify(name));
      }
    }

    /**
     * The product step of saveProduct: the product with the same external id gets the new
     * price, original price and availability and nothing else; without one, the product is
     * created with the resolved brand and category ids, then its images and attribute links.
     */
    method UpsertProduct(d: ProductData, brandId: nat, categoryId: nat)
      requires Valid()
      requires brandId <= |brands| && (categoryId == 0 || categoryId in categories.rows)
      modifies this`products, this`images, this`groups, this`attributes, this`productAttributes
      ensures Valid()
      ensures ProductStep(d, old(ProductTables()), ProductTables())
      ensures |products| > |old(products)| ==>
        products[|old(products)|].brandId == brandId && products[|old(products)|].categoryId == categoryId
    {
      var found := FirstWhere(products, WithExternalId(d.externalId));
      if found.Some? {
        UpdateProduct(found.value, d);
      } else {
        CreateProduct(d, brandId, categoryId);
      }
    }

    /** The update branch of saveProduct: only price, original price and availability change. */
    method UpdateProduct(i: nat, d: ProductData)
      requires Valid() && FirstWhere(products, WithExternalId(d.externalId)) == Some(i)
      modifies this`products
      ensures Valid()
      ensures ProductStep(d, old(ProductTables()), ProductTables())
    {
      products := products[i := products[i].(price := d.price, originalPrice := d.originalPrice, isAvailable := d.isAvailable)];
      assert WithExternalId(d.externalId)(products[i]);
    }

    /** The create branch of saveProduct: the Product row, then its Image rows, then its attribute links. */
    method CreateProduct(d: ProductData, brandId: nat, categoryId: nat)
      requires Valid() && FirstWhere(products, WithExternalId(d.externalId)).None?
      requires brandId <= |brands| && (categoryId == 0 || categoryId in categories.rows)
      modifies this`products, this`images, this`groups, this`attributes, this`productAttributes
      ensures Valid()
      ensures ProductStep(d, old(ProductTables()), ProductTables())
      ensures products[|old(products)|].brandId == brandId && products[|old(products)|].categoryId == categoryId
    {
      ghost var before := ProductTables();
      var p := Product(d.externalId, d.name, d.description, d.price, d.originalPrice, d.isAvailable, brandId, categoryId);
      var productId := AppendProduct(p);
      AddImages(productId, d.images);
      AddAttributes(productId, d.attributes);
      ProductCreated(d, before, ProductTables(), p, productId, |before.links|);
    }

    /** Product::create: a new row whose external id no product has yet gets the next id. */
    method AppendProduct(p: Product) returns (id: nat)
      requires Valid() && FirstWhere(products, WithExternalId(p.externalId)).None?
      requires p.brandId <= |brands| && (p.categoryId == 0 || p.categoryId in categories.rows)
      modifies this`products
      ensures Valid()
      ensures products == old(products) + [p] && id == |products|
    {
      forall j | 0 <= j < |products|
        ensures products[j].externalId != p.externalId
      {
        assert !WithExternalId(p.externalId)(products[j]);
      }
      products := products + [p];
      id := |products|;
    }

    /** The brand and category steps of saveProduct, in that order. */
    method ResolveReferences(d: ProductData) returns (brandId: nat, categoryId: nat)
      requires Valid()
      modifies this`brands, categories
      ensures Valid()
      ensures old(UniqueNames(categories.rows)) ==> UniqueNames(categories.rows)
      ensures old(Coherent(categories.rows)) ==> Coherent(categories.rows)
      ensures BrandResolved(brandId, brands, d.brand) && CategoryResolved(categoryId, categories.rows, d.category)
      ensures BrandStep(old(brands), brands, d.brand, slugify)
      ensures CategoryStep(old(categories.rows), old(categories.nextId), categories.rows, categories.nextId, d.category, slugify)
    {
      brandId := ResolveBrand(d.brand);
      categoryId := ResolveCategory(d.category);
    }

    /**
     * saveProduct: resolve the brand and the category by firstOrCreate, then update or
     * create the product; afterwards the brand, the category and the product are all known.
     */
    method SaveProduct(d: ProductData)
      requires Valid()
      modifies this, categories
      ensures Valid()
      ensures old(UniqueNames(categories.rows)) ==> UniqueNames(categories.rows)
      ensures old(Coherent(categories.rows)) ==> Coherent(categories.rows)
      ensures saved == old(saved) + [d]
      ensures BrandStep(old(brands), brands, d.brand, slugify)
      ensures CategoryStep(old(categories.rows), old(categories.nextId), categories.rows, categories.nextId, d.category, slugify)
      ensures ProductStep(d, old(ProductTables()), ProductTables())
      ensures |products| > |old(products)| ==>
        && BrandResolved(products[|old(products)|].brandId, brands, d.brand)
        && CategoryResolved(products[|old(products)|].categoryId, categories.rows, d.category)
    {
      saved := saved + [d];
      var brandId, categoryId := ResolveReferences(d);
      UpsertProduct(d, brandId, categoryId);
    }

    /**
     * Saving the same record a second time adds no Brand, Category, AttributeGroup,
     * Attribute, Product, Image or ProductAttribute row: the tables the second call
     * leaves are, row count for row count, the ones the first call left.
     */
    method SaveProductTwice(d: ProductData)
      returns (ghost brands1: seq<Brand>, ghost categories1: map<nat, Category>, ghost groups1: seq<string>,
               ghost attributes1: seq<Attribute>, ghost products1: seq<Product>,
               ghost images1: seq<Image>, ghost productAttributes1: seq<ProductAttribute>)
      requires Valid()
      modifies this, categories
      ensures Valid()
      ensures old(UniqueNames(categories.rows)) ==> UniqueNames(categories.rows)
      ensures old(Coherent(categories.rows)) ==> Coherent(categories.rows)
      ensures brands == brands1 && categories.rows == categories1 && groups == groups1 && attributes == attributes1
      ensures products == products1 && images == images1 && productAttributes == productAttributes1
    {
      SaveProduct(d);
      brands1, categories1, groups1, attributes1 := brands, categories.rows, groups, attributes;
      products1, images1, productAttributes1 := products, images, productAttributes;
      ProductStepStoresRecord(d, old(ProductTables()), ProductTables());
      SaveProduct(d);
    }

    /** The product loop of handle: every URL in order, saving each record that parses. */
    method SaveAll(fetch: string -> Option<ProductPage>, categoryName: string, urls: seq<string>)
      requires Valid()
      modifies this, categories
      ensures Valid()
      ensures old(UniqueNames(categories.rows)) ==> UniqueNames(categories.rows)
      ensures old(Coherent(categories.rows)) ==> Coherent(categories.rows)
      ensures saved == old(saved) + ParsedProducts(fetch, categoryName, urls)
    {
      var i := 0;
      while i < |urls|
        invariant 0 <= i <= |urls|
        invariant Valid()
        invariant old(UniqueNames(categories.rows)) ==> UniqueNames(categories.rows)
        invariant old(Coherent(categories.rows)) ==> Coherent(categories.rows)
        invariant saved == old(saved) + ParsedProducts(fetch, categoryName, urls[..i])
      {
        SaveIfParsed(fetch(urls[i]), categoryName);
        ParsedProductsStep(fetch, categoryName, urls, i);
        i := i + 1;
      }
      assert urls[..i] == urls;
    }

    /** One iteration of handle: parse the fetched page and save the record unless it is null. */
    method SaveIfParsed(fetched: Option<ProductPage>, categoryName: string)
      requires Valid()
      modifies this, categories
      ensures Valid()
      ensures old(UniqueNames(categories.rows)) ==> UniqueNames(categories.rows)
      ensures old(Coherent(categories.rows)) ==> Coherent(categories.rows)
      ensures ParseProduct(fetched, categoryName).None? ==> unchanged(this) && unchanged(categories)
      ensures saved == old(saved) + (if ParseProduct(fetched, categoryName).Some? then [ParseProduct(fetched, categoryName).value] else [])
    {
      var productData := ParseProduct(fetched, categoryName);
      if productData.Some? {
        SaveProduct(productData.value);
      }
    }

    /**
     * handle: without a category URL nothing is done; otherwise the listing is crawled
     * (a failed listing fetch aborts the run) and every product URL is parsed, in order,
     * with saveProduct called for each record that is not null.
     */
    method Handle(categoryUrl: string, categoryName: string, listing: nat -> Option<ListingPage>, ghost last: nat,
                  fetch: string -> Option<ProductPage>) returns (outcome: RunOutcome)
      requires Valid()
      requires 1 <= last && Halts(listing(last))
      modifies this, categories
      ensures Valid()
      ensures old(UniqueNames(categories.rows)) ==> UniqueNames(categories.rows)
      ensures old(Coherent(categories.rows)) ==> Coherent(categories.rows)
      ensures Falsy(categoryUrl) ==> outcome == MissingCategoryUrl
      ensures !Falsy(categoryUrl) && ProductUrls(listing, last).Failure? ==>
        outcome == ListingFetchFailed(ProductUrls(listing, last).error)
      ensures !Falsy(categoryUrl) && ProductUrls(listing, last).Success? ==>
        && outcome == Completed
        && saved == old(saved) + ParsedProducts(fetch, categoryName, ProductUrls(listing, last).value)
      ensures !outcome.Completed? ==> unchanged(this) && unchanged(categories)
    {
      if Falsy(categoryUrl) {
        return MissingCategoryUrl;
      }
      var productUrls := GetProductUrls(listing, last);
      if productUrls.Failure? {
        return ListingFetchFailed(productUrls.error);
      }
      SaveAll(fetch, categoryName, productUrls.value);
      return Completed;
    }
  }
}
