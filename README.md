# 2cent.ru catalogue parser — a Dafny model

The `parse:2cent` console command is part of a Laravel application. It crawls one category of
the 2cent.ru shop and reconciles every product it finds with a relational catalogue. The tables
are brands, categories, attribute groups, attributes, products, images and product-attribute
links. The command works in four steps:

- it walks the listing pages `?p=1, 2, …` until a page has no "next" marker;
- it collects and normalises the product links;
- it fetches each product page and extracts a record, where any lookup that throws makes the
  record null;
- it saves every record that is not null, in URL order. Saving finds or creates the brand and
  the category, then updates the product with the same external id or creates it together with
  its images and attribute links.

Every category write goes through the `saving` hook of the Category model. The hook fills in an
empty slug and derives `level` and `full_slug` from the parent row as it is stored at that
moment.

The model has five modules:

- `Wrappers`: `Option` and `Result`.
- `Php`: the PHP semantics the code relies on: string truthiness, `strpos` containment and
  `trim`.
- `Scraper`: URL normalisation, the pagination loop, price clean-up, external-id, brand and
  attribute extraction, and product assembly. A fetched page is a record of the answers its
  selectors give; a failed fetch is `None`.
- `Categories`: the `saving` hook as a function, the hierarchy invariant and what it implies,
  and a `CategoryStore` class over `map<nat, Category>` with create, save and firstOrCreate.
- `Catalog`: a `Catalog` class whose tables are sequences (row id k at position k − 1; a
  reference column holds 0 for NULL). It provides the firstOrCreate methods, `saveProduct` in
  its steps, and `handle`.

Loops in the source are loops in the model: the do-while of `getProductUrls`, the nested `each`
of `extractAttributes`, the product loop of `handle`, and the image and attribute loops of
`saveProduct`. Each such method is proved against a specification function, and the functions'
properties are proved as lemmas.

The HTTP client is modelled as parameters:

- `listing: nat -> Option<ListingPage>` answers the fetch of one listing page.
- `fetch: string -> Option<ProductPage>` answers the fetch of one product URL.

`Str::slug` is an uninterpreted `slugify: string -> string`, shared by the catalogue and the
category store.

Three behaviours of the code that are easy to misread:

- A page without the `offer` input makes the whole product null. Reading an attribute of an
  empty node list throws; it does not give a null external id.
- A price whose text has no digit, comma or dot cleans to `""`. The code casts that to `0`; it
  does not become null.
- A record whose external id is null matches an existing product whose external id is null.
  `where('external_id', null)` becomes `whereNull`.

## Model

| member | source | states |
|---|---|---|
| Scraper.NormalizeUrl | app/Console/Commands/Parse2CentSite.php:299-306 | the result starts with "http"; it equals the input exactly when the input starts with "http", and is otherwise the base URL followed by the input |
| Scraper.NormalizeUrlIdempotent | app/Console/Commands/Parse2CentSite.php:22 | normalising twice equals normalising once, because the base URL starts with "http" |
| Scraper.NormalizeAll | app/Console/Commands/Parse2CentSite.php:109-112 | definition: every href of a list normalised, in order, one result per href |
| Scraper.PageLinks | app/Console/Commands/Parse2CentSite.php:109-112 | definition: the normalised links of one listing page, in card order |
| Scraper.LinksOfPages | app/Console/Commands/Parse2CentSite.php:109-114 | definition: the links of pages lo..hi concatenated in page order, duplicates kept, as `array_merge` accumulates them |
| Scraper.ProductUrls | app/Console/Commands/Parse2CentSite.php:92-124 | definition: the crawl from page 1, the reference result that `GetProductUrls` is proved to return |
| Scraper.Crawl | app/Console/Commands/Parse2CentSite.php:94-123 | a failed crawl names a page in range whose fetch failed; a successful crawl fetched the start page and its links come first |
| Scraper.CrawlStopsAtFirstPageWithoutNext | app/Console/Commands/Parse2CentSite.php:98-121 | if pages before k show "next" and page k does not, exactly pages page..k are fetched, and the result is their normalised links concatenated in page order, duplicates kept |
| Scraper.CrawlFailsAtFirstFailedFetch | app/Console/Commands/Parse2CentSite.php:101-105 | if pages before k show "next" and the fetch of page k fails, the crawl fails at page k |
| Scraper.CrawlIgnoresBound | app/Console/Commands/Parse2CentSite.php:98-121 | the halting page that bounds the crawl does not affect its result |
| Scraper.GetProductUrls | app/Console/Commands/Parse2CentSite.php:92-124 | the do-while loop returns exactly the crawl of pages 1, 2, …, or the failure of the first failed fetch |
| Scraper.StripPrice | app/Console/Commands/Parse2CentSite.php:194 | only digits, commas and dots remain, and the text never grows |
| Scraper.CommasToDots | app/Console/Commands/Parse2CentSite.php:195 | definition: `str_replace(',', '.', …)`, each comma replaced by a dot and every other character kept |
| Scraper.CleanPrice | app/Console/Commands/Parse2CentSite.php:194-195 | the cleaned price holds only digits and dots |
| Scraper.CleanPriceAppend | app/Console/Commands/Parse2CentSite.php:194-195 | cleaning works character by character, so the cleaned a + b is the cleaned a followed by the cleaned b |
| Scraper.StripPriceAppend | app/Console/Commands/Parse2CentSite.php:194 | deleting non-price characters distributes over concatenation |
| Scraper.CleanPriceChar | app/Console/Commands/Parse2CentSite.php:194-195 | one character: a digit or dot is kept, a comma becomes a dot, anything else is deleted |
| Scraper.CleanPriceIdempotent | app/Console/Commands/Parse2CentSite.php:194-195 | cleaning an already cleaned price changes nothing |
| Scraper.StripKeepsPriceText | app/Console/Commands/Parse2CentSite.php:194 | text made only of price characters is unchanged by the deletion |
| Scraper.CleanPriceExample | app/Console/Commands/Parse2CentSite.php:192-195 | "1 299,9 ₽" cleans to "1299.9" |
| Scraper.EmptyResidueIsNotNull | app/Console/Commands/Parse2CentSite.php:191-197 | a present price node with no digit, comma or dot gives the empty cleaned text, not null |
| Scraper.StripDropsNonPriceText | app/Console/Commands/Parse2CentSite.php:194 | text with no price character strips to the empty string |
| Scraper.ExtractPrice | app/Console/Commands/Parse2CentSite.php:187-201 | absent node gives null, and null only then; a present node gives its cleaned text |
| Scraper.ExtractExternalId | app/Console/Commands/Parse2CentSite.php:167-172 | throws exactly when the offer input is missing; null exactly when its value is null, "" or "0"; otherwise the value itself |
| Scraper.ManufacturerRows | app/Console/Commands/Parse2CentSite.php:176-178 | keeps exactly the characteristic rows whose text contains "Производитель" |
| Scraper.BoldTexts | app/Console/Commands/Parse2CentSite.php:181 | the bold texts of the rows, and empty exactly when no row has one |
| Scraper.ManufacturerRowsAppend | app/Console/Commands/Parse2CentSite.php:176-178 | the filter distributes over concatenation, so the matching rows keep their document order |
| Scraper.BoldTextsAppend | app/Console/Commands/Parse2CentSite.php:181 | the bold texts of rows a + b are those of a followed by those of b: document order |
| Scraper.MatchingBoldsUnfold | app/Console/Commands/Parse2CentSite.php:176-181 | the bold texts of the matching rows are the first row's bold texts, when that row matches, followed by those of the remaining rows |
| Scraper.FirstMatchingBold | app/Console/Commands/Parse2CentSite.php:176-181 | some matching row has a bold text exactly when the first matching row with bold texts exists, and the first bold text of the filtered rows is that row's first bold text |
| Scraper.ExtractBrand | app/Console/Commands/Parse2CentSite.php:174-185 | null exactly when no row mentions the manufacturer; throws exactly when some row does but none of those rows has a bold value |
| Scraper.ExtractBrandFirstBold | app/Console/Commands/Parse2CentSite.php:174-185 | a brand is found exactly when some matching row has a bold value, and it is the first bold text of the first such row in document order |
| Scraper.RowTriple | app/Console/Commands/Parse2CentSite.php:211-223 | definition: a row with both a name cell and a value cell gives one triple of the group heading and the trimmed name and value; any other row gives none |
| Scraper.RowTriples | app/Console/Commands/Parse2CentSite.php:210-224 | definition: the triples of a group's rows, in row order; the reference the inner loop is proved equal to |
| Scraper.AttributesOf | app/Console/Commands/Parse2CentSite.php:203-228 | definition: group by group, the heading's row triples appended in order, and an exception as soon as a group has no heading; the reference the nested loops are proved equal to |
| Scraper.RowTriplesStep | app/Console/Commands/Parse2CentSite.php:210-224 | one more row appends its triple, if it has one |
| Scraper.AttributesThrowIffUnlabelled | app/Console/Commands/Parse2CentSite.php:207-208 | attribute extraction throws exactly when some group has no heading |
| Scraper.RowTriplesCount | app/Console/Commands/Parse2CentSite.php:211-223 | exactly one triple per row that has both a name cell and a value cell |
| Scraper.AttributesCount | app/Console/Commands/Parse2CentSite.php:205-227 | over all groups, the number of triples is the number of complete rows |
| Scraper.RowTriplesShape | app/Console/Commands/Parse2CentSite.php:215-222 | every triple of a group carries that group's heading and a trimmed name and value |
| Scraper.AttributesShape | app/Console/Commands/Parse2CentSite.php:207-225 | every extracted triple has a trimmed name and value and the heading of one of the groups |
| Scraper.AttributesAppend | app/Console/Commands/Parse2CentSite.php:207-227 | the triples of groups a + b are those of a followed by those of b, and the extraction throws if either part throws: group order, then row order |
| Scraper.AttributesSnoc | app/Console/Commands/Parse2CentSite.php:207-225 | one more group appends its triples, or throws when it has no heading |
| Scraper.AttributesStep | app/Console/Commands/Parse2CentSite.php:207-225 | the step from the first i groups to the first i + 1 |
| Scraper.ThrowsOnPrefix | app/Console/Commands/Parse2CentSite.php:207-208 | once a prefix of the groups throws, the whole extraction throws |
| Scraper.ExtractRowTriples | app/Console/Commands/Parse2CentSite.php:210-224 | the inner row loop returns exactly the triples of the complete rows, trimmed, in row order |
| Scraper.ExtractAttributes | app/Console/Commands/Parse2CentSite.php:203-228 | the nested loops return exactly the specified extraction, including the exception of a group without a heading |
| Scraper.ParseProduct | app/Console/Commands/Parse2CentSite.php:126-165 | the record is null exactly when the fetch fails, the title is missing, or the external id, brand or attribute extraction throws; otherwise each field follows its rule: availability is the absence of the badge, the description defaults to "", images are the normalised gallery sources, and the category is the one passed in |
| Scraper.ParsedProducts | app/Console/Commands/Parse2CentSite.php:63-71 | definition: the parsed record of each URL whose product is not null, in URL order; the reference the product loop's log is proved equal to |
| Scraper.ParsedProductsAppend | app/Console/Commands/Parse2CentSite.php:63-71 | the records of URLs a + b are those of a followed by those of b |
| Scraper.ParsedProductsStep | app/Console/Commands/Parse2CentSite.php:66-70 | one more URL appends its record when its product is not null, and nothing otherwise |
| Scraper.ParsedProductsSingle | app/Console/Commands/Parse2CentSite.php:66-70 | a URL whose product is null contributes no record; any other URL contributes exactly its record |
| Php.Falsy | app/Console/Commands/Parse2CentSite.php:43 | definition: PHP's falsy strings, "" and "0"; also the test of `empty($model->slug)` at app/Models/Category.php:34 |
| Php.Truthy | app/Console/Commands/Parse2CentSite.php:171 | definition: a nullable string is true unless it is null, "" or "0", the test of `$externalId ?`, of the brand at :237 and of the category at :245 |
| Php.Contains | app/Console/Commands/Parse2CentSite.php:177 | definition: the substring occurs at the start of some suffix, the reading of `strpos(...) !== false` that `ContainsAt` proves positional |
| Php.ContainsAt | app/Console/Commands/Parse2CentSite.php:177 | `strpos(...) !== false` holds exactly when some offset starts an occurrence |
| Php.TrimLeft | app/Console/Commands/Parse2CentSite.php:215-216 | drops exactly the leading run of trim characters |
| Php.TrimRight | app/Console/Commands/Parse2CentSite.php:215-216 | drops exactly the trailing run of trim characters |
| Php.Trim | app/Console/Commands/Parse2CentSite.php:215-216 | the result has no trim character at either end, and is a slice of the input with only trim characters around it |
| Php.TrimEnds | app/Console/Commands/Parse2CentSite.php:215-216 | removing the trailing run after the leading one leaves no trim character at either end |
| Php.TrimSlice | app/Console/Commands/Parse2CentSite.php:215-216 | what is left after both runs are dropped is a slice of the input with only trim characters before and after it |
| Php.TrimKeepsTrimmed | app/Console/Commands/Parse2CentSite.php:215-216 | trimming a string that has no trim character at either end leaves it unchanged |
| Categories.Saving | app/Models/Category.php:33-57 | an empty slug becomes slug(name), and any other slug is kept; a root gets level 1 and full_slug = slug; a child gets its stored parent's level + 1 and full_slug + "/" + slug; a missing parent aborts the save |
| Categories.Depth | app/Models/Category.php:38-43 | the depth of a category is at least 1 |
| Categories.SlugPath | app/Models/Category.php:49-57 | the root-to-node slug path has one slug per level |
| Categories.CoherentDerivedFields | app/Models/Category.php:38-57 | in a store where every row agrees with its stored parent, whatever the order of the ids, level is the depth (at least 1) and full_slug is the root-to-node slugs joined by "/" |
| Categories.SavingNewKeepsCoherent | app/Models/Category.php:33-46 | creating a row under a fresh id through the hook keeps the store coherent |
| Categories.SavingLeafKeepsCoherent | app/Models/Category.php:33-46 | re-saving a category that no row points to, under any parent other than itself, keeps the store coherent |
| Categories.SavingUnderItselfBreaksCoherence | app/Models/Category.php:38-40 | the hook accepts a category as its own parent, reading its old level, and the row it writes no longer agrees with its parent |
| Categories.ParentCreatedLaterIsCoherent | app/Models/Category.php:38-57 | a category re-saved under a parent created after it gets exactly the row the hook writes, and that store is coherent |
| Categories.ResavingParentLeavesChildStale | app/Models/Category.php:33-57 | there is no cascade: re-saving a root under a new slug leaves its child's row as it was, and the child no longer agrees with its parent |
| Categories.FirstNamed | app/Console/Commands/Parse2CentSite.php:246-249 | returns the lowest id with that name, or reports that no id in range has it |
| Categories.CategoryStore.Create | app/Models/Category.php:33-46 | the hook runs and the row gets the next id, or nothing changes when the parent is missing; coherence is preserved |
| Categories.CategoryStore.Save | app/Models/Category.php:33-46 | the hook runs against the current rows and only that entry changes |
| Categories.CategoryStore.FirstOrCreate | app/Console/Commands/Parse2CentSite.php:246-249 | returns the existing row of that name, or creates a root row through the hook; name uniqueness and coherence are preserved |
| Catalog.FirstWhere | app/Console/Commands/Parse2CentSite.php:252 | the first row that satisfies the condition, or none when no row does |
| Catalog.FirstWhereAt | app/Console/Commands/Parse2CentSite.php:252 | a row that satisfies the condition with no earlier row that does is the one `first()` returns |
| Catalog.WithExternalId | app/Console/Commands/Parse2CentSite.php:252 | definition: the condition of `where('external_id', …)`, equality of the nullable id, so a null id matches a stored null as `whereNull` does |
| Catalog.BrandNamed | app/Console/Commands/Parse2CentSite.php:238-241 | definition: the lookup condition of `Brand::firstOrCreate`, equality of the name |
| Catalog.FirstEqual | app/Console/Commands/Parse2CentSite.php:282-286 | the position of the first row equal to the lookup key, and none exactly when no row equals it |
| Catalog.FirstEqualGrow | app/Console/Commands/Parse2CentSite.php:282-286 | a first match stays the same first match when rows are appended |
| Catalog.GroupIdFor | app/Console/Commands/Parse2CentSite.php:282 | definition: the id `AttributeGroup::firstOrCreate` gives a heading, the first row with that name, or the next id when there is none |
| Catalog.ResolveStep | app/Console/Commands/Parse2CentSite.php:282-286 | definition: firstOrCreate of the triple's group, then of the attribute of that name in that group; a row is appended only when none has the key |
| Catalog.ResolveAll | app/Console/Commands/Parse2CentSite.php:281-293 | definition: `ResolveStep` over the triples, in order |
| Catalog.ImageRows | app/Console/Commands/Parse2CentSite.php:274-279 | definition: one Image row per gallery URL, in order, for the given product id |
| Catalog.BrandStep | app/Console/Commands/Parse2CentSite.php:236-242 | definition: afterwards a truthy brand is known; the brand table is unchanged when the brand is falsy or already known; otherwise exactly Brand(name, slug(name)) is appended |
| Catalog.CategoryStep | app/Console/Commands/Parse2CentSite.php:244-250 | definition: afterwards a truthy category is known; the table is unchanged when the name is falsy or known; otherwise exactly one root row with level 1 and full_slug = slug is added under the next id |
| Catalog.ProductStep | app/Console/Commands/Parse2CentSite.php:252-296 | definition: on an external-id hit only that row's price, original price and availability change and every other row of every table is kept; on a miss one Product row with the record's fields, its Image rows, the `ResolveAll` growth of groups and attributes, and one link per triple in order |
| Catalog.LinksGrow | app/Console/Commands/Parse2CentSite.php:281-293 | an attribute link stays valid while the group and attribute tables only grow at the end |
| Catalog.LinksRunGrow | app/Console/Commands/Parse2CentSite.php:281-293 | a run of links in triple order stays valid while the link, group and attribute tables only grow at the end |
| Catalog.LinksRunAll | app/Console/Commands/Parse2CentSite.php:288-292 | a run of links, row by row: row base + k links the product to triple k with its value |
| Catalog.AttributeLoopStep | app/Console/Commands/Parse2CentSite.php:281-293 | one pass of the attribute loop extends the fold of the group and attribute tables and the run of links by exactly one triple |
| Catalog.AttributeLoopDone | app/Console/Commands/Parse2CentSite.php:288-292 | after the attribute loop every link row names an existing product and an existing attribute |
| Catalog.ResolveStepGrows | app/Console/Commands/Parse2CentSite.php:282-286 | one triple only appends rows: the old group and attribute tables are prefixes of the new ones |
| Catalog.ResolveAllGrows | app/Console/Commands/Parse2CentSite.php:281-293 | the whole attribute loop only appends rows to the group and attribute tables |
| Catalog.ResolveAllAddsTripleGroups | app/Console/Commands/Parse2CentSite.php:282 | every group row the loop adds carries the heading of one of the triples |
| Catalog.ResolveAllAddsTripleAttributes | app/Console/Commands/Parse2CentSite.php:284-286 | every attribute row the loop adds carries the name of one of the triples and lies in a group with that triple's heading |
| Catalog.KnownGrows | app/Console/Commands/Parse2CentSite.php:282-286 | a triple whose group and attribute exist keeps them, with the same group id, as the tables grow |
| Catalog.ResolveStepKnown | app/Console/Commands/Parse2CentSite.php:282-286 | after its own step a triple's group and attribute exist |
| Catalog.ResolveAllMakesKnown | app/Console/Commands/Parse2CentSite.php:281-293 | after the loop every triple's group and attribute exist |
| Catalog.ResolveAllKnown | app/Console/Commands/Parse2CentSite.php:281-293 | when every triple's group and attribute exist already, the loop adds no group and no attribute |
| Catalog.ResolveAllIdempotent | app/Console/Commands/Parse2CentSite.php:281-293 | running the attribute loop a second time over the same triples adds no group and no attribute |
| Catalog.ProductCreated | app/Console/Commands/Parse2CentSite.php:262-293 | the Product row, the Image rows, the exact growth of the group and attribute tables and the run of links together make the create branch of the product step |
| Catalog.ProductStepStoresRecord | app/Console/Commands/Parse2CentSite.php:252-272 | after the product step, on either branch, the product with the record's external id carries the record's price, original price and availability |
| Catalog.LinkedAttributeIsUnique | app/Console/Commands/Parse2CentSite.php:282-286 | with one group per name and one attribute per (name, group), two links for the same triple point to the same attribute |
| Catalog.Catalog.FirstOrCreateBrand | app/Console/Commands/Parse2CentSite.php:237-242 | returns the existing brand of that name, or appends Brand(name, slug(name)); names stay unique |
| Catalog.Catalog.FirstOrCreateGroup | app/Console/Commands/Parse2CentSite.php:282 | returns the existing group of that name, or appends it; names stay unique |
| Catalog.Catalog.FirstOrCreateAttribute | app/Console/Commands/Parse2CentSite.php:284-286 | returns the existing attribute of that (name, group id), or appends it; keys stay unique |
| Catalog.Catalog.AddImages | app/Console/Commands/Parse2CentSite.php:274-279 | appends one Image row per URL, in order, all pointing at the new product |
| Catalog.Catalog.ResolveAttribute | app/Console/Commands/Parse2CentSite.php:282-286 | the group is appended only when no group has the triple's heading, and the attribute only when none has its (name, group id); the id returned is that of an attribute with the triple's name, in a group with the triple's heading |
| Catalog.Catalog.AddAttribute | app/Console/Commands/Parse2CentSite.php:282-292 | one pass of the attribute loop: the tables change by exactly one step, and one link row is appended carrying the product id and the triple's value and pointing at the triple's attribute |
| Catalog.Catalog.AddAttributes | app/Console/Commands/Parse2CentSite.php:281-293 | the group and attribute tables are exactly the fold of the triples in order; one link row is appended per triple, in order, each carrying the product id and the triple's value and pointing at an attribute with the triple's name and group |
| Catalog.Catalog.ResolveBrand | app/Console/Commands/Parse2CentSite.php:236-242 | a brand that is not falsy is resolved to its row id, and a falsy one to NULL; the brand is known afterwards; a row is appended only when it was missing |
| Catalog.Catalog.ResolveCategory | app/Console/Commands/Parse2CentSite.php:244-250 | a category name that is not falsy is resolved to its row id, and a falsy one to NULL; a missing category is added as a root with full_slug = slug and level 1; distinct category names and derived full_slug and level (`Categories.Coherent`) are not required; each is kept when the table already has it |
| Catalog.Catalog.UpdateProduct | app/Console/Commands/Parse2CentSite.php:254-259 | on the existing product only price, original price and availability change, and no other row anywhere changes |
| Catalog.Catalog.AppendProduct | app/Console/Commands/Parse2CentSite.php:263-272 | a product whose external id is new is appended and gets the next id; external ids stay unique |
| Catalog.Catalog.CreateProduct | app/Console/Commands/Parse2CentSite.php:262-293 | one Product row with the record's fields and the resolved ids, then one Image row per URL, then groups and attributes exactly as the fold of the triples adds them and one link per attribute triple |
| Catalog.Catalog.UpsertProduct | app/Console/Commands/Parse2CentSite.php:252-296 | update when a product with the same external id exists, creation otherwise; afterwards the external id is known |
| Catalog.Catalog.ResolveReferences | app/Console/Commands/Parse2CentSite.php:236-250 | the brand step, then the category step; distinct category names and derived full_slug and level (`Categories.Coherent`) are not required; each is kept when the table already has it |
| Catalog.Catalog.SaveProduct | app/Console/Commands/Parse2CentSite.php:230-297 | the brand, category and product steps as above; the new product's brand and category ids name rows with the record's brand and category; all uniqueness and reference invariants are kept; distinct category names and derived full_slug and level (`Categories.Coherent`) are not required; each is kept when the table already has it |
| Catalog.Catalog.SaveProductTwice | app/Console/Commands/Parse2CentSite.php:238-286 | saving the same record a second time adds no Brand, Category, AttributeGroup, Attribute, Product, Image or link row, and leaves every product row as the first save left it; distinct category names and derived full_slug and level (`Categories.Coherent`) are not required; each is kept when the table already has it |
| Catalog.Catalog.SaveIfParsed | app/Console/Commands/Parse2CentSite.php:66-70 | saveProduct runs exactly when the parsed record is not null, and nothing changes otherwise; distinct category names and derived full_slug and level (`Categories.Coherent`) are not required; each is kept when the table already has it |
| Catalog.Catalog.SaveAll | app/Console/Commands/Parse2CentSite.php:63-71 | saveProduct is called once per non-null record, in URL order, and never for a null record; distinct category names and derived full_slug and level (`Categories.Coherent`) are not required; each is kept when the table already has it |
| Catalog.Catalog.Handle | app/Console/Commands/Parse2CentSite.php:39-74 | without a category URL nothing is done; a failed listing fetch aborts before anything is saved; otherwise exactly the parsed records of the crawled URLs are saved, in order; distinct category names and derived full_slug and level (`Categories.Coherent`) are not required; each is kept when the table already has it |

## Left out

- Catalog.FirstWhere, Catalog.FirstEqual, Categories.FirstNamed: `first()` is called without `orderBy`, so the database may return any matching row. The model reads it as the row with the lowest id, which decides which category is used when several share a name.
- The HTTP transport (the Guzzle client and its options, Parse2CentSite.php:26-37) is left out. A fetch is an oracle parameter that answers a page record or fails.
- getCategoryName (Parse2CentSite.php:76-90) is left out, so the category name is a parameter of `Handle`. Three things go with it: the failed fetch of the category page, whose exception aborts handle before the crawl (:50); the trim of the `h1` text; and the fallback name 'Без названия'.
- CSS selector evaluation in DomCrawler is left out. Page records hold what each selector would answer. The listing selector `item-card__title` at :109 has no leading dot, so it is a tag selector; `ListingPage.hrefs` stands for whatever it matches.
- The `(float)` cast of the cleaned price (:197) is left out. It follows PHP's numeric-prefix rules, so the model keeps the cleaned string.
- Logging is left out: `file_put_contents` of each listing page (:106) and the console `info`/`error` output are side effects with no bearing on the data.
- `Str::slug` transliteration is a library call, modelled as an uninterpreted function.
- Eloquent relation declarations and the attributes migration are left out: they declare structure and have no behaviour used here.
- SQL collation is left out. Name lookups compare strings exactly, while a case-insensitive collation could also match names that differ only in case.
- Concurrent runs are left out. The command is sequential, and firstOrCreate is "find, else append".
- Scraper.GetProductUrls: termination rests on a ghost page `last` at which the crawl is known to stop. A listing that always shows "next" and never fails is outside the model, whereas the source would loop for ever.
- Catalog.Catalog.Handle: an exception raised inside saveProduct (a database error) is not modelled. Every save is assumed to succeed.
- Categories.CoherentDerivedFields: coherence requires every level to be at least 1. In a finite store where every row agrees with its parent this follows, because a parent chain cannot descend for ever, but the model does not prove it. The conjunct lets `level` measure the way up to the root.
