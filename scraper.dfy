/**
 * The crawl and extraction half of the 2cent.ru parser command: URL normalisation, the
 * pagination loop over listing pages, and the field extraction of one product page.
 * The HTTP client and the DOM are outside the model: a fetched listing page is a
 * ListingPage record, a fetched product page a ProductPage record whose fields are the
 * answers its CSS selectors would give, and a failed fetch is None.
 */
module Scraper {
  import opened Wrappers
  import opened Php

  // ---------------------------------------------------------------------------
  // URL normalisation
  // ---------------------------------------------------------------------------

  /** The site every relative link is resolved against. */
  const BaseUrl: string := "https://2cent.ru"

  /** normalizeUrl: a link starting with "http" is kept, any other gets the site base prepended verbatim. */
  function NormalizeUrl(url: string): (r: string)
    ensures "http" <= r
    ensures r == url <==> "http" <= url
    ensures r == url || r == BaseUrl + url
  {
    if "http" <= url then url else BaseUrl + url
  }

  /** Normalising twice is normalising once, because the base itself starts with "http". */
  lemma NormalizeUrlIdempotent(url: string)
    ensures NormalizeUrl(NormalizeUrl(url)) == NormalizeUrl(url)
  {
  }

  /** Each link of a sequence normalised, in order (the `each` callbacks that call normalizeUrl). */
  function NormalizeAll(urls: seq<string>): seq<string> {
    seq(|urls|, i requires 0 <= i < |urls| => NormalizeUrl(urls[i]))
  }

  // ---------------------------------------------------------------------------
  // Pagination: getProductUrls
  // ---------------------------------------------------------------------------

  /** A fetched listing page: the raw href of every product card, and whether a "next" marker is present. */
  datatype ListingPage = ListingPage(hrefs: seq<string>, hasNext: bool)

  /** The do-while stops at this fetch: it failed, or the page shows no "next" marker. */
  predicate Halts(fetched: Option<ListingPage>) {
    fetched.None? || !fetched.value.hasNext
  }

  /** The normalised product links of one listing page, in page order. */
  function PageLinks(page: ListingPage): seq<string> {
    NormalizeAll(page.hrefs)
  }

  /** `prefix` put in front of a successful result; a failure is passed through. */
  function Prefixed(prefix: seq<string>, r: Result<seq<string>, nat>): Result<seq<string>, nat> {
    match r
    case Success(rest) => Success(prefix + rest)
    case Failure(k) => Failure(k)
  }

  /** Putting nothing in front changes nothing. */
  lemma PrefixedEmpty(r: Result<seq<string>, nat>)
    ensures Prefixed([], r) == r
  {
    if r.Success? {
      assert [] + r.value == r.value;
    }
  }

  /** Putting u and then v in front is putting u + v in front. */
  lemma PrefixedTwice(u: seq<string>, v: seq<string>, r: Result<seq<string>, nat>)
    ensures Prefixed(u, Prefixed(v, r)) == Prefixed(u + v, r)
  {
    if r.Success? {
      assert u + (v + r.value) == (u + v) + r.value;
    }
  }

  /**
   * The crawl from listing page `page` on, where `listing(k)` is the fetch of page k
   * (None when it fails) and `last` is a page at which the crawl is known to stop. The
   * result is the links of every page fetched, in page order, or Failure(k) when
   * the fetch of page k fails, which aborts the crawl.
   */
  function Crawl(listing: nat -> Option<ListingPage>, page: nat, last: nat): (r: Result<seq<string>, nat>)
    requires 1 <= page <= last && Halts(listing(last))
    ensures r.Failure? ==> page <= r.error <= last && listing(r.error).None?
    ensures r.Success? ==> listing(page).Some? && PageLinks(listing(page).value) <= r.value
    decreases last - page
  {
    match listing(page)
    case None => Failure(page)
    case Some(p) =>
      if !p.hasNext then Success(PageLinks(p))
      else Prefixed(PageLinks(p), Crawl(listing, page + 1, last))
  }

  /** The product links of the whole listing, page 1 first. */
  function ProductUrls(listing: nat -> Option<ListingPage>, last: nat): Result<seq<string>, nat>
    requires 1 <= last && Halts(listing(last))
  {
    Crawl(listing, 1, last)
  }

  /** The links of pages lo..hi, all fetched, concatenated in page order, duplicates kept. */
  function LinksOfPages(listing: nat -> Option<ListingPage>, lo: nat, hi: nat): seq<string>
    requires forall j :: lo <= j <= hi ==> listing(j).Some?
    decreases hi + 1 - lo
  {
    if lo > hi then [] else PageLinks(listing(lo).value) + LinksOfPages(listing, lo + 1, hi)
  }

  /**
   * If pages page..k-1 all show a "next" marker and page k is fetched without one, the
   * crawl fetches exactly pages page..k and returns their links in page order.
   */
  lemma {:induction false} CrawlStopsAtFirstPageWithoutNext(listing: nat -> Option<ListingPage>, page: nat, last: nat, k: nat)
    requires 1 <= page <= k && page <= last && Halts(listing(last))
    requires forall j :: page <= j < k ==> listing(j).Some? && listing(j).value.hasNext
    requires listing(k).Some? && !listing(k).value.hasNext
    ensures k <= last
    ensures Crawl(listing, page, last) == Success(LinksOfPages(listing, page, k))
    decreases k - page
  {
    if last < k {
      assert false;
    }
    if page < k {
      CrawlStopsAtFirstPageWithoutNext(listing, page + 1, last, k);
    } else {
      assert LinksOfPages(listing, k + 1, k) == [];
      assert PageLinks(listing(k).value) + [] == PageLinks(listing(k).value);
    }
  }

  /** If pages page..k-1 all show a "next" marker and the fetch of page k fails, the crawl fails at page k. */
  lemma {:induction false} CrawlFailsAtFirstFailedFetch(listing: nat -> Option<ListingPage>, page: nat, last: nat, k: nat)
    requires 1 <= page <= k && page <= last && Halts(listing(last))
    requires forall j :: page <= j < k ==> listing(j).Some? && listing(j).value.hasNext
    requires listing(k).None?
    ensures k <= last
    ensures Crawl(listing, page, last) == Failure(k)
    decreases k - page
  {
    if last < k {
      assert false;
    }
    if page < k {
      CrawlFailsAtFirstFailedFetch(listing, page + 1, last, k);
    }
  }

  /** The halting page used to bound the crawl does not change its result. */
  lemma {:induction false} CrawlIgnoresBound(listing: nat -> Option<ListingPage>, page: nat, last1: nat, last2: nat)
    requires 1 <= page <= last1 && Halts(listing(last1))
    requires page <= last2 && Halts(listing(last2))
    ensures Crawl(listing, page, last1) == Crawl(listing, page, last2)
    decreases last1 - page
  {
    if listing(page).Some? && listing(page).value.hasNext {
      CrawlIgnoresBound(listing, page + 1, last1, last2);
    }
  }

  /**
   * getProductUrls: the do-while over pages 1, 2, ... that appends each page's normalised
   * links and stops after the first page without a "next" marker. A failed fetch aborts.
   */
  method GetProductUrls(listing: nat -> Option<ListingPage>, ghost last: nat) returns (r: Result<seq<string>, nat>)
    requires 1 <= last && Halts(listing(last))
    ensures r == ProductUrls(listing, last)
  {
    var productUrls: seq<string> := [];
    var page: nat := 1;
    var hasNextPage := true;
    PrefixedEmpty(Crawl(listing, 1, last));
    while hasNextPage
      invariant 1 <= page <= last + 1
      invariant hasNextPage ==> page <= last
      invariant hasNextPage ==> Crawl(listing, 1, last) == Prefixed(productUrls, Crawl(listing, page, last))
      invariant !hasNextPage ==> Crawl(listing, 1, last) == Success(productUrls)
      decreases last + 1 - page
    {
      var fetched := listing(page);
      if fetched.None? {
        return Failure(page);
      }
      var links := NormalizeAll(fetched.value.hrefs);
      PrefixedTwice(productUrls, links, if fetched.value.hasNext then Crawl(listing, page + 1, last) else Success([]));
      assert links + [] == links;
      productUrls := productUrls + links;
      hasNextPage := fetched.value.hasNext;
      page := page + 1;
    }
    return Success(productUrls);
  }

  // ---------------------------------------------------------------------------
  // Price text
  // ---------------------------------------------------------------------------

  predicate IsDigit(c: char) {
    '0' <= c <= '9'
  }

  /** The characters preg_replace('/[^\d,.]/', '', …) keeps: ASCII digits, comma and dot. */
  predicate IsPriceChar(c: char) {
    IsDigit(c) || c == ',' || c == '.'
  }

  /** The preg_replace step: every character other than a digit, ',' or '.' deleted. */
  function StripPrice(text: string): (r: string)
    ensures forall i :: 0 <= i < |r| ==> IsPriceChar(r[i])
    ensures |r| <= |text|
  {
    if text == [] then []
    else (if IsPriceChar(text[0]) then [text[0]] else []) + StripPrice(text[1..])
  }

  /** The str_replace(',', '.', …) step. */
  function CommasToDots(s: string): string {
    seq(|s|, i requires 0 <= i < |s| => if s[i] == ',' then '.' else s[i])
  }

  /** The cleaned price text that the source then casts to float. */
  function CleanPrice(text: string): (r: string)
    ensures forall i :: 0 <= i < |r| ==> IsDigit(r[i]) || r[i] == '.'
  {
    CommasToDots(StripPrice(text))
  }

  /** extractPrice up to the cast: an absent node gives null, a present one its cleaned text. */
  function ExtractPrice(node: Option<string>): (r: Option<string>)
    ensures r.None? <==> node.None?
    ensures node.Some? ==> r.value == CleanPrice(node.value)
  {
    match node
    case None => None
    case Some(text) => Some(CleanPrice(text))
  }

  /** Cleaning works character by character: the cleaned text of a + b is that of a followed by that of b. */
  lemma {:induction false} CleanPriceAppend(a: string, b: string)
    ensures CleanPrice(a + b) == CleanPrice(a) + CleanPrice(b)
  {
    StripPriceAppend(a, b);
  }

  lemma {:induction false} StripPriceAppend(a: string, b: string)
    ensures StripPrice(a + b) == StripPrice(a) + StripPrice(b)
  {
    if a == [] {
      assert a + b == b;
    } else {
      assert (a + b)[0] == a[0];
      assert (a + b)[1..] == a[1..] + b;
      StripPriceAppend(a[1..], b);
    }
  }

  /** One character: a digit or '.' is kept, ',' becomes '.', anything else is deleted. */
  lemma CleanPriceChar(c: char)
    ensures CleanPrice([c]) == if IsDigit(c) || c == '.' then [c] else if c == ',' then ['.'] else []
  {
    assert [c][1..] == [];
  }

  /** Cleaning a cleaned price changes nothing. */
  lemma {:induction false} CleanPriceIdempotent(text: string)
    ensures CleanPrice(CleanPrice(text)) == CleanPrice(text)
  {
    var s := CleanPrice(text);
    StripKeepsPriceText(s);
  }

  lemma {:induction false} StripKeepsPriceText(s: string)
    requires forall i :: 0 <= i < |s| ==> IsPriceChar(s[i])
    ensures StripPrice(s) == s
  {
    if s != [] {
      StripKeepsPriceText(s[1..]);
    }
  }

  /** "1 299,9 ₽": the spaces and the rouble sign go, the comma becomes a dot. */
  lemma CleanPriceExample()
    ensures CleanPrice("1 299,9 ₽") == "1299.9"
  {
    StripPriceExample();
    CommasToDotsExample();
  }

  lemma StripPriceExample()
    ensures StripPrice("1 299,9 ₽") == "1299,9"
  {
  }

  lemma CommasToDotsExample()
    ensures CommasToDots("1299,9") == "1299.9"
  {
  }

  /** Text with no digit, comma or dot cleans to "", which is still a present price (cast to 0), not null. */
  lemma EmptyResidueIsNotNull(text: string)
    requires forall i :: 0 <= i < |text| ==> !IsPriceChar(text[i])
    ensures ExtractPrice(Some(text)) == Some("")
  {
    StripDropsNonPriceText(text);
    assert CommasToDots("") == "";
  }

  lemma {:induction false} StripDropsNonPriceText(text: string)
    requires forall i :: 0 <= i < |text| ==> !IsPriceChar(text[i])
    ensures StripPrice(text) == ""
  {
    if text != [] {
      StripDropsNonPriceText(text[1..]);
    }
  }

  // ---------------------------------------------------------------------------
  // External id and brand
  // ---------------------------------------------------------------------------

  /** The result of a field lookup: its value, or Throws when the DOM call raised an exception. */
  datatype Extract<+T> = Value(v: T) | Throws

  /** The hidden input[name="offer"]: absent, or present with its value attribute (null when it has none). */
  datatype OfferInput = NoOfferInput | OfferInput(value: Option<string>)

  /**
   * extractExternalId: reading an attribute of an absent node throws; a falsy value ("", "0"
   * or no attribute) gives null; any other value is returned as it is.
   */
  function ExtractExternalId(offer: OfferInput): (r: Extract<Option<string>>)
    ensures r.Throws? <==> offer.NoOfferInput?
    ensures r.Value? ==> (r.v.None? <==> !Truthy(offer.value))
    ensures r.Value? && r.v.Some? ==> r.v == offer.value
  {
    match offer
    case NoOfferInput => Throws
    case OfferInput(value) => if Truthy(value) then Value(value) else Value(None)
  }

  /** One `.product-chars li` row: its text, and the texts of its `.fw-bold` elements in document order. */
  datatype CharRow = CharRow(text: string, bolds: seq<string>)

  /** The label of the characteristics row that names the manufacturer. */
  const ManufacturerLabel: string := "Производитель"

  /** The `reduce` step: the rows whose text contains the manufacturer label, in order. */
  function ManufacturerRows(rows: seq<CharRow>): (r: seq<CharRow>)
    ensures forall x :: x in r <==> x in rows && Contains(x.text, ManufacturerLabel)
  {
    if rows == [] then []
    else (if Contains(rows[0].text, ManufacturerLabel) then [rows[0]] else []) + ManufacturerRows(rows[1..])
  }

  /** The `.fw-bold` texts inside a list of rows, in document order. */
  function BoldTexts(rows: seq<CharRow>): (r: seq<string>)
    ensures forall b :: b in r <==> exists x :: x in rows && b in x.bolds
    ensures r == [] <==> forall x :: x in rows ==> x.bolds == []
  {
    if rows == [] then [] else rows[0].bolds + BoldTexts(rows[1..])
  }

  /** The filter distributes over concatenation, so it keeps the matching rows in their order. */
  lemma {:induction false} ManufacturerRowsAppend(a: seq<CharRow>, b: seq<CharRow>)
    ensures ManufacturerRows(a + b) == ManufacturerRows(a) + ManufacturerRows(b)
  {
    if a != [] {
      assert (a + b)[0] == a[0];
      assert (a + b)[1..] == a[1..] + b;
      ManufacturerRowsAppend(a[1..], b);
      var head := if Contains(a[0].text, ManufacturerLabel) then [a[0]] else [];
      assert ManufacturerRows(a + b) == head + ManufacturerRows(a[1..] + b);
      assert ManufacturerRows(a) == head + ManufacturerRows(a[1..]);
      AppendAssoc(head, ManufacturerRows(a[1..]), ManufacturerRows(b));
    } else {
      assert a + b == b;
    }
  }

  /** The bold texts of consecutive rows are concatenated in document order. */
  lemma {:induction false} BoldTextsAppend(a: seq<CharRow>, b: seq<CharRow>)
    ensures BoldTexts(a + b) == BoldTexts(a) + BoldTexts(b)
  {
    if a != [] {
      assert (a + b)[0] == a[0];
      assert (a + b)[1..] == a[1..] + b;
      BoldTextsAppend(a[1..], b);
      assert BoldTexts(a + b) == a[0].bolds + BoldTexts(a[1..] + b);
      assert BoldTexts(a) == a[0].bolds + BoldTexts(a[1..]);
      AppendAssoc(a[0].bolds, BoldTexts(a[1..]), BoldTexts(b));
    } else {
      assert a + b == b;
    }
  }

  /**
   * extractBrand: null when no row mentions the manufacturer; otherwise the first bold
   * text inside the matching rows, where reading the text of an empty node list throws.
   */
  function ExtractBrand(rows: seq<CharRow>): (r: Extract<Option<string>>)
    ensures r == Value(None) <==> forall x :: x in rows ==> !Contains(x.text, ManufacturerLabel)
    ensures r.Throws? <==>
      && (exists x :: x in rows && Contains(x.text, ManufacturerLabel))
      && (forall x :: x in rows && Contains(x.text, ManufacturerLabel) ==> x.bolds == [])
  {
    var matching := ManufacturerRows(rows);
    if |matching| == 0 then Value(None)
    else
      assert matching[0] in matching;
      var bolds := BoldTexts(matching);
      if bolds == [] then Throws else Value(Some(bolds[0]))
  }

  /**
   * Row `i` holds the brand: it carries the manufacturer label and a bold value, and
   * every earlier row carrying the label has none.
   */
  predicate FirstBoldRow(rows: seq<CharRow>, i: int) {
    && 0 <= i < |rows| && Contains(rows[i].text, ManufacturerLabel) && rows[i].bolds != []
    && forall j :: 0 <= j < i && Contains(rows[j].text, ManufacturerLabel) ==> rows[j].bolds == []
  }

  /** When the first row carries the label and a bold value, it is the only first bold row. */
  lemma FirstBoldRowAtHead(rows: seq<CharRow>)
    requires rows != [] && Contains(rows[0].text, ManufacturerLabel) && rows[0].bolds != []
    ensures FirstBoldRow(rows, 0)
    ensures forall i :: FirstBoldRow(rows, i) ==> i == 0
  {
  }

  /** Otherwise the first bold row, if any, lies in the tail, one position later. */
  lemma FirstBoldRowInTail(rows: seq<CharRow>)
    requires rows != [] && !(Contains(rows[0].text, ManufacturerLabel) && rows[0].bolds != [])
    ensures forall i :: FirstBoldRow(rows, i) ==> 0 < i && FirstBoldRow(rows[1..], i - 1)
    ensures forall i :: FirstBoldRow(rows[1..], i) ==> FirstBoldRow(rows, i + 1)
  {
  }

  /** The bold texts of the matching rows start with the first bold of the first matching row that has one. */
  lemma {:induction false} FirstMatchingBold(rows: seq<CharRow>)
    ensures BoldTexts(ManufacturerRows(rows)) != [] <==> exists i :: FirstBoldRow(rows, i)
    ensures forall i :: FirstBoldRow(rows, i) ==>
      BoldTexts(ManufacturerRows(rows)) != [] && BoldTexts(ManufacturerRows(rows))[0] == rows[i].bolds[0]
  {
    if rows != [] {
      FirstMatchingBold(rows[1..]);
      MatchingBoldsUnfold(rows);
      if Contains(rows[0].text, ManufacturerLabel) && rows[0].bolds != [] {
        FirstBoldRowAtHead(rows);
      } else {
        FirstBoldRowInTail(rows);
      }
    }
  }

  /** The bold texts of the matching rows: the first row's, when it matches, then those of the rest. */
  lemma MatchingBoldsUnfold(rows: seq<CharRow>)
    requires rows != []
    ensures BoldTexts(ManufacturerRows(rows)) ==
      (if Contains(rows[0].text, ManufacturerLabel) then rows[0].bolds else []) + BoldTexts(ManufacturerRows(rows[1..]))
  {
    var head := if Contains(rows[0].text, ManufacturerLabel) then [rows[0]] else [];
    assert ManufacturerRows(rows) == head + ManufacturerRows(rows[1..]);
    BoldTextsAppend(head, ManufacturerRows(rows[1..]));
    assert BoldTexts(head) == if head == [] then [] else rows[0].bolds;
  }

  /**
   * The brand is the first bold text, in document order, of the first row carrying the
   * manufacturer label that has one; a value is returned exactly when such a row exists.
   */
  lemma ExtractBrandFirstBold(rows: seq<CharRow>)
    ensures (ExtractBrand(rows).Value? && ExtractBrand(rows).v.Some?) <==> exists i :: FirstBoldRow(rows, i)
    ensures forall i :: FirstBoldRow(rows, i) ==> ExtractBrand(rows) == Value(Some(rows[i].bolds[0]))
  {
    FirstMatchingBold(rows);
  }

  // ---------------------------------------------------------------------------
  // Attributes: extractAttributes
  // ---------------------------------------------------------------------------

  /** One `ul.product-chars li` row: the texts of its first name cell and its first bold value cell, if any. */
  datatype AttributeRow = AttributeRow(name: Option<string>, value: Option<string>)

  /** One `#tab-property > div` container: the text of its first `.fw-bold` (the heading), if any, and its rows. */
  datatype AttributeGroupNode = AttributeGroupNode(heading: Option<string>, rows: seq<AttributeRow>)

  /** One extracted attribute: its group heading, trimmed name and trimmed value. */
  datatype AttributeTriple = AttributeTriple(group: string, name: string, value: string)

  /** A row with both a name cell and a value cell; any other row is skipped. */
  predicate IsComplete(row: AttributeRow) {
    row.name.Some? && row.value.Some?
  }

  /** The triple of one row under a group heading: none when the row is incomplete. */
  function RowTriple(group: string, row: AttributeRow): seq<AttributeTriple> {
    if IsComplete(row) then [AttributeTriple(group, Trim(row.name.value), Trim(row.value.value))] else []
  }

  /** The triples of a group's rows, in row order. */
  function RowTriples(group: string, rows: seq<AttributeRow>): seq<AttributeTriple> {
    if rows == [] then [] else RowTriples(group, rows[..|rows| - 1]) + RowTriple(group, rows[|rows| - 1])
  }

  /** One more row: its triple, if any, is appended. */
  lemma RowTriplesStep(group: string, rows: seq<AttributeRow>, j: nat)
    requires j < |rows|
    ensures RowTriples(group, rows[..j + 1]) == RowTriples(group, rows[..j]) + RowTriple(group, rows[j])
  {
    assert rows[..j + 1][..j] == rows[..j];
  }

  /** The triples of every group, group by group; Throws as soon as a group has no heading. */
  function AttributesOf(groups: seq<AttributeGroupNode>): Extract<seq<AttributeTriple>> {
    if groups == [] then Value([])
    else
      match AttributesOf(groups[..|groups| - 1])
      case Throws => Throws
      case Value(ts) =>
        var g := groups[|groups| - 1];
        if g.heading.None? then Throws else Value(ts + RowTriples(g.heading.value, g.rows))
  }

  /** The number of complete rows. */
  function CompleteRows(rows: seq<AttributeRow>): nat {
    if rows == [] then 0 else CompleteRows(rows[..|rows| - 1]) + (if IsComplete(rows[|rows| - 1]) then 1 else 0)
  }

  /** The number of complete rows over all groups. */
  function CompleteRowsOfGroups(groups: seq<AttributeGroupNode>): nat {
    if groups == [] then 0
    else CompleteRowsOfGroups(groups[..|groups| - 1]) + CompleteRows(groups[|groups| - 1].rows)
  }

  /** Extraction throws exactly when some group has no heading. */
  lemma {:induction false} AttributesThrowIffUnlabelled(groups: seq<AttributeGroupNode>)
    ensures AttributesOf(groups).Throws? <==> exists i :: 0 <= i < |groups| && groups[i].heading.None?
  {
    if groups != [] {
      var init := groups[..|groups| - 1];
      AttributesThrowIffUnlabelled(init);
      if exists i :: 0 <= i < |init| && init[i].heading.None? {
        var i :| 0 <= i < |init| && init[i].heading.None?;
        assert groups[i] == init[i];
      }
      if exists i :: 0 <= i < |groups| && groups[i].heading.None? {
        var i :| 0 <= i < |groups| && groups[i].heading.None?;
        if i < |init| {
          assert init[i] == groups[i];
        }
      }
    }
  }

  /** Exactly one triple per complete row of a group. */
  lemma {:induction false} RowTriplesCount(group: string, rows: seq<AttributeRow>)
    ensures |RowTriples(group, rows)| == CompleteRows(rows)
  {
    if rows != [] {
      RowTriplesCount(group, rows[..|rows| - 1]);
    }
  }

  /** Exactly one triple per complete row over all groups. */
  lemma {:induction false} AttributesCount(groups: seq<AttributeGroupNode>)
    requires AttributesOf(groups).Value?
    ensures |AttributesOf(groups).v| == CompleteRowsOfGroups(groups)
  {
    if groups != [] {
      AttributesCount(groups[..|groups| - 1]);
      var g := groups[|groups| - 1];
      RowTriplesCount(g.heading.value, g.rows);
    }
  }

  /** Every triple of a group carries that group's heading and a trimmed name and value. */
  lemma {:induction false} RowTriplesShape(group: string, rows: seq<AttributeRow>)
    ensures forall t :: t in RowTriples(group, rows) ==> t.group == group && IsTrimmed(t.name) && IsTrimmed(t.value)
  {
    if rows != [] {
      RowTriplesShape(group, rows[..|rows| - 1]);
    }
  }

  /** Every extracted triple carries the heading of one of the groups, and a trimmed name and value. */
  lemma {:induction false} AttributesShape(groups: seq<AttributeGroupNode>)
    requires AttributesOf(groups).Value?
    ensures forall t :: t in AttributesOf(groups).v ==>
      && IsTrimmed(t.name) && IsTrimmed(t.value)
      && exists i :: 0 <= i < |groups| && groups[i].heading == Some(t.group)
  {
    if groups != [] {
      var init := groups[..|groups| - 1];
      var g := groups[|groups| - 1];
      AttributesShape(init);
      RowTriplesShape(g.heading.value, g.rows);
      forall t | t in AttributesOf(groups).v
        ensures exists i :: 0 <= i < |groups| && groups[i].heading == Some(t.group)
      {
        if t in AttributesOf(init).v {
          var i :| 0 <= i < |init| && init[i].heading == Some(t.group);
          assert groups[i] == init[i];
        } else {
          assert groups[|groups| - 1].heading == Some(t.group);
        }
      }
    }
  }

  /** Both succeed-or-throw and order: the triples of a ++ b are those of a, then those of b. */
  function Concat(x: Extract<seq<AttributeTriple>>, y: Extract<seq<AttributeTriple>>): Extract<seq<AttributeTriple>> {
    if x.Value? && y.Value? then Value(x.v + y.v) else Throws
  }

  lemma {:induction false} AttributesAppend(a: seq<AttributeGroupNode>, b: seq<AttributeGroupNode>)
    ensures AttributesOf(a + b) == Concat(AttributesOf(a), AttributesOf(b))
    decreases |b|
  {
    if b == [] {
      assert a + b == a;
      if AttributesOf(a).Value? {
        assert AttributesOf(a).v + [] == AttributesOf(a).v;
      }
    } else {
      var bInit, g := b[..|b| - 1], b[|b| - 1];
      assert a + b == (a + bInit) + [g];
      assert b == bInit + [g];
      AttributesAppend(a, bInit);
      AttributesSnoc(a + bInit, g);
      AttributesSnoc(bInit, g);
      if AttributesOf(a).Value? && AttributesOf(bInit).Value? && g.heading.Some? {
        var ta, tb, tg := AttributesOf(a).v, AttributesOf(bInit).v, RowTriples(g.heading.value, g.rows);
        AppendAssoc(ta, tb, tg);
      }
    }
  }

  lemma AppendAssoc<T>(x: seq<T>, y: seq<T>, z: seq<T>)
    ensures x + y + z == x + (y + z)
  {
  }

  /** One more group: its triples are appended to those before, or it throws for want of a heading. */
  lemma AttributesSnoc(groups: seq<AttributeGroupNode>, g: AttributeGroupNode)
    ensures AttributesOf(groups + [g]) ==
      if AttributesOf(groups).Throws? || g.heading.None? then Throws
      else Value(AttributesOf(groups).v + RowTriples(g.heading.value, g.rows))
  {
    assert (groups + [g])[..|groups|] == groups;
  }

  /** Extending the groups seen so far by one group: its triples are appended, or it throws for want of a heading. */
  lemma AttributesStep(groups: seq<AttributeGroupNode>, i: nat)
    requires i < |groups|
    ensures AttributesOf(groups[..i + 1]) ==
      if AttributesOf(groups[..i]).Throws? || groups[i].heading.None? then Throws
      else Value(AttributesOf(groups[..i]).v + RowTriples(groups[i].heading.value, groups[i].rows))
  {
    assert groups[..i + 1] == groups[..i] + [groups[i]];
    AttributesSnoc(groups[..i], groups[i]);
  }

  /** Once extraction throws on a prefix of the groups, it throws on the whole. */
  lemma ThrowsOnPrefix(groups: seq<AttributeGroupNode>, i: nat)
    requires i <= |groups| && AttributesOf(groups[..i]).Throws?
    ensures AttributesOf(groups).Throws?
  {
    AttributesAppend(groups[..i], groups[i..]);
    assert groups[..i] + groups[i..] == groups;
  }

  /** The inner `each` of extractAttributes: one trimmed triple per row with both cells, in row order. */
  method ExtractRowTriples(groupName: string, rows: seq<AttributeRow>) returns (triples: seq<AttributeTriple>)
    ensures triples == RowTriples(groupName, rows)
  {
    triples := [];
    var j := 0;
    while j < |rows|
      invariant 0 <= j <= |rows|
      invariant triples == RowTriples(groupName, rows[..j])
    {
      var row := rows[j];
      RowTriplesStep(groupName, rows, j);
      if row.name.Some? && row.value.Some? {
        var name := Trim(row.name.value);
        var value := Trim(row.value.value);
        assert RowTriple(groupName, row) == [AttributeTriple(groupName, name, value)];
        triples := triples + [AttributeTriple(groupName, name, value)];
      } else {
        assert RowTriple(groupName, row) == [];
      }
      j := j + 1;
    }
    assert rows[..j] == rows;
  }

  /**
   * extractAttributes: the nested `each` loops over groups and rows,
   * appending one triple per complete row; a group without a heading throws.
   */
  method ExtractAttributes(groups: seq<AttributeGroupNode>) returns (r: Extract<seq<AttributeTriple>>)
    ensures r == AttributesOf(groups)
  {
    var attributes: seq<AttributeTriple> := [];
    var i := 0;
    while i < |groups|
      invariant 0 <= i <= |groups|
      invariant AttributesOf(groups[..i]) == Value(attributes)
    {
      var group := groups[i];
      AttributesStep(groups, i);
      if group.heading.None? {
        ThrowsOnPrefix(groups, i + 1);
        return Throws;
      }
      var triples := ExtractRowTriples(group.heading.value, group.rows);
      attributes := attributes + triples;
      i := i + 1;
    }
    assert groups[..i] == groups;
    return Value(attributes);
  }

  // ---------------------------------------------------------------------------
  // Product assembly: parseProduct
  // ---------------------------------------------------------------------------

  /** What the selectors of parseProduct find on one fetched product page. */
  datatype ProductPage = ProductPage(
    offer: OfferInput,                    // input[name="offer"]
    title: Option<string>,                // text of h1.product-title
    chars: seq<CharRow>,                  // .product-chars li
    newPrice: Option<string>,             // text of .rs-price-new
    oldPrice: Option<string>,             // text of .rs-price-old
    description: Option<string>,          // inner markup of #tab-description
    notAvailableBadge: bool,              // .item-card__not-available present
    gallery: seq<string>,                 // src of each .product-gallery-top img ("" when missing)
    groups: seq<AttributeGroupNode>)      // #tab-property > div

  /** The record parseProduct returns. */
  datatype ProductData = ProductData(
    externalId: Option<string>,
    name: string,
    brand: Option<string>,
    price: Option<string>,
    originalPrice: Option<string>,
    description: string,
    isAvailable: bool,
    images: seq<string>,
    attributes: seq<AttributeTriple>,
    category: string)

  /**
   * parseProduct: a failed fetch or any throwing lookup (no offer input, no title, a
   * manufacturer row without a bold value, a group without a heading) makes the whole
   * record null; otherwise every field follows its own fallback rule.
   */
  function ParseProduct(fetched: Option<ProductPage>, category: string): (r: Option<ProductData>)
    ensures r.Some? <==>
      && fetched.Some?
      && fetched.value.title.Some?
      && !ExtractExternalId(fetched.value.offer).Throws?
      && !ExtractBrand(fetched.value.chars).Throws?
      && !AttributesOf(fetched.value.groups).Throws?
    ensures r.Some? ==>
      var p, d := fetched.value, r.value;
      && Value(d.externalId) == ExtractExternalId(p.offer)
      && d.name == p.title.value
      && Value(d.brand) == ExtractBrand(p.chars)
      && d.price == ExtractPrice(p.newPrice)
      && d.originalPrice == ExtractPrice(p.oldPrice)
      && (p.description.None? ==> d.description == "")
      && (p.description.Some? ==> d.description == p.description.value)
      && (d.isAvailable <==> !p.notAvailableBadge)
      && |d.images| == |p.gallery|
      && (forall i :: 0 <= i < |p.gallery| ==> d.images[i] == NormalizeUrl(p.gallery[i]))
      && Value(d.attributes) == AttributesOf(p.groups)
      && d.category == category
  {
    match fetched
    case None => None
    case Some(p) =>
      var externalId := ExtractExternalId(p.offer);
      var brand := ExtractBrand(p.chars);
      var attributes := AttributesOf(p.groups);
      if p.title.None? || externalId.Throws? || brand.Throws? || attributes.Throws? then None
      else
        Some(ProductData(
          externalId.v,
          p.title.value,
          brand.v,
          ExtractPrice(p.newPrice),
          ExtractPrice(p.oldPrice),
          if p.description.Some? then p.description.value else "",
          !p.notAvailableBadge,
          NormalizeAll(p.gallery),
          attributes.v,
          category))
  }

  /** The records handle passes on to saveProduct for a list of product URLs: the non-null ones, in URL order. */
  function ParsedProducts(fetch: string -> Option<ProductPage>, category: string, urls: seq<string>): seq<ProductData> {
    if urls == [] then []
    else
      var last := ParseProduct(fetch(urls[|urls| - 1]), category);
      ParsedProducts(fetch, category, urls[..|urls| - 1]) + (if last.Some? then [last.value] else [])
  }

  /** One record per URL whose product parses, none for the others, in URL order: a + b gives a's then b's. */
  lemma {:induction false} ParsedProductsAppend(fetch: string -> Option<ProductPage>, category: string, a: seq<string>, b: seq<string>)
    ensures ParsedProducts(fetch, category, a + b) == ParsedProducts(fetch, category, a) + ParsedProducts(fetch, category, b)
    decreases |b|
  {
    if b == [] {
      assert a + b == a;
    } else {
      assert (a + b)[..|a + b| - 1] == a + b[..|b| - 1];
      assert (a + b)[|a + b| - 1] == b[|b| - 1];
      ParsedProductsAppend(fetch, category, a, b[..|b| - 1]);
    }
  }

  /** One more URL of the product loop appends that URL's record, if its product parses. */
  lemma ParsedProductsStep(fetch: string -> Option<ProductPage>, category: string, urls: seq<string>, i: nat)
    requires i < |urls|
    ensures ParsedProducts(fetch, category, urls[..i + 1]) == ParsedProducts(fetch, category, urls[..i]) +
      if ParseProduct(fetch(urls[i]), category).Some? then [ParseProduct(fetch(urls[i]), category).value] else []
  {
    assert urls[..i + 1][..i] == urls[..i];
  }

  /** A URL whose product fails to parse contributes nothing; one that parses contributes exactly its record. */
  lemma ParsedProductsSingle(fetch: string -> Option<ProductPage>, category: string, url: string)
    ensures ParsedProducts(fetch, category, [url]) ==
      if ParseProduct(fetch(url), category).Some? then [ParseProduct(fetch(url), category).value] else []
  {
    assert [url][..0] == [];
  }
}
