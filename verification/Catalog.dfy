/**
 * Loading a user's catalogue of approval categories: the upstream lists visible templates page by page,
 * in any order and with repetitions; the result is a sorted list without duplicates.
 */
module Catalog {
  import opened Domain
  import opened Ordering
  import opened Text

  const PAGE_SIZE := 100
  const MAX_PAGES := 100
  const MAX_TEMPLATES := 5000

  datatype Template = Template(processCode: string, name: string, directory: string)

  datatype Page = Page(templates: seq<Template>, next: Option<int>)

  datatype Category = Category(id: string, displayName: string, directoryName: string, processCode: string)

  /** The upstream answers the i-th call, which carries a token. */
  type Provider = (nat, int) -> Answer<Page>

  // Cleaning one template.

  function Clean(t: Template): Template {
    Template(Trim(t.processCode), Trim(t.name), Trim(t.directory))
  }

  predicate Acceptable(t: Template) {
    var c := Clean(t);
    && c.processCode != "" && Bytes(c.processCode) <= 256
    && c.name != "" && Bytes(c.name) <= 512 && Bytes(c.directory) <= 512
  }

  // What a listing means.

  predicate Codes(known: seq<Template>, code: string) {
    exists i :: 0 <= i < |known| && known[i].processCode == code
  }

  /** The first template of each process code, cleaned. */
  function Distill(listing: seq<Template>): seq<Template> {
    if listing == [] then []
    else
      var known, t := Distill(listing[..|listing| - 1]), Clean(listing[|listing| - 1]);
      Added(known, t)
  }

  function Added(known: seq<Template>, t: Template): seq<Template> {
    if Codes(known, t.processCode) then known else known + [t]
  }

  /** `seen` is the set of codes of the known templates. */
  ghost predicate Knows(seen: set<string>, known: seq<Template>) {
    forall code :: code in seen <==> Codes(known, code)
  }

  /** Category identifiers are keyed digests of the process code, hence the parameter `seal`. */
  function Categorised(seal: string -> string, t: Template): Category {
    Category(seal(t.processCode), t.name, t.directory, t.processCode)
  }

  function CategoriesOf(seal: string -> string, templates: seq<Template>): seq<Category> {
    seq(|templates|, i requires 0 <= i < |templates| => Categorised(seal, templates[i]))
  }

  predicate Less(a: Category, b: Category) {
    if a.directoryName != b.directoryName then Before(a.directoryName, b.directoryName)
    else if a.displayName != b.displayName then Before(a.displayName, b.displayName)
    else Before(a.id, b.id)
  }

  function Sorted(all: seq<Category>): seq<Category> {
    Sort(Less, all)
  }

  function CatalogueOf(seal: string -> string, listing: seq<Template>): seq<Category> {
    Sorted(CategoriesOf(seal, Distill(listing)))
  }

  // Which sequences of replies are a complete listing.

  /** The token of the i-th call: what the previous page said, zero at first. */
  function Token(provider: Provider, i: nat): int {
    if i == 0 then 0
    else match provider(i - 1, Token(provider, i - 1))
      case Answered(page) => if page.next.Some? then page.next.value else 0
      case Failed(_) => 0
  }

  function Reply(provider: Provider, i: nat): Answer<Page> {
    provider(i, Token(provider, i))
  }

  function Listing(provider: Provider, n: nat): seq<Template> {
    if n == 0 then []
    else match Reply(provider, n - 1)
      case Answered(page) => Listing(provider, n - 1) + page.templates
      case Failed(_) => Listing(provider, n - 1)
  }

  predicate PageOk(provider: Provider, i: nat) {
    match Reply(provider, i)
    case Failed(_) => false
    case Answered(page) =>
      && |page.templates| <= PAGE_SIZE
      && |Distill(Listing(provider, i))| + |page.templates| <= MAX_TEMPLATES
      && AllAcceptable(page.templates)
  }

  /** The i-th page is fine and points to a later one. */
  predicate Leads(provider: Provider, i: nat) {
    PageOk(provider, i) && Reply(provider, i).value.next.Some?
    && Token(provider, i) < Reply(provider, i).value.next.value
  }

  predicate Led(provider: Provider, n: nat) {
    forall i: nat | i < n :: Leads(provider, i)
  }

  lemma {:induction false} LedNext(provider: Provider, n: nat)
    requires Led(provider, n) && Leads(provider, n)
    ensures Led(provider, n + 1)
  {
  }

  predicate AllAcceptable(templates: seq<Template>) {
    forall k :: 0 <= k < |templates| ==> Acceptable(templates[k])
  }

  /** The first `pages` replies are one complete listing within the limits. */
  predicate Complete(provider: Provider, pages: nat) {
    && 1 <= pages <= MAX_PAGES
    && Led(provider, pages - 1)
    && PageOk(provider, pages - 1) && Reply(provider, pages - 1).value.next.None?
  }

  lemma {:induction false} DistillSnoc(listing: seq<Template>, t: Template)
    ensures Distill(listing + [t]) == Added(Distill(listing), Clean(t))
  {
    assert (listing + [t])[..|listing|] == listing;
  }

  /** A page that fails, or stops the walk, is in no complete listing but as its last page. */
  lemma {:induction false} NoListing(provider: Provider, i: nat)
    requires Led(provider, i)
    requires !Leads(provider, i) && !(PageOk(provider, i) && Reply(provider, i).value.next.None?)
    ensures forall pages: nat :: !Complete(provider, pages)
  {
    forall pages: nat
      ensures !Complete(provider, pages)
    {
      if 1 <= pages <= i { assert Leads(provider, pages - 1); }
    }
  }

  predicate Disjoint(categories: seq<Category>) {
    forall i, j :: 0 <= i < j < |categories| ==> categories[i].id != categories[j].id
  }

  ghost predicate Injective(seal: string -> string) {
    forall a, b :: seal(a) == seal(b) ==> a == b
  }

  /** One page's templates, added to what is known. */
  method AddTemplates(
    seal: string -> string, templates: seq<Template>, seen: set<string>, categories: seq<Category>,
    ghost listing: seq<Template>)
    returns (ok: bool, seen': set<string>, categories': seq<Category>)
    requires categories == CategoriesOf(seal, Distill(listing)) && Knows(seen, Distill(listing))
    ensures ok == AllAcceptable(templates)
    ensures ok ==> categories' == CategoriesOf(seal, Distill(listing + templates))
    ensures ok ==> Knows(seen', Distill(listing + templates))
  {
    seen', categories' := seen, categories;
    assert listing + templates[..0] == listing;
    for k := 0 to |templates|
      invariant AllAcceptable(templates[..k])
      invariant categories' == CategoriesOf(seal, Distill(listing + templates[..k]))
      invariant Knows(seen', Distill(listing + templates[..k]))
    {
      if !Acceptable(templates[k]) {
        assert !AllAcceptable(templates);
        return false, seen', categories';
      }
      DistillNext(listing, templates, k);
      AcceptableNext(templates, k);
      seen', categories' := AddTemplate(seal, Clean(templates[k]), seen', categories', Distill(listing + templates[..k]));
    }
    assert templates[..|templates|] == templates;
    ok := true;
  }

  lemma {:induction false} AcceptableNext(templates: seq<Template>, k: nat)
    requires k < |templates| && AllAcceptable(templates[..k]) && Acceptable(templates[k])
    ensures AllAcceptable(templates[..k + 1])
  {
    assert templates[..k + 1] == templates[..k] + [templates[k]];
  }

  lemma {:induction false} DistillNext(listing: seq<Template>, templates: seq<Template>, k: nat)
    requires k < |templates|
    ensures Distill(listing + templates[..k + 1]) == Added(Distill(listing + templates[..k]), Clean(templates[k]))
  {
    DistillSnoc(listing + templates[..k], templates[k]);
    Appended(listing, templates[..k], templates[k]);
    assert templates[..k] + [templates[k]] == templates[..k + 1];
  }

  method AddTemplate(
    seal: string -> string, t: Template, seen: set<string>, categories: seq<Category>, ghost known: seq<Template>)
    returns (seen': set<string>, categories': seq<Category>)
    requires categories == CategoriesOf(seal, known) && Knows(seen, known)
    ensures categories' == CategoriesOf(seal, Added(known, t)) && Knows(seen', Added(known, t))
  {
    seen', categories' := seen, categories;
    if t.processCode !in seen {
      CodesSnoc(known, t);
      seen', categories' := seen + {t.processCode}, categories + [Categorised(seal, t)];
    }
  }

  lemma {:induction false} CodesSnoc(known: seq<Template>, t: Template)
    ensures forall code :: Codes(known + [t], code) <==> Codes(known, code) || code == t.processCode
  {
    forall code
      ensures Codes(known + [t], code) <==> Codes(known, code) || code == t.processCode
    {
      if Codes(known, code) {
        var i :| 0 <= i < |known| && known[i].processCode == code;
        assert (known + [t])[i].processCode == code;
      }
      assert (known + [t])[|known|].processCode == t.processCode;
    }
  }

  /** One page is asked for, checked and added. */
  method LoadPage(
    provider: Provider, seal: string -> string, index: nat, token: int, seen: set<string>, categories: seq<Category>)
    returns (r: Answer<Page>, seen': set<string>, categories': seq<Category>)
    requires token == Token(provider, index)
    requires categories == CategoriesOf(seal, Distill(Listing(provider, index)))
    requires Knows(seen, Distill(Listing(provider, index)))
    ensures r.Answered? == PageOk(provider, index)
    ensures r == Reply(provider, index) || r == Failed(Upstream)
    ensures r.Answered? ==> categories' == CategoriesOf(seal, Distill(Listing(provider, index + 1)))
    ensures r.Answered? ==> Knows(seen', Distill(Listing(provider, index + 1)))
  {
    seen', categories' := seen, categories;
    r := provider(index, token);
    if r.Answered? {
      var templates := r.value.templates;
      if PAGE_SIZE < |templates| || MAX_TEMPLATES < |categories| + |templates| {
        r := Failed(Upstream);
      } else {
        var ok;
        ok, seen', categories' := AddTemplates(seal, templates, seen, categories, Listing(provider, index));
        if !ok { r := Failed(Upstream); }
      }
    }
  }

  /** The load succeeds exactly on a complete listing, with its sorted categories. */
  method FetchVisibleCatalog(provider: Provider, seal: string -> string)
    returns (r: Answer<seq<Category>>, ghost pages: nat)
    ensures r.Answered? ==> Complete(provider, pages) && r.value == CatalogueOf(seal, Listing(provider, pages))
    ensures r.Failed? ==> forall n: nat :: !Complete(provider, n)
    ensures r.Failed? ==> r.error == Upstream || exists i: nat :: Reply(provider, i) == Failed(r.error)
  {
    var token, seen, categories := 0, {}, [];
    for pageIndex := 0 to MAX_PAGES
      invariant token == Token(provider, pageIndex)
      invariant Led(provider, pageIndex)
      invariant categories == CategoriesOf(seal, Distill(Listing(provider, pageIndex)))
      invariant Knows(seen, Distill(Listing(provider, pageIndex)))
    {
      var page;
      page, seen, categories := LoadPage(provider, seal, pageIndex, token, seen, categories);
      if page.Failed? {
        NoListing(provider, pageIndex);
        return Failed(page.error), 0;
      }
      if page.value.next.None? {
        return Answered(Sorted(categories)), pageIndex + 1;
      }
      if page.value.next.value <= token {
        NoListing(provider, pageIndex);
        return Failed(Upstream), 0;
      }
      LedNext(provider, pageIndex);
      token := page.value.next.value;
    }
    TooManyPages(provider);
    return Failed(Upstream), 0;
  }

  lemma {:induction false} TooManyPages(provider: Provider)
    requires Led(provider, MAX_PAGES)
    ensures forall n: nat :: !Complete(provider, n)
  {
    forall n: nat
      ensures !Complete(provider, n)
    {
      if 1 <= n <= MAX_PAGES { assert Leads(provider, n - 1); }
    }
  }

  // The catalogue is a function of the set of visible templates.

  predicate DistinctCodes(templates: seq<Template>) {
    forall i, j :: 0 <= i < j < |templates| ==> templates[i].processCode != templates[j].processCode
  }

  /** Templates with one process code are the same after cleaning. */
  predicate Agreeing(listing: seq<Template>) {
    forall i, j | 0 <= i < |listing| && 0 <= j < |listing| ::
      Clean(listing[i]).processCode == Clean(listing[j]).processCode ==> Clean(listing[i]) == Clean(listing[j])
  }

  predicate Lists(listing: seq<Template>, t: Template) {
    exists i :: 0 <= i < |listing| && Clean(listing[i]) == t
  }

  lemma {:induction false} DistillDistinct(listing: seq<Template>)
    ensures DistinctCodes(Distill(listing))
    ensures forall i :: 0 <= i < |Distill(listing)| ==> Lists(listing, Distill(listing)[i])
  {
    if listing != [] {
      var before := listing[..|listing| - 1];
      DistillDistinct(before);
      forall i | 0 <= i < |Distill(listing)|
        ensures Lists(listing, Distill(listing)[i])
      {
        if i < |Distill(before)| {
          var k :| 0 <= k < |before| && Clean(before[k]) == Distill(before)[i];
          assert Clean(listing[k]) == Distill(listing)[i];
        } else {
          assert Clean(listing[|listing| - 1]) == Distill(listing)[i];
        }
      }
    }
  }

  lemma {:induction false} DistillKeeps(listing: seq<Template>, i: nat)
    requires listing != [] && i < |Distill(listing[..|listing| - 1])|
    ensures i < |Distill(listing)| && Distill(listing)[i] == Distill(listing[..|listing| - 1])[i]
  {
  }

  lemma {:induction false} ListsMore(listing: seq<Template>, t: Template)
    requires listing != [] && Lists(listing, t) && t != Clean(listing[|listing| - 1])
    ensures Lists(listing[..|listing| - 1], t)
  {
    var i :| 0 <= i < |listing| && Clean(listing[i]) == t;
    assert Clean(listing[..|listing| - 1][i]) == t;
  }

  /** Every listed code is kept. */
  lemma {:induction false} DistillHasCode(listing: seq<Template>, t: Template)
    requires Lists(listing, t)
    ensures Codes(Distill(listing), t.processCode)
  {
    var before, last := listing[..|listing| - 1], Clean(listing[|listing| - 1]);
    if t != last {
      ListsMore(listing, t);
      DistillHasCode(before, t);
    }
    if Codes(Distill(before), t.processCode) {
      var i :| 0 <= i < |Distill(before)| && Distill(before)[i].processCode == t.processCode;
      DistillKeeps(listing, i);
    } else {
      assert Distill(listing)[|Distill(before)|] == t;
    }
  }

  /** When duplicates agree, every listed template is kept. */
  lemma {:induction false} DistillComplete(listing: seq<Template>, t: Template)
    requires Lists(listing, t) && Agreeing(listing)
    ensures t in Distill(listing)
  {
    DistillHasCode(listing, t);
    DistillDistinct(listing);
    var i :| 0 <= i < |Distill(listing)| && Distill(listing)[i].processCode == t.processCode;
    var k :| 0 <= k < |listing| && Clean(listing[k]) == Distill(listing)[i];
    var l :| 0 <= l < |listing| && Clean(listing[l]) == t;
    assert Clean(listing[k]) == Clean(listing[l]);
  }

  lemma {:induction false} LessTransitive(a: Category, b: Category, c: Category)
    requires Less(a, b) && Less(b, c)
    ensures Less(a, c)
  {
    BeforeIrreflexive(a.directoryName);
    BeforeIrreflexive(a.displayName);
    BeforeIrreflexive(b.directoryName);
    BeforeIrreflexive(b.displayName);
    if Before(a.directoryName, b.directoryName) && Before(b.directoryName, c.directoryName) {
      BeforeTransitive(a.directoryName, b.directoryName, c.directoryName);
      BeforeIrreflexive(c.directoryName);
    }
    if Before(a.displayName, b.displayName) && Before(b.displayName, c.displayName) {
      BeforeTransitive(a.displayName, b.displayName, c.displayName);
      BeforeIrreflexive(c.displayName);
    }
    if Before(a.id, b.id) && Before(b.id, c.id) {
      BeforeTransitive(a.id, b.id, c.id);
    }
  }

  /** The comparator is a strict total order on categories told apart by their identifiers. */
  lemma {:induction false} LessIsTotal(all: set<Category>)
    requires forall a, b :: a in all && b in all && a.id == b.id ==> a == b
    ensures TotalOn(Less, all)
  {
    forall a | a in all
      ensures !Less(a, a)
    {
      BeforeIrreflexive(a.id);
    }
    forall a, b | a in all && b in all && a != b
      ensures Less(a, b) || Less(b, a)
    {
      if a.directoryName != b.directoryName { BeforeTotal(a.directoryName, b.directoryName); }
      else if a.displayName != b.displayName { BeforeTotal(a.displayName, b.displayName); }
      else { BeforeTotal(a.id, b.id); }
    }
    forall a, b, c | a in all && b in all && c in all && Less(a, b) && Less(b, c)
      ensures Less(a, c)
    {
      LessTransitive(a, b, c);
    }
  }

  function Members(all: seq<Category>): set<Category> {
    set c | c in all
  }

  lemma {:induction false} CategoriesTotal(seal: string -> string, templates: seq<Template>)
    requires Injective(seal) && DistinctCodes(templates)
    ensures TotalOn(Less, Members(CategoriesOf(seal, templates))) && Distinct(CategoriesOf(seal, templates))
  {
    var all := CategoriesOf(seal, templates);
    forall a, b | a in Members(all) && b in Members(all) && a.id == b.id
      ensures a == b
    {
      SameIdSameCategory(seal, templates, a, b);
    }
    LessIsTotal(Members(all));
  }

  /** Another order, another split into pages, other repetitions: the same set of templates gives the same catalogue. */
  lemma {:induction false} SameSetSameCatalogue(seal: string -> string, a: seq<Template>, b: seq<Template>)
    requires Injective(seal) && Agreeing(a) && Agreeing(b)
    requires forall t :: Lists(a, t) <==> Lists(b, t)
    ensures CatalogueOf(seal, a) == CatalogueOf(seal, b)
  {
    DistillDistinct(a);
    DistillDistinct(b);
    CategoriesTotal(seal, Distill(a));
    CategoriesTotal(seal, Distill(b));
    var x, y := CategoriesOf(seal, Distill(a)), CategoriesOf(seal, Distill(b));
    forall c
      ensures c in x <==> c in y
    {
      if c in x { CarryOver(seal, a, b, c); }
      if c in y { CarryOver(seal, b, a, c); }
    }
    SortIgnoresOrder(Less, x, y, Members(x));
  }

  lemma {:induction false} CarryOver(seal: string -> string, a: seq<Template>, b: seq<Template>, c: Category)
    requires Agreeing(b) && (forall t :: Lists(a, t) ==> Lists(b, t))
    requires c in CategoriesOf(seal, Distill(a))
    ensures c in CategoriesOf(seal, Distill(b))
  {
    var i :| 0 <= i < |Distill(a)| && Categorised(seal, Distill(a)[i]) == c;
    DistillDistinct(a);
    DistillComplete(b, Distill(a)[i]);
    var j :| 0 <= j < |Distill(b)| && Distill(b)[j] == Distill(a)[i];
    assert CategoriesOf(seal, Distill(b))[j] == c;
  }

  /** A loaded catalogue is sorted, has distinct identifiers and at most 5000 entries. */
  lemma {:induction false} CatalogueShape(seal: string -> string, provider: Provider, pages: nat)
    requires Injective(seal) && Complete(provider, pages)
    ensures var all := CatalogueOf(seal, Listing(provider, pages));
            Ordering.Sorted(Less, all) && Disjoint(all) && |all| <= 5000
  {
    var listing := Listing(provider, pages);
    SortedCategories(seal, Distill(listing)) by {
      DistillDistinct(listing);
    }
    DistillGrows(Listing(provider, pages - 1), Reply(provider, pages - 1).value.templates);
  }

  lemma {:induction false} SortedCategories(seal: string -> string, templates: seq<Template>)
    requires Injective(seal) && DistinctCodes(templates)
    ensures var all := Sorted(CategoriesOf(seal, templates));
            Ordering.Sorted(Less, all) && Disjoint(all) && |all| == |templates|
  {
    var x := CategoriesOf(seal, templates);
    var all := Sorted(x);
    CategoriesTotal(seal, templates);
    SortSorted(Less, x, Members(x));
    SortElements(Less, x);
    SameMembers(all, x);
    forall i, j | 0 <= i < j < |all|
      ensures all[i].id != all[j].id
    {
      BeforeIrreflexive(all[i].directoryName);
      BeforeIrreflexive(all[i].displayName);
      BeforeIrreflexive(all[i].id);
      assert Less(all[i], all[j]) && all[i] in x && all[j] in x;
      if all[i].id == all[j].id {
        SameIdSameCategory(seal, templates, all[i], all[j]);
      }
    }
  }

  lemma {:induction false} SameIdSameCategory(seal: string -> string, templates: seq<Template>, a: Category, b: Category)
    requires Injective(seal) && DistinctCodes(templates)
    requires a in CategoriesOf(seal, templates) && b in CategoriesOf(seal, templates) && a.id == b.id
    ensures a == b
  {
    var x := CategoriesOf(seal, templates);
    var i :| 0 <= i < |x| && x[i] == a;
    var j :| 0 <= j < |x| && x[j] == b;
    assert seal(templates[i].processCode) == seal(templates[j].processCode);
  }

  /** Every listed process code is in the catalogue. */
  lemma {:induction false} CatalogueHasEveryCode(seal: string -> string, listing: seq<Template>, t: Template)
    requires Lists(listing, t)
    ensures exists c :: c in CatalogueOf(seal, listing) && c.processCode == t.processCode
  {
    var x := CategoriesOf(seal, Distill(listing));
    SortElements(Less, x);
    SameMembers(CatalogueOf(seal, listing), x);
    DistillHasCode(listing, t);
    var i :| 0 <= i < |Distill(listing)| && Distill(listing)[i].processCode == t.processCode;
    assert x[i] in CatalogueOf(seal, listing);
  }

  // The catalogue in terms of the listing.

  /** The i-th listed template is the first with its process code. */
  predicate IsFirstOfCode(listing: seq<Template>, i: nat) {
    i < |listing| && forall j :: 0 <= j < i ==> Trim(listing[j].processCode) != Trim(listing[i].processCode)
  }

  lemma {:induction false} FirstOfCodeSnoc(listing: seq<Template>, t: Template, i: nat)
    requires i <= |listing|
    ensures IsFirstOfCode(listing + [t], i)
       <==> if i < |listing| then IsFirstOfCode(listing, i)
            else forall j :: 0 <= j < |listing| ==> Trim(listing[j].processCode) != Trim(t.processCode)
  {
    assert forall j :: 0 <= j < |listing| ==> (listing + [t])[j] == listing[j];
  }

  lemma {:induction false} CodesAreListed(listing: seq<Template>, code: string)
    ensures Codes(Distill(listing), code) <==> exists j :: 0 <= j < |listing| && Trim(listing[j].processCode) == code
  {
    DistillDistinct(listing);
    if j :| 0 <= j < |listing| && Trim(listing[j].processCode) == code {
      assert Lists(listing, Clean(listing[j]));
      DistillHasCode(listing, Clean(listing[j]));
    }
    if Codes(Distill(listing), code) {
      var i :| 0 <= i < |Distill(listing)| && Distill(listing)[i].processCode == code;
      var k :| 0 <= k < |listing| && Clean(listing[k]) == Distill(listing)[i];
    }
  }

  lemma {:induction false} DistillIsFirsts(listing: seq<Template>, c: Template)
    ensures c in Distill(listing) <==> exists i: nat :: IsFirstOfCode(listing, i) && c == Clean(listing[i])
  {
    if listing != [] {
      var before, last := listing[..|listing| - 1], listing[|listing| - 1];
      assert listing == before + [last];
      DistillIsFirsts(before, c);
      CodesAreListed(before, Trim(last.processCode));
      FirstOfCodeSnoc(before, last, |before|);
      if i: nat :| IsFirstOfCode(before, i) && c == Clean(before[i]) {
        FirstOfCodeSnoc(before, last, i);
        assert IsFirstOfCode(listing, i) && c == Clean(listing[i]);
      }
      if i: nat :| IsFirstOfCode(listing, i) && c == Clean(listing[i]) {
        FirstOfCodeSnoc(before, last, i);
        assert i < |before| ==> IsFirstOfCode(before, i) && c == Clean(before[i]);
      }
    }
  }

  /** The category of a template: a sealed identifier, and the template's own fields without spaces at their ends. */
  function CategoryFor(seal: string -> string, t: Template): Category {
    var code := Trim(t.processCode);
    Category(seal(code), Trim(t.name), Trim(t.directory), code)
  }

  /** The catalogue has one category for the first template of each process code, with its trimmed fields. */
  lemma {:induction false} CatalogueIsListing(seal: string -> string, listing: seq<Template>, c: Category)
    ensures c in CatalogueOf(seal, listing)
       <==> exists i: nat | IsFirstOfCode(listing, i) :: c == CategoryFor(seal, listing[i])
  {
    var known := Distill(listing);
    var x := CategoriesOf(seal, known);
    SortElements(Less, x);
    SameMembers(CatalogueOf(seal, listing), x);
    if c in x {
      var k :| 0 <= k < |x| && x[k] == c;
      DistillIsFirsts(listing, known[k]);
    }
    if i: nat :| IsFirstOfCode(listing, i) && c == CategoryFor(seal, listing[i]) {
      DistillIsFirsts(listing, Clean(listing[i]));
      var k :| 0 <= k < |known| && known[k] == Clean(listing[i]);
      assert x[k] == c;
    }
  }

  /** No later than in the order of strings. */
  predicate NotAfter(a: string, b: string) { a == b || Before(a, b) }

  /** Directories in order, names in order within a directory, identifiers in order within a name. */
  lemma {:induction false} CatalogueOrder(seal: string -> string, provider: Provider, pages: nat, i: nat, j: nat)
    requires Injective(seal) && Complete(provider, pages)
    requires i < j < |CatalogueOf(seal, Listing(provider, pages))|
    ensures var all := CatalogueOf(seal, Listing(provider, pages));
            && NotAfter(all[i].directoryName, all[j].directoryName)
            && (all[i].directoryName == all[j].directoryName ==> NotAfter(all[i].displayName, all[j].displayName))
            && (all[i].directoryName == all[j].directoryName && all[i].displayName == all[j].displayName ==>
                  Before(all[i].id, all[j].id))
  {
    CatalogueShape(seal, provider, pages);
    var all := CatalogueOf(seal, Listing(provider, pages));
    assert Less(all[i], all[j]);
  }

  /** A template with a code and a name, all fields of bounded length in UTF-8. */
  predicate Proper(t: Template) {
    && 0 < |Encoded(Trim(t.processCode))| <= 256 && 0 < |Encoded(Trim(t.name))| <= 512
    && |Encoded(Trim(t.directory))| <= 512
  }

  lemma {:induction false} ProperIsAcceptable(t: Template)
    ensures Acceptable(t) <==> Proper(t)
  {
    BytesAreUtf8(Trim(t.processCode));
    BytesAreUtf8(Trim(t.name));
    BytesAreUtf8(Trim(t.directory));
  }

  /** The i-th reply is a page of at most 100 proper templates. */
  predicate ProperPage(provider: Provider, i: nat) {
    match Reply(provider, i)
    case Failed(_) => false
    case Answered(page) => |page.templates| <= 100 && forall k :: 0 <= k < |page.templates| ==> Proper(page.templates[k])
  }

  predicate PointsOn(provider: Provider, i: nat) {
    match Reply(provider, i)
    case Failed(_) => false
    case Answered(page) => page.next.Some? && Token(provider, i) < page.next.value
  }

  predicate PointsNowhere(provider: Provider, i: nat) {
    match Reply(provider, i)
    case Failed(_) => false
    case Answered(page) => page.next.None?
  }

  lemma {:induction false} ListingGrows(provider: Provider, i: nat, n: nat)
    requires i <= n
    ensures |Listing(provider, i)| <= |Listing(provider, n)|
  {
    if i < n { ListingGrows(provider, i, n - 1); }
  }

  lemma {:induction false} ProperPageIsOk(provider: Provider, i: nat, n: nat)
    requires i < n && ProperPage(provider, i) && |Listing(provider, n)| <= 5000
    ensures PageOk(provider, i)
  {
    var page := Reply(provider, i).value;
    ListingGrows(provider, i + 1, n);
    DistillGrows([], Listing(provider, i));
    assert [] + Listing(provider, i) == Listing(provider, i);
    forall k | 0 <= k < |page.templates|
      ensures Acceptable(page.templates[k])
    {
      ProperIsAcceptable(page.templates[k]);
    }
  }

  /** Only such listings are loaded: at most 100 linked pages, each of at most 100 proper templates. */
  lemma {:induction false} CompleteIsProper(provider: Provider, pages: nat, i: nat)
    requires Complete(provider, pages) && i < pages
    ensures pages <= 100 && ProperPage(provider, i)
    ensures if i < pages - 1 then PointsOn(provider, i) else PointsNowhere(provider, i)
  {
    assert i < pages - 1 ==> Leads(provider, i);
    var page := Reply(provider, i).value;
    forall k | 0 <= k < |page.templates|
      ensures Proper(page.templates[k])
    {
      ProperIsAcceptable(page.templates[k]);
    }
  }

  /** An upstream that lists at most 5000 proper templates in at most 100 linked pages is loaded. */
  lemma {:induction false} ProperListingIsComplete(provider: Provider, pages: nat)
    requires 1 <= pages <= 100 && |Listing(provider, pages)| <= 5000
    requires forall i: nat :: i < pages ==> ProperPage(provider, i)
    requires forall i: nat :: i < pages - 1 ==> PointsOn(provider, i)
    requires PointsNowhere(provider, pages - 1)
    ensures Complete(provider, pages)
  {
    forall i: nat | i < pages
      ensures PageOk(provider, i)
    {
      ProperPageIsOk(provider, i, pages);
    }
    forall i: nat | i < pages - 1
      ensures Leads(provider, i)
    {
      assert PointsOn(provider, i);
    }
  }

  lemma {:induction false} DistillGrows(listing: seq<Template>, more: seq<Template>)
    ensures |Distill(listing + more)| <= |Distill(listing)| + |more|
  {
    DistillGrowsBy(listing, more, |more|);
    assert more[..|more|] == more;
  }

  lemma {:induction false} DistillGrowsBy(listing: seq<Template>, more: seq<Template>, k: nat)
    requires k <= |more|
    ensures |Distill(listing + more[..k])| <= |Distill(listing)| + k
  {
    if k == 0 {
      assert listing + more[..0] == listing;
    } else {
      DistillGrowsBy(listing, more, k - 1);
      DistillNext(listing, more, k - 1);
    }
  }

  lemma {:induction false} Appended(a: seq<Template>, b: seq<Template>, t: Template)
    ensures a + b + [t] == a + (b + [t])
  {
  }
}
