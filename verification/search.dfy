/** The search box of components/search-bar.tsx: what a change of the query
    computes (hazard-property hits, category hits and name/symbol/number hits,
    merged, de-duplicated, sorted and cut to fifteen), which page links it
    suggests, and whether the dropdown opens. */
module Search {
  import opened Collections
  import opened Text
  import opened Elements
  import opened Hazards
  import opened Categories

  /** A suggested page: `{ type: "category" | "property", name }`. */
  datatype PageLink = PageLink(kind: PageKind, name: string)

  /** At most this many elements are listed. */
  const MaxResults: nat := 15

  /** `hazardTerms`, in insertion order; each name's symbol list is the list of
      the hazard kind beside it. */
  const HazardTerms: seq<(string, Kind)> := [
    ("toxic", Toxic),
    ("extremely toxic", ExtremeToxic),
    ("carcinogenic", Carcinogenic),
    ("corrosive", Corrosive),
    ("flammable", Flammable),
    ("water-reactive", WaterReactive),
    ("asphyxiant", Asphyxiant),
    ("pyrophoric", Pyrophoric),
    ("oxidizer", Oxidizer),
    ("radioactive", Radioactive)
  ]

  /** `categoryTerms`, in insertion order: a category and the words that find it. */
  const CategoryTerms: seq<(string, seq<string>)> := [
    ("alkali metal", AlkaliWords),
    ("alkaline earth metal", AlkalineEarthWords),
    ("transition metal", TransitionWords),
    ("post-transition metal", PostTransitionWords),
    ("metalloid", MetalloidWords),
    ("nonmetal", NonmetalWords),
    ("halogen", HalogenWords),
    ("noble gas", NobleGasWords),
    ("lanthanide", LanthanideWords),
    ("actinide", ActinideWords)
  ]

  const AlkaliWords: seq<string> := ["alkali", "alkali metal", "alkali metals", "group 1"]
  const AlkalineEarthWords: seq<string> := ["alkaline", "earth", "alkaline earth", "alkaline earth metal", "alkaline earth metals", "group 2"]
  const TransitionWords: seq<string> := ["transition", "transition metal", "transition metals", "d-block"]
  const PostTransitionWords: seq<string> := ["post-transition", "post transition", "post-transition metal", "post-transition metals", "poor metal"]
  const MetalloidWords: seq<string> := ["metalloid", "metalloids", "semi-metal", "semi metal", "semimetal"]
  const NonmetalWords: seq<string> := ["nonmetal", "nonmetals", "non-metal", "non metal"]
  const HalogenWords: seq<string> := ["halogen", "halogens", "group 17"]
  const NobleGasWords: seq<string> := ["noble", "noble gas", "noble gases", "inert gas", "group 18"]
  const LanthanideWords: seq<string> := ["lanthanide", "lanthanides", "rare earth", "rare-earth"]
  const ActinideWords: seq<string> := ["actinide", "actinides", "actinoid"]

  /** `value.trim() === ""`. */
  predicate Blank(s: string) {
    forall i :: 0 <= i < |s| ==> IsSpace(s[i])
  }

  /** `hazardType.toLowerCase().includes(lowerValue)`: one direction only. */
  predicate HazardTermMatches(t: (string, Kind), lv: string) {
    Contains(Lower(t.0), lv)
  }

  /** `searchTerms.some(term => term.toLowerCase().includes(lowerValue) ||
      lowerValue.includes(term.toLowerCase()))`: either direction. */
  predicate TermsMatch(terms: seq<string>, lv: string) {
    exists i :: 0 <= i < |terms| && (Contains(Lower(terms[i]), lv) || Contains(lv, Lower(terms[i])))
  }

  predicate CategoryTermMatches(c: (string, seq<string>), lv: string) {
    TermsMatch(c.1, lv)
  }

  function HazardsMatching(lv: string): (ts: seq<(string, Kind)>)
    ensures SubseqOf(ts, HazardTerms)
    ensures forall t :: t in ts <==> t in HazardTerms && HazardTermMatches(t, lv)
  {
    var keep := (t: (string, Kind)) => HazardTermMatches(t, lv);
    FilterIsSubseq(HazardTerms, keep);
    FilterMembers(HazardTerms, keep);
    Filter(HazardTerms, keep)
  }

  function CategoriesMatching(lv: string): (cs: seq<(string, seq<string>)>)
    ensures SubseqOf(cs, CategoryTerms)
    ensures forall c :: c in cs <==> c in CategoryTerms && CategoryTermMatches(c, lv)
  {
    var keep := (c: (string, seq<string>)) => CategoryTermMatches(c, lv);
    FilterIsSubseq(CategoryTerms, keep);
    FilterMembers(CategoryTerms, keep);
    Filter(CategoryTerms, keep)
  }

  /** `symbols.map(s => Object.values(elementData).find(el => el.symbol === s)).filter(Boolean)`. */
  function FoundBySymbols(data: seq<Element>, symbols: seq<string>): (r: seq<Element>)
    ensures forall x :: x in r <==> x.symbol in symbols && FindBySymbol(data, x.symbol) == Some(x)
    decreases |symbols|
  {
    if |symbols| == 0 then []
    else
      var rest := FoundBySymbols(data, symbols[1..]);
      assert forall s :: s in symbols <==> s == symbols[0] || s in symbols[1..];
      match FindBySymbol(data, symbols[0])
      case None => rest
      case Some(x) => [x] + rest
  }

  /** The element a hazard-term hit contributes: the first element bearing a
      listed symbol of a matched hazard term. */
  ghost predicate HazardHit(data: seq<Element>, lv: string, x: Element) {
    exists t :: t in HazardTerms && HazardTermMatches(t, lv) &&
      x.symbol in Symbols(t.1) && FindBySymbol(data, x.symbol) == Some(x)
  }

  /** An element whose lower-cased category is the key of a matched category. */
  ghost predicate CategoryHit(lv: string, x: Element) {
    x.category != "" &&
    exists c :: c in CategoryTerms && CategoryTermMatches(c, lv) && Lower(x.category) == Lower(c.0)
  }

  /** Name and symbol are searched for the lower-cased query, the atomic
      number for the query as typed. */
  predicate NameHit(value: string, x: Element) {
    Contains(Lower(x.name), Lower(value)) || Contains(Lower(x.symbol), Lower(value))
    || Contains(IntToString(x.number), value)
  }

  ghost predicate Hit(data: seq<Element>, value: string, x: Element) {
    HazardHit(data, Lower(value), x) || CategoryHit(Lower(value), x) || NameHit(value, x)
  }

  /** The hazard part of `results`, one matched term after the other. */
  function HazardHits(data: seq<Element>, ts: seq<(string, Kind)>): (r: seq<Element>)
    ensures forall x :: x in r <==>
      exists t :: t in ts && x.symbol in Symbols(t.1) && FindBySymbol(data, x.symbol) == Some(x)
    decreases |ts|
  {
    if |ts| == 0 then []
    else
      var rest := HazardHits(data, ts[1..]);
      assert forall t :: t in ts <==> t == ts[0] || t in ts[1..];
      FoundBySymbols(data, Symbols(ts[0].1)) + rest
  }

  function SameCategoryAs(key: string): (keep: Element -> bool)
    ensures forall x :: keep(x) <==> x.category != "" && Lower(x.category) == Lower(key)
  {
    (x: Element) => x.category != "" && Lower(x.category) == Lower(key)
  }

  /** The category part of `results`: for each matched category, the elements
      whose lower-cased category equals it. */
  function CategoryHits(data: seq<Element>, cs: seq<(string, seq<string>)>): (r: seq<Element>)
    ensures forall x :: x in r <==>
      x in data && x.category != "" && exists c :: c in cs && Lower(x.category) == Lower(c.0)
    decreases |cs|
  {
    if |cs| == 0 then []
    else
      var rest := CategoryHits(data, cs[1..]);
      FilterMembers(data, SameCategoryAs(cs[0].0));
      assert forall c :: c in cs <==> c == cs[0] || c in cs[1..];
      Filter(data, SameCategoryAs(cs[0].0)) + rest
  }

  function NameHitOf(value: string): (keep: Element -> bool)
    ensures forall x :: keep(x) <==> NameHit(value, x)
  {
    (x: Element) => NameHit(value, x)
  }

  /** `[...hazard hits, ...category hits, ...name/symbol/number hits]`. */
  function Hits(data: seq<Element>, value: string): (r: seq<Element>)
    ensures forall x :: x in r <==> x in data && Hit(data, value, x)
  {
    var lv := Lower(value);
    var ts := HazardsMatching(lv);
    var cs := CategoriesMatching(lv);
    var hz := HazardHits(data, ts);
    var ct := CategoryHits(data, cs);
    var nm := Filter(data, NameHitOf(value));
    FilterMembers(data, NameHitOf(value));
    forall x ensures x in hz <==> HazardHit(data, lv, x) {
    }
    forall x | x in hz ensures x in data {
      assert FindBySymbol(data, x.symbol) == Some(x);
    }
    forall x ensures x in ct <==> x in data && CategoryHit(lv, x) {
    }
    hz + ct + nm
  }

  function Take(xs: seq<Element>, n: nat): (r: seq<Element>)
    ensures |r| == if |xs| < n then |xs| else n
    ensures r == xs[..|r|]
  {
    if |xs| < n then xs else xs[..n]
  }

  /** `uniqueResults.sort(...)` then `slice(0, 15)`: at most fifteen hits,
      strictly ascending by atomic number, and a hit is left out only when
      fifteen smaller atomic numbers were found. */
  function SearchResults(data: seq<Element>, value: string): (r: seq<Element>)
    ensures Catalog(r)
    ensures |r| <= MaxResults
    ensures forall x :: x in r ==> x in data && Hit(data, value, x)
    ensures forall y :: y in data && Hit(data, value, y) ==>
      y.number in NumbersOf(r) || (|r| == MaxResults && forall i :: 0 <= i < |r| ==> r[i].number < y.number)
  {
    var hits := Hits(data, value);
    TopOfHits(hits, MaxResults);
    Take(SortByNumber(DedupeByNumber(hits)), MaxResults)
  }

  /** De-duplicating, sorting and cutting a list of hits to `n` keeps the `n`
      smallest atomic numbers, each once. */
  lemma TopOfHits(hits: seq<Element>, n: nat)
    ensures Catalog(Take(SortByNumber(DedupeByNumber(hits)), n))
    ensures |Take(SortByNumber(DedupeByNumber(hits)), n)| <= n
    ensures forall x :: x in Take(SortByNumber(DedupeByNumber(hits)), n) ==> x in hits
    ensures forall y :: y in hits ==>
      y.number in NumbersOf(Take(SortByNumber(DedupeByNumber(hits)), n)) ||
      (|Take(SortByNumber(DedupeByNumber(hits)), n)| == n &&
       forall i :: 0 <= i < n ==> Take(SortByNumber(DedupeByNumber(hits)), n)[i].number < y.number)
  {
    var unique := DedupeByNumber(hits);
    var sorted := SortByNumber(unique);
    SortPermutes(unique);
    SortedDistinctIsStrict(sorted);
    assert forall x :: x in sorted <==> x in unique by {
      assert forall x :: x in sorted <==> x in multiset(unique);
    }
    var r := Take(sorted, n);
    forall y | y in hits
      ensures y.number in NumbersOf(r) || (|r| == n && forall i :: 0 <= i < n ==> r[i].number < y.number)
    {
      assert y.number in NumbersOf(hits);
      assert y.number in NumbersOf(unique);
      var z :| z in unique && z.number == y.number;
      TakeOfCatalog(sorted, n, z);
    }
  }

  /** Cutting a strictly ascending list keeps an entry or drops it behind a
      full prefix of smaller numbers. */
  lemma TakeOfCatalog(s: seq<Element>, n: nat, z: Element)
    requires Catalog(s)
    requires z in s
    ensures z in Take(s, n) || (|Take(s, n)| == n && forall i :: 0 <= i < n ==> Take(s, n)[i].number < z.number)
    ensures z in Take(s, n) ==> z.number in NumbersOf(Take(s, n))
  {
    var j :| 0 <= j < |s| && s[j] == z;
    if j < n {
      assert Take(s, n)[j] == z;
    }
  }

  /** Over the dataset's own listing every hit is shown unless fifteen hits
      with smaller atomic numbers fill the list. */
  lemma EveryHitShownUnlessFull(data: seq<Element>, value: string, y: Element)
    requires Catalog(data)
    requires y in data && Hit(data, value, y)
    requires |SearchResults(data, value)| < MaxResults
    ensures y in SearchResults(data, value)
  {
    var r := SearchResults(data, value);
    assert y.number in NumbersOf(r);
    SameNumberSameEntry(data, r, y);
  }

  /** In a strictly ascending listing an atomic number names one entry, so
      a sublist holding `y`'s number holds `y`. */
  lemma SameNumberSameEntry(data: seq<Element>, r: seq<Element>, y: Element)
    requires Catalog(data) && y in data
    requires forall x :: x in r ==> x in data
    requires y.number in NumbersOf(r)
    ensures y in r
  {
    var x :| x in r && x.number == y.number;
    var i :| 0 <= i < |data| && data[i] == x;
    var j :| 0 <= j < |data| && data[j] == y;
    assert i == j;
  }

  function Links(kind: PageKind, names: seq<string>): (ls: seq<PageLink>)
    ensures |ls| == |names|
    ensures forall i :: 0 <= i < |ls| ==> ls[i] == PageLink(kind, names[i])
  {
    seq(|names|, i requires 0 <= i < |names| => PageLink(kind, names[i]))
  }

  function HazardNames(ts: seq<(string, Kind)>): (ns: seq<string>)
    ensures |ns| == |ts|
    ensures forall i :: 0 <= i < |ns| ==> ns[i] == ts[i].0
  {
    seq(|ts|, i requires 0 <= i < |ts| => ts[i].0)
  }

  function CategoryNames(cs: seq<(string, seq<string>)>): (ns: seq<string>)
    ensures |ns| == |cs|
    ensures forall i :: 0 <= i < |ns| ==> ns[i] == cs[i].0
  {
    seq(|cs|, i requires 0 <= i < |cs| => cs[i].0)
  }

  /** The component's state. `data` is `Object.values(elementData)`, and
      `loaded` is `isDataLoaded`. */
  datatype SearchBox = SearchBox(
    term: string,
    results: seq<Element>,
    categories: seq<PageLink>,
    properties: seq<PageLink>,
    dropdown: bool,
    loaded: bool,
    data: seq<Element>)

  /** `handleSearchChange`, with the dropdown rule's length test applied to
      `shownFor`. */
  function Change(s: SearchBox, value: string, shownFor: string): (t: SearchBox)
    ensures t.term == value && t.loaded == s.loaded && t.data == s.data
    ensures !s.loaded ==> t == s.(term := value)
    ensures s.loaded && Blank(value) ==>
      t.results == [] && t.categories == [] && t.properties == [] && !t.dropdown
    ensures s.loaded && !Blank(value) ==> t.results == SearchResults(s.data, value)
    ensures s.loaded && !Blank(value) ==> forall l :: l in t.properties <==>
      l.kind == ByProperty && exists k :: (l.name, k) in HazardTerms && Contains(Lower(l.name), Lower(value))
    ensures s.loaded && !Blank(value) ==> forall l :: l in t.categories <==>
      l.kind == ByCategory && exists ws :: (l.name, ws) in CategoryTerms && TermsMatch(ws, Lower(value))
    ensures s.loaded && !Blank(value) ==> t.properties == Links(ByProperty, HazardNames(HazardsMatching(Lower(value))))
    ensures s.loaded && !Blank(value) ==> t.categories == Links(ByCategory, CategoryNames(CategoriesMatching(Lower(value))))
    ensures s.loaded && !Blank(value) ==>
      (t.dropdown <==> |t.results| > 0 || |t.categories| > 0 || |t.properties| > 0 || Utf16Length(shownFor) >= 2)
  {
    if !s.loaded then s.(term := value)
    else if Blank(value) then
      s.(term := value, results := [], categories := [], properties := [], dropdown := false)
    else
      var lv := Lower(value);
      var results := SearchResults(s.data, value);
      var ts := HazardsMatching(lv);
      var cs := CategoriesMatching(lv);
      var props := Links(ByProperty, HazardNames(ts));
      var cats := Links(ByCategory, CategoryNames(cs));
      LinksOfHazards(ts, lv);
      LinksOfCategories(cs, lv);
      s.(term := value, results := results, categories := cats, properties := props,
         dropdown := |results| > 0 || |cats| > 0 || |props| > 0 || Utf16Length(shownFor) >= 2)
  }

  lemma LinksOfHazards(ts: seq<(string, Kind)>, lv: string)
    requires forall t :: t in ts <==> t in HazardTerms && HazardTermMatches(t, lv)
    ensures forall l :: l in Links(ByProperty, HazardNames(ts)) <==>
      l.kind == ByProperty && exists k :: (l.name, k) in HazardTerms && Contains(Lower(l.name), lv)
  {
    var ls := Links(ByProperty, HazardNames(ts));
    forall l ensures l in ls <==>
      l.kind == ByProperty && exists k :: (l.name, k) in HazardTerms && Contains(Lower(l.name), lv)
    {
      if l in ls {
        var i :| 0 <= i < |ls| && ls[i] == l;
        assert ts[i] in ts;
        assert (l.name, ts[i].1) == ts[i];
      }
      if l.kind == ByProperty && exists k :: (l.name, k) in HazardTerms && Contains(Lower(l.name), lv) {
        var k :| (l.name, k) in HazardTerms && Contains(Lower(l.name), lv);
        assert HazardTermMatches((l.name, k), lv);
        var i :| 0 <= i < |ts| && ts[i] == (l.name, k);
        assert ls[i] == l;
      }
    }
  }

  lemma LinksOfCategories(cs: seq<(string, seq<string>)>, lv: string)
    requires forall c :: c in cs <==> c in CategoryTerms && CategoryTermMatches(c, lv)
    ensures forall l :: l in Links(ByCategory, CategoryNames(cs)) <==>
      l.kind == ByCategory && exists ws :: (l.name, ws) in CategoryTerms && TermsMatch(ws, lv)
  {
    var ls := Links(ByCategory, CategoryNames(cs));
    forall l ensures l in ls <==>
      l.kind == ByCategory && exists ws :: (l.name, ws) in CategoryTerms && TermsMatch(ws, lv)
    {
      if l in ls {
        var i :| 0 <= i < |ls| && ls[i] == l;
        assert cs[i] in cs;
        assert (l.name, cs[i].1) == cs[i];
      }
      if l.kind == ByCategory && exists ws :: (l.name, ws) in CategoryTerms && TermsMatch(ws, lv) {
        var ws :| (l.name, ws) in CategoryTerms && TermsMatch(ws, lv);
        assert CategoryTermMatches((l.name, ws), lv);
        var i :| 0 <= i < |cs| && cs[i] == (l.name, ws);
        assert ls[i] == l;
      }
    }
  }

  /** `handleSearchChange` as written: the dropdown rule reads `searchTerm`,
      which still holds the query from before this change. */
  function HandleSearchChangeAsWritten(s: SearchBox, value: string): (t: SearchBox)
    ensures t.term == value
    ensures s.loaded && !Blank(value) ==>
      (t.dropdown <==> |t.results| > 0 || |t.categories| > 0 || |t.properties| > 0 || Utf16Length(s.term) >= 2)
  {
    Change(s, value, s.term)
  }

  /** `handleSearchChange` with the dropdown rule reading the new query. */
  function HandleSearchChange(s: SearchBox, value: string): (t: SearchBox)
    ensures t.term == value
    ensures s.loaded && !Blank(value) ==>
      (t.dropdown <==> |t.results| > 0 || |t.categories| > 0 || |t.properties| > 0 || Utf16Length(value) >= 2)
  {
    Change(s, value, value)
  }

  /** With the corrected rule, the dropdown is open after a non-blank change
      exactly when the list renders something: a hit, a page link, or (for a
      query of two or more characters) the "No elements found" line. */
  lemma DropdownFollowsQuery(s: SearchBox, value: string)
    requires s.loaded && !Blank(value)
    ensures HandleSearchChange(s, value).dropdown <==>
      |HandleSearchChange(s, value).results| > 0 || |HandleSearchChange(s, value).categories| > 0
      || |HandleSearchChange(s, value).properties| > 0 || Utf16Length(value) >= 2
    ensures HandleSearchChange(s, value) == HandleSearchChangeAsWritten(s, value).(dropdown := HandleSearchChange(s, value).dropdown)
  {
  }

  /** Typing a second character that matches nothing: the code as written
      keeps the dropdown closed, because the previous query had one
      character; the corrected rule opens it to show "No elements found". */
  lemma StaleDropdownCounterexample()
    ensures !HandleSearchChangeAsWritten(SearchBox("q", [], [], [], false, true, []), "qq").dropdown
    ensures HandleSearchChange(SearchBox("q", [], [], [], false, true, []), "qq").dropdown
  {
    var s := SearchBox("q", [], [], [], false, true, []);
    assert !Blank("qq") by {
      assert !IsSpace("qq"[0]);
    }
    HazardNamesLackQQ();
    CategoryWordsLackQQ();
    QuietQuery(s, "qq", "q");
    QuietQuery(s, "qq", "qq");
  }

  /** A single character outside the Basic Multilingual Plane already has
      length 2 in JavaScript, so a one-emoji query opens the dropdown. */
  lemma AstralQueryOpensDropdown(s: SearchBox)
    requires s.loaded
    ensures Utf16Length("\U{1F525}") == 2
    ensures HandleSearchChange(s, "\U{1F525}").dropdown
  {
    assert !Blank("\U{1F525}") by {
      assert !IsSpace("\U{1F525}"[0]);
    }
  }

  /** When no hazard name, category word or element matches, the dropdown
      opens only through the length test. */
  lemma QuietQuery(s: SearchBox, value: string, shownFor: string)
    requires s.loaded && !Blank(value)
    requires forall t :: t in HazardTerms ==> !HazardTermMatches(t, Lower(value))
    requires forall c :: c in CategoryTerms ==> !CategoryTermMatches(c, Lower(value))
    requires forall x :: x in s.data ==> !NameHit(value, x)
    ensures Change(s, value, shownFor).dropdown <==> Utf16Length(shownFor) >= 2
  {
    var t := Change(s, value, shownFor);
    NoPropertyLinks(t.properties, HazardTerms, Lower(value));
    NoCategoryLinks(t.categories, CategoryTerms, Lower(value));
    NoHitsNoResults(s.data, value);
  }

  lemma NoPropertyLinks(links: seq<PageLink>, terms: seq<(string, Kind)>, lv: string)
    requires forall l :: l in links <==>
      l.kind == ByProperty && exists k :: (l.name, k) in terms && Contains(Lower(l.name), lv)
    requires forall t :: t in terms ==> !HazardTermMatches(t, lv)
    ensures links == []
  {
    HeadOf(links);
  }

  lemma NoCategoryLinks(links: seq<PageLink>, terms: seq<(string, seq<string>)>, lv: string)
    requires forall l :: l in links <==>
      l.kind == ByCategory && exists ws :: (l.name, ws) in terms && TermsMatch(ws, lv)
    requires forall c :: c in terms ==> !CategoryTermMatches(c, lv)
    ensures links == []
  {
    HeadOf(links);
  }

  lemma HeadOf<T>(xs: seq<T>)
    ensures xs != [] ==> xs[0] in xs
  {
  }

  lemma NoHitsNoResults(data: seq<Element>, value: string)
    requires forall t :: t in HazardTerms ==> !HazardTermMatches(t, Lower(value))
    requires forall c :: c in CategoryTerms ==> !CategoryTermMatches(c, Lower(value))
    requires forall x :: x in data ==> !NameHit(value, x)
    ensures SearchResults(data, value) == []
  {
  }

  lemma HazardNamesLackQQ()
    ensures Lower("qq") == "qq"
    ensures forall t :: t in HazardTerms ==> !HazardTermMatches(t, Lower("qq"))
  {
    assert Lower("qq") == "qq";
    HazardNamesQFree();
    forall t | t in HazardTerms ensures !HazardTermMatches(t, "qq") {
      QFreeLower(t.0);
      LacksCharNoContains(Lower(t.0), "qq", 'q');
    }
  }

  /** No category word contains "qq", and none is short enough to sit inside it. */
  lemma CategoryWordsLackQQ()
    ensures Lower("qq") == "qq"
    ensures forall c :: c in CategoryTerms ==> !CategoryTermMatches(c, Lower("qq"))
  {
    LowerQQ();
    CategoryWordsQFree();
    TermsLackQQ(CategoryTerms);
  }

  lemma LowerQQ()
    ensures Lower("qq") == "qq"
  {
  }

  lemma TermsLackQQ(terms: seq<(string, seq<string>)>)
    requires forall i :: 0 <= i < |terms| ==> WordsQFree(terms[i].1)
    ensures forall c :: c in terms ==> !CategoryTermMatches(c, "qq")
  {
    forall c | c in terms ensures !CategoryTermMatches(c, "qq") {
      var k :| 0 <= k < |terms| && terms[k] == c;
      WordsLackQQ(terms[k].1);
    }
  }

  lemma WordsLackQQ(ws: seq<string>)
    requires WordsQFree(ws)
    ensures !TermsMatch(ws, "qq")
  {
    forall i | 0 <= i < |ws| ensures !Contains(Lower(ws[i]), "qq") && !Contains("qq", Lower(ws[i])) {
      assert ws[i] in ws;
      QFreeLower(ws[i]);
      LacksCharNoContains(Lower(ws[i]), "qq", 'q');
      LongerNotContained("qq", Lower(ws[i]));
    }
  }

  predicate QFree(w: string) {
    forall i :: 0 <= i < |w| ==> w[i] != 'q' && w[i] != 'Q'
  }

  lemma QFreeLower(w: string)
    requires QFree(w)
    ensures 'q' !in Lower(w)
  {
    forall i | 0 <= i < |w| ensures Lower(w)[i] != 'q' {
      assert LowerChar(w[i]) != 'q';
    }
  }

  lemma HazardNamesQFree()
    ensures forall t :: t in HazardTerms ==> QFree(t.0) && |t.0| >= 5
  {
    forall i | 0 <= i < |HazardTerms| ensures QFree(HazardTerms[i].0) && |HazardTerms[i].0| >= 5 {
      HazardNameQFree(i);
    }
  }

  lemma HazardNameQFree(i: nat)
    requires i < |HazardTerms|
    ensures QFree(HazardTerms[i].0) && |HazardTerms[i].0| >= 5
  {
    if i == 0 {
      assert HazardTerms[0].0 == "toxic";
    } else if i == 1 {
      assert HazardTerms[1].0 == "extremely toxic";
    } else if i == 2 {
      assert HazardTerms[2].0 == "carcinogenic";
    } else if i == 3 {
      assert HazardTerms[3].0 == "corrosive";
    } else if i == 4 {
      assert HazardTerms[4].0 == "flammable";
    } else if i == 5 {
      assert HazardTerms[5].0 == "water-reactive";
    } else if i == 6 {
      assert HazardTerms[6].0 == "asphyxiant";
    } else if i == 7 {
      assert HazardTerms[7].0 == "pyrophoric";
    } else if i == 8 {
      assert HazardTerms[8].0 == "oxidizer";
    } else if i == 9 {
      assert HazardTerms[9].0 == "radioactive";
    }
  }

  /** Every word of `ws` is free of 'q' and at least five characters long. */
  predicate WordsQFree(ws: seq<string>) {
    forall v :: v in ws ==> QFree(v) && |v| >= 5
  }

  lemma CategoryWordsQFree()
    ensures forall i :: 0 <= i < |CategoryTerms| ==> WordsQFree(CategoryTerms[i].1)
  {
    forall i | 0 <= i < |CategoryTerms| ensures WordsQFree(CategoryTerms[i].1) {
      if i == 0 { assert CategoryTerms[0].1 == AlkaliWords; AlkaliWordsQFree(); }
      else if i == 1 { assert CategoryTerms[1].1 == AlkalineEarthWords; AlkalineEarthWordsQFree(); }
      else if i == 2 { assert CategoryTerms[2].1 == TransitionWords; TransitionWordsQFree(); }
      else if i == 3 { assert CategoryTerms[3].1 == PostTransitionWords; PostTransitionWordsQFree(); }
      else if i == 4 { assert CategoryTerms[4].1 == MetalloidWords; MetalloidWordsQFree(); }
      else if i == 5 { assert CategoryTerms[5].1 == NonmetalWords; NonmetalWordsQFree(); }
      else if i == 6 { assert CategoryTerms[6].1 == HalogenWords; HalogenWordsQFree(); }
      else if i == 7 { assert CategoryTerms[7].1 == NobleGasWords; NobleGasWordsQFree(); }
      else if i == 8 { assert CategoryTerms[8].1 == LanthanideWords; LanthanideWordsQFree(); }
      else if i == 9 { assert CategoryTerms[9].1 == ActinideWords; ActinideWordsQFree(); }
    }
  }

  lemma AlkaliWordsQFree() ensures WordsQFree(AlkaliWords) { }
  lemma AlkalineEarthWordsQFree() ensures WordsQFree(AlkalineEarthWords) {
    assert QFree("alkaline") && QFree("earth") && QFree("alkaline earth");
    assert QFree("alkaline earth metal") && QFree("alkaline earth metals") && QFree("group 2");
  }
  lemma TransitionWordsQFree() ensures WordsQFree(TransitionWords) { }
  lemma PostTransitionWordsQFree() ensures WordsQFree(PostTransitionWords) { }
  lemma MetalloidWordsQFree() ensures WordsQFree(MetalloidWords) { }
  lemma NonmetalWordsQFree() ensures WordsQFree(NonmetalWords) { }
  lemma HalogenWordsQFree() ensures WordsQFree(HalogenWords) { }
  lemma NobleGasWordsQFree() ensures WordsQFree(NobleGasWords) { }
  lemma LanthanideWordsQFree() ensures WordsQFree(LanthanideWords) { }
  lemma ActinideWordsQFree() ensures WordsQFree(ActinideWords) { }

  lemma LacksCharNoContains(hay: string, needle: string, c: char)
    requires c in needle && c !in hay
    ensures !Contains(hay, needle)
  {
    ContainsIff(hay, needle);
  }

  lemma {:induction false} LongerNotContained(hay: string, needle: string)
    requires |needle| > |hay|
    ensures !Contains(hay, needle)
    decreases |hay|
  {
    if |hay| > 0 {
      LongerNotContained(hay[1..], needle);
    }
  }

  /** `getCategoryColor` of the search box: a case-insensitive lookup with
      fallback "#e6ee9c". */
  const LinkColors: map<string, string> := map[
    "alkali metal" := "#ff8a80",
    "alkaline earth metal" := "#ff80ab",
    "transition metal" := "#ea80fc",
    "post-transition metal" := "#b388ff",
    "metalloid" := "#8c9eff",
    "nonmetal" := "#82b1ff",
    "halogen" := "#80d8ff",
    "noble gas" := "#84ffff",
    "lanthanide" := "#a7ffeb",
    "actinide" := "#b9f6ca"
  ]

  const FallbackLinkColor: string := "#e6ee9c"

  function LinkColor(category: string): (c: string)
    ensures Lower(category) in LinkColors ==> c == LinkColors[Lower(category)]
    ensures Lower(category) !in LinkColors ==> c == FallbackLinkColor
  {
    var key := Lower(category);
    if key in LinkColors && LinkColors[key] != "" then LinkColors[key] else FallbackLinkColor
  }

  /** `getPropertyEmoji`: a case-insensitive lookup with fallback "🔍". */
  const PropertyEmojis: map<string, string> := map[
    "radioactive" := "☢️",
    "toxic" := "☠️",
    "extremely toxic" := "⚠️",
    "carcinogenic" := "🧬",
    "corrosive" := "🧪",
    "flammable" := "🔥",
    "water-reactive" := "💧",
    "asphyxiant" := "😮‍💨",
    "pyrophoric" := "💥",
    "oxidizer" := "⚗️",
    "special" := "⚠️"
  ]

  const FallbackEmoji: string := "🔍"

  function PropertyEmoji(property: string): (e: string)
    ensures Lower(property) in PropertyEmojis ==> e == PropertyEmojis[Lower(property)]
    ensures Lower(property) !in PropertyEmojis ==> e == FallbackEmoji
  {
    var key := Lower(property);
    if key in PropertyEmojis && PropertyEmojis[key] != "" then PropertyEmojis[key] else FallbackEmoji
  }

  /** Lower-casing leaves a string without upper-case letters unchanged. */
  lemma LowerOfLower(s: string)
    requires HasNoUpper(s)
    ensures Lower(s) == s
  {
  }

  /** Every page link the search can suggest gets its own colour or emoji,
      never the fallback, and the property emoji agrees with the hazard badge
      of the same kind. */
  lemma SuggestedLinksAreDecorated()
    ensures forall i :: 0 <= i < |CategoryTerms| ==> LinkColor(CategoryTerms[i].0) != FallbackLinkColor
    ensures forall i :: 0 <= i < |HazardTerms| && HazardTerms[i].1 != ExtremeToxic ==>
      PropertyEmoji(HazardTerms[i].0) == Entry(HazardTerms[i].1).emoji && TypeName(HazardTerms[i].1) == HazardTerms[i].0
  {
    forall i | 0 <= i < |CategoryTerms| ensures LinkColor(CategoryTerms[i].0) != FallbackLinkColor {
      CategoryTermColoured(i);
    }
    forall i | 0 <= i < |HazardTerms| && HazardTerms[i].1 != ExtremeToxic
      ensures PropertyEmoji(HazardTerms[i].0) == Entry(HazardTerms[i].1).emoji && TypeName(HazardTerms[i].1) == HazardTerms[i].0
    {
      HazardTermDecorated(i);
    }
  }

  lemma CategoryTermColoured(i: int)
    requires 0 <= i < |CategoryTerms|
    ensures LinkColor(CategoryTerms[i].0) != FallbackLinkColor
  {
    if i < 2 { TermsColoured0(i); }
    else if i < 4 { TermsColoured2(i); }
    else if i < 6 { TermsColoured4(i); }
    else if i < 8 { TermsColoured6(i); }
    else { TermsColoured8(i); }
  }

  lemma TermsColoured0(i: int)
    requires 0 <= i <= 1
    ensures LinkColor(CategoryTerms[i].0) != FallbackLinkColor
  {
    if i == 0 { assert CategoryTerms[0].0 == "alkali metal"; CategoryColoured("alkali metal"); }
    else { assert CategoryTerms[1].0 == "alkaline earth metal"; CategoryColoured("alkaline earth metal"); }
  }

  lemma TermsColoured2(i: int)
    requires 2 <= i <= 3
    ensures LinkColor(CategoryTerms[i].0) != FallbackLinkColor
  {
    if i == 2 { assert CategoryTerms[2].0 == "transition metal"; CategoryColoured("transition metal"); }
    else { assert CategoryTerms[3].0 == "post-transition metal"; CategoryColoured("post-transition metal"); }
  }

  lemma TermsColoured4(i: int)
    requires 4 <= i <= 5
    ensures LinkColor(CategoryTerms[i].0) != FallbackLinkColor
  {
    if i == 4 { assert CategoryTerms[4].0 == "metalloid"; CategoryColoured("metalloid"); }
    else { assert CategoryTerms[5].0 == "nonmetal"; CategoryColoured("nonmetal"); }
  }

  lemma TermsColoured6(i: int)
    requires 6 <= i <= 7
    ensures LinkColor(CategoryTerms[i].0) != FallbackLinkColor
  {
    if i == 6 { assert CategoryTerms[6].0 == "halogen"; CategoryColoured("halogen"); }
    else { assert CategoryTerms[7].0 == "noble gas"; CategoryColoured("noble gas"); }
  }

  lemma TermsColoured8(i: int)
    requires 8 <= i <= 9
    ensures LinkColor(CategoryTerms[i].0) != FallbackLinkColor
  {
    if i == 8 { assert CategoryTerms[8].0 == "lanthanide"; CategoryColoured("lanthanide"); }
    else { assert CategoryTerms[9].0 == "actinide"; CategoryColoured("actinide"); }
  }

  lemma HazardTermDecorated(i: int)
    requires 0 <= i < |HazardTerms| && HazardTerms[i].1 != ExtremeToxic
    ensures PropertyEmoji(HazardTerms[i].0) == Entry(HazardTerms[i].1).emoji && TypeName(HazardTerms[i].1) == HazardTerms[i].0
  {
    if i < 5 { HazardTermDecoratedLow(i); } else { HazardTermDecoratedHigh(i); }
  }

  lemma HazardTermDecoratedLow(i: int)
    requires 0 <= i < 5 && HazardTerms[i].1 != ExtremeToxic
    ensures PropertyEmoji(HazardTerms[i].0) == Entry(HazardTerms[i].1).emoji && TypeName(HazardTerms[i].1) == HazardTerms[i].0
  {
    if i == 0 { assert HazardTerms[0] == ("toxic", Toxic); HazardDecorated("toxic", Toxic); }
    else if i == 2 { assert HazardTerms[2] == ("carcinogenic", Carcinogenic); HazardDecorated("carcinogenic", Carcinogenic); }
    else if i == 3 { assert HazardTerms[3] == ("corrosive", Corrosive); HazardDecorated("corrosive", Corrosive); }
    else if i == 4 { assert HazardTerms[4] == ("flammable", Flammable); HazardDecorated("flammable", Flammable); }
  }

  lemma HazardTermDecoratedHigh(i: int)
    requires 5 <= i < |HazardTerms| && HazardTerms[i].1 != ExtremeToxic
    ensures PropertyEmoji(HazardTerms[i].0) == Entry(HazardTerms[i].1).emoji && TypeName(HazardTerms[i].1) == HazardTerms[i].0
  {
    if i == 5 { assert HazardTerms[5] == ("water-reactive", WaterReactive); HazardDecorated("water-reactive", WaterReactive); }
    else if i == 6 { assert HazardTerms[6] == ("asphyxiant", Asphyxiant); HazardDecorated("asphyxiant", Asphyxiant); }
    else if i == 7 { assert HazardTerms[7] == ("pyrophoric", Pyrophoric); HazardDecorated("pyrophoric", Pyrophoric); }
    else if i == 8 { assert HazardTerms[8] == ("oxidizer", Oxidizer); HazardDecorated("oxidizer", Oxidizer); }
    else if i == 9 { assert HazardTerms[9] == ("radioactive", Radioactive); HazardDecorated("radioactive", Radioactive); }
  }

  lemma CategoryColoured(name: string)
    requires HasNoUpper(name) && name in LinkColors
    ensures LinkColor(name) != FallbackLinkColor
  {
    LowerOfLower(name);
  }

  lemma HazardDecorated(name: string, k: Kind)
    requires k != Special && HasNoUpper(name) && TypeName(k) == name
    requires name in PropertyEmojis && PropertyEmojis[name] == Entry(k).emoji
    ensures PropertyEmoji(name) == Entry(k).emoji && TypeName(k) == name
  {
    LowerOfLower(name);
  }
}
