/** Browsing by category or hazard property: the category-name mapping of
    lib/category-mapping.ts, the filter and sort of the category page, its CSS
    class lookup, and the halogen category patch of lib/halogen-fix.ts. */
module Categories {
  import opened Collections
  import opened Text
  import opened Elements
  import opened Hazards

  /** UI category name (lower case) to the category strings the dataset uses. */
  const CategoryMapping: map<string, seq<string>> := map[
    "nonmetal" := ["diatomic nonmetal", "polyatomic nonmetal"],
    "halogen" := ["halogen"],
    "noble gas" := ["noble gas"],
    "alkali metal" := ["alkali metal"],
    "alkaline earth metal" := ["alkaline earth metal"],
    "transition metal" := ["transition metal", "probably transition metal"],
    "post-transition metal" := ["post-transition metal", "probably post-transition metal"],
    "metalloid" := ["metalloid"],
    "lanthanide" := ["lanthanide"],
    "actinide" := ["actinide"]
  ]

  /** `categoryMapping[name.toLowerCase()] || [name]`: a mapped name is looked
      up lower-cased, an unmapped one stands for itself as typed. */
  function Variants(name: string): (vs: seq<string>)
    ensures |vs| > 0
    ensures Lower(name) in CategoryMapping ==> forall i :: 0 <= i < |vs| ==> HasNoUpper(vs[i])
    ensures Lower(name) in CategoryMapping ==> Lower(name) in vs || Lower(name) == "nonmetal"
    ensures Lower(name) in CategoryMapping ==> vs == CategoryMapping[Lower(name)]
    ensures Lower(name) !in CategoryMapping ==> vs == [name]
  {
    MappingIsLower();
    if Lower(name) in CategoryMapping then CategoryMapping[Lower(name)] else [name]
  }

  /** Every key and every variant of the mapping is written in lower case,
      and every key but "nonmetal" lists itself among its variants. */
  lemma MappingIsLower()
    ensures forall k :: k in CategoryMapping ==> |CategoryMapping[k]| > 0
    ensures forall k :: k in CategoryMapping ==>
      forall i :: 0 <= i < |CategoryMapping[k]| ==> HasNoUpper(CategoryMapping[k][i])
    ensures forall k :: k in CategoryMapping && k != "nonmetal" ==> k in CategoryMapping[k]
  {
    forall k | k in CategoryMapping
      ensures |CategoryMapping[k]| > 0
      ensures forall i :: 0 <= i < |CategoryMapping[k]| ==> HasNoUpper(CategoryMapping[k][i])
      ensures k != "nonmetal" ==> k in CategoryMapping[k]
    {
      EntryIsLower(k);
    }
  }

  lemma EntryIsLower(k: string)
    requires k in CategoryMapping
    ensures |CategoryMapping[k]| > 0
    ensures forall i :: 0 <= i < |CategoryMapping[k]| ==> HasNoUpper(CategoryMapping[k][i])
    ensures k != "nonmetal" ==> k in CategoryMapping[k]
  {
    NonmetalVariantsLower();
    TransitionVariantsLower();
    PostTransitionVariantsLower();
    FamilyNamesLower();
    BlockNamesLower();
    if k == "nonmetal" {
      assert CategoryMapping[k] == ["diatomic nonmetal", "polyatomic nonmetal"];
    } else if k == "transition metal" {
      assert CategoryMapping[k] == ["transition metal", "probably transition metal"];
    } else if k == "post-transition metal" {
      assert CategoryMapping[k] == ["post-transition metal", "probably post-transition metal"];
    } else {
      assert CategoryMapping[k] == [k];
    }
  }

  lemma NonmetalVariantsLower()
    ensures HasNoUpper("diatomic nonmetal") && HasNoUpper("polyatomic nonmetal")
  {
  }

  lemma TransitionVariantsLower()
    ensures HasNoUpper("transition metal") && HasNoUpper("probably transition metal")
  {
  }

  lemma PostTransitionVariantsLower()
    ensures HasNoUpper("post-transition metal") && HasNoUpper("probably post-transition metal")
  {
  }

  lemma FamilyNamesLower()
    ensures HasNoUpper("halogen") && HasNoUpper("noble gas") && HasNoUpper("alkali metal")
    ensures HasNoUpper("alkaline earth metal")
  {
  }

  lemma BlockNamesLower()
    ensures HasNoUpper("metalloid") && HasNoUpper("lanthanide") && HasNoUpper("actinide")
  {
  }

  /** `element.category && variants.includes(element.category.toLowerCase())`. */
  predicate InCategory(e: Element, variants: seq<string>) {
    e.category != "" && Lower(e.category) in variants
  }

  function InCategoryOf(name: string): (keep: Element -> bool)
    ensures forall e :: keep(e) <==> InCategory(e, Variants(name))
  {
    (e: Element) => InCategory(e, Variants(name))
  }

  /** `getElementsByCategory(allElements, categoryName)`. */
  function GetElementsByCategory(all: seq<Element>, name: string): (r: seq<Element>)
    ensures SubseqOf(r, all)
    ensures forall x :: x in r <==> x in all && x.category != "" && Lower(x.category) in Variants(name)
  {
    var r := Filter(all, InCategoryOf(name));
    FilterIsSubseq(all, InCategoryOf(name));
    assert forall x :: x in all && InCategory(x, Variants(name)) ==> x in r by {
      forall x | x in all && InCategory(x, Variants(name)) ensures x in r {
        var i :| 0 <= i < |all| && all[i] == x;
      }
    }
    r
  }

  /** "nonmetal" selects the diatomic and the polyatomic nonmetals, however the
      data or the request capitalises them. */
  lemma NonmetalSelectsBothKinds(all: seq<Element>, name: string, x: Element)
    requires Lower(name) == "nonmetal"
    requires x in all
    requires Lower(x.category) == "diatomic nonmetal" || Lower(x.category) == "polyatomic nonmetal"
    ensures x in GetElementsByCategory(all, name)
  {
    assert CategoryMapping["nonmetal"] == ["diatomic nonmetal", "polyatomic nonmetal"];
  }

  /** A mapped name is matched case-insensitively. */
  lemma MappedNameIgnoresCase(all: seq<Element>, name: string)
    requires Lower(name) in CategoryMapping
    ensures GetElementsByCategory(all, name) == GetElementsByCategory(all, Lower(name))
  {
    LowerIdempotent(name);
    FilterExt(all, InCategoryOf(name), InCategoryOf(Lower(name)));
  }

  /** An unmapped name is compared as typed against lower-cased categories, so
      one holding an upper-case letter matches nothing. */
  lemma UnmappedCapitalisedSelectsNothing(all: seq<Element>, name: string)
    requires Lower(name) !in CategoryMapping
    requires !HasNoUpper(name)
    ensures GetElementsByCategory(all, name) == []
  {
    var r := GetElementsByCategory(all, name);
    if |r| > 0 {
      var x := r[0];
      assert x in r;
      LowerIdempotent(x.category);
      assert false;
    }
  }

  /** The hazard property a (lower-cased) property name selects: the cases of
      the `switch` on the category page. The page repeats, character for
      character, the symbol lists of `getHazardData`, so each case reads its
      list from there. */
  function PropertyKind(name: string): (k: Option<Kind>)
    ensures k.Some? ==> TypeName(k.value) == name || name == "extremely toxic" || name == "reacts with water"
  {
    if name == "toxic" then Some(Toxic)
    else if name == "radioactive" then Some(Radioactive)
    else if name == "flammable" then Some(Flammable)
    else if name == "corrosive" then Some(Corrosive)
    else if name == "extreme-toxic" || name == "extremely toxic" then Some(ExtremeToxic)
    else if name == "carcinogenic" then Some(Carcinogenic)
    else if name == "water-reactive" || name == "reacts with water" then Some(WaterReactive)
    else if name == "asphyxiant" then Some(Asphyxiant)
    else if name == "pyrophoric" then Some(Pyrophoric)
    else if name == "oxidizer" then Some(Oxidizer)
    else if name == "special" then Some(Special)
    else None
  }

  /** Every hazard `type` string is a case of the property switch and selects
      its own list. */
  lemma TypeNameSelectsItsKind(k: Kind)
    ensures PropertyKind(TypeName(k)) == Some(k)
  {
  }

  function HasSymbolOf(k: Kind): (keep: Element -> bool)
    ensures forall e :: keep(e) <==> e.symbol in Symbols(k)
  {
    (e: Element) => e.symbol in Symbols(k)
  }

  /** The "property" branch: the elements whose symbol is on the list of the
      named property, matched case-insensitively; an unknown name selects none. */
  function FilterByProperty(all: seq<Element>, name: string): (r: seq<Element>)
    ensures SubseqOf(r, all)
    ensures PropertyKind(Lower(name)).None? ==> r == []
    ensures PropertyKind(Lower(name)).Some? ==>
      forall x :: x in r <==> x in all && x.symbol in Symbols(PropertyKind(Lower(name)).value)
  {
    match PropertyKind(Lower(name))
    case None => []
    case Some(k) =>
      var r := Filter(all, HasSymbolOf(k));
      FilterIsSubseq(all, HasSymbolOf(k));
      assert forall x :: x in all && x.symbol in Symbols(k) ==> x in r by {
        forall x | x in all && x.symbol in Symbols(k) ensures x in r {
          var i :| 0 <= i < |all| && all[i] == x;
        }
      }
      r
  }

  /** The two spellings of the extremely-toxic and water-reactive properties
      select the same elements. */
  lemma AliasesAgree(all: seq<Element>)
    ensures FilterByProperty(all, "extreme-toxic") == FilterByProperty(all, "extremely toxic")
    ensures FilterByProperty(all, "water-reactive") == FilterByProperty(all, "reacts with water")
  {
    AliasSpellings();
    SameKindSameFilter(all, "extreme-toxic", "extremely toxic");
    SameKindSameFilter(all, "water-reactive", "reacts with water");
  }

  lemma AliasSpellings()
    ensures PropertyKind(Lower("extreme-toxic")) == PropertyKind(Lower("extremely toxic")) == Some(ExtremeToxic)
    ensures PropertyKind(Lower("water-reactive")) == PropertyKind(Lower("reacts with water")) == Some(WaterReactive)
  {
    ExtremeToxicSpellings();
    WaterReactiveSpellings();
  }

  lemma ExtremeToxicSpellings()
    ensures PropertyKind(Lower("extreme-toxic")) == PropertyKind(Lower("extremely toxic")) == Some(ExtremeToxic)
  {
    assert Lower("extreme-toxic") == "extreme-toxic";
    assert Lower("extremely toxic") == "extremely toxic";
  }

  lemma WaterReactiveSpellings()
    ensures PropertyKind(Lower("water-reactive")) == PropertyKind(Lower("reacts with water")) == Some(WaterReactive)
  {
    assert Lower("water-reactive") == "water-reactive";
    assert Lower("reacts with water") == "reacts with water";
  }

  /** Names that select the same property select the same elements. */
  lemma SameKindSameFilter(all: seq<Element>, a: string, b: string)
    requires PropertyKind(Lower(a)) == PropertyKind(Lower(b))
    ensures FilterByProperty(all, a) == FilterByProperty(all, b)
  {
  }

  /** The property page for a hazard type lists exactly the elements whose
      hazard badges include that type. */
  lemma PropertyPageMatchesBadges(all: seq<Element>, k: Kind, x: Element)
    ensures x in FilterByProperty(all, TypeName(k)) <==> x in all && k in KindsOf(GetHazardData(Some(x)))
  {
    TypeNameSelectsItsKind(k);
    TypeNameIsLower(k);
  }

  lemma TypeNameIsLower(k: Kind)
    ensures Lower(TypeName(k)) == TypeName(k)
  {
  }

  datatype PageKind = ByCategory | ByProperty

  /** The list the category page shows: the category or property filter, then
      `sort((a, b) => a.number - b.number)`. */
  function PageElements(all: seq<Element>, kind: PageKind, name: string): (r: seq<Element>)
    ensures SortedByNumber(r)
    ensures forall x :: x in r ==> x in all
    ensures kind.ByCategory? ==> forall x :: x in r <==> x in GetElementsByCategory(all, name)
    ensures kind.ByProperty? ==> forall x :: x in r <==> x in FilterByProperty(all, name)
    ensures multiset(r) == multiset(if kind.ByCategory? then GetElementsByCategory(all, name) else FilterByProperty(all, name))
  {
    var filtered := if kind.ByCategory? then GetElementsByCategory(all, name) else FilterByProperty(all, name);
    SortPermutes(filtered);
    assert forall x :: x in SortByNumber(filtered) <==> x in multiset(filtered);
    SortByNumber(filtered)
  }

  /** A filter of a strictly increasing listing is strictly increasing. */
  lemma {:induction false} SubseqOfCatalog(a: seq<Element>, b: seq<Element>)
    requires SubseqOf(a, b)
    requires Catalog(b)
    ensures Catalog(a)
    decreases |b|
  {
    if |a| > 0 && |b| > 0 {
      if a[0] == b[0] {
        SubseqOfCatalog(a[1..], b[1..]);
        SubseqMembers(a[1..], b[1..]);
        forall j | 0 < j < |a| ensures a[0].number < a[j].number {
          assert a[1..][j - 1] in b[1..];
          var k :| 0 <= k < |b[1..]| && b[1..][k] == a[j];
          assert b[k + 1] == a[j];
        }
      } else {
        SubseqOfCatalog(a, b[1..]);
      }
    }
  }

  /** Over the dataset's own listing, which is already in atomic-number order,
      the category page shows exactly `getElementsByCategory`'s result. */
  lemma CategoryPageDelegates(all: seq<Element>, name: string)
    requires Catalog(all)
    ensures PageElements(all, ByCategory, name) == GetElementsByCategory(all, name)
  {
    var filtered := GetElementsByCategory(all, name);
    SubseqOfCatalog(filtered, all);
    var r := PageElements(all, ByCategory, name);
    SortPermutes(filtered);
    assert DistinctNumbers(filtered);
    assert DistinctNumbers(r);
    SortedDistinctIsStrict(r);
    StrictListsWithSameElementsAreEqual(r, filtered);
  }
  /** Over the dataset's own listing, which is already in atomic-number order,
      the property page shows exactly the property filter's result. */
  lemma PropertyPageDelegates(all: seq<Element>, name: string)
    requires Catalog(all)
    ensures PageElements(all, ByProperty, name) == FilterByProperty(all, name)
  {
    var filtered := FilterByProperty(all, name);
    SubseqOfCatalog(filtered, all);
    var r := PageElements(all, ByProperty, name);
    SortPermutes(filtered);
    assert DistinctNumbers(filtered);
    assert DistinctNumbers(r);
    SortedDistinctIsStrict(r);
    StrictListsWithSameElementsAreEqual(r, filtered);
  }

  /** `getCategoryClass`: the CSS class for a category, case-insensitively, or
      "unknown". */
  const CategoryClasses: map<string, string> := map[
    "alkali metal" := "alkali-metal",
    "alkaline earth metal" := "alkaline-earth",
    "transition metal" := "transition-metal",
    "post-transition metal" := "post-transition",
    "metalloid" := "metalloid",
    "diatomic nonmetal" := "nonmetal",
    "polyatomic nonmetal" := "nonmetal",
    "halogen" := "halogen",
    "noble gas" := "noble-gas",
    "lanthanide" := "lanthanide",
    "actinide" := "actinide"
  ]

  function GetCategoryClass(category: string): (c: string)
    ensures Lower(category) in CategoryClasses ==> c == CategoryClasses[Lower(category)]
    ensures Lower(category) !in CategoryClasses ==> c == "unknown"
  {
    var key := Lower(category);
    if key in CategoryClasses && CategoryClasses[key] != "" then CategoryClasses[key] else "unknown"
  }

  /** Both nonmetal kinds share one class; the class ignores case; anything
      else is "unknown". */
  lemma CategoryClassFacts(category: string)
    ensures Lower(category) == "diatomic nonmetal" || Lower(category) == "polyatomic nonmetal" ==>
      GetCategoryClass(category) == "nonmetal"
    ensures GetCategoryClass(category) == GetCategoryClass(Lower(category))
    ensures GetCategoryClass(category) == "unknown" <==> Lower(category) !in CategoryClasses
  {
    LowerIdempotent(category);
    assert "unknown" !in CategoryClasses.Values;
  }

  /** Atomic numbers of the halogens F, Cl, Br, I, At and Ts. */
  const HalogenNumbers: seq<int> := [9, 17, 35, 53, 85, 117]

  /** One pass of the `forEach` over `numbers`: a present entry whose category
      is not "halogen" gets that category. */
  function FixEach(data: map<int, Element>, numbers: seq<int>): (r: map<int, Element>)
    ensures r.Keys == data.Keys
    ensures forall n :: n in data && n in numbers ==> r[n] == data[n].(category := "halogen")
    ensures forall n :: n in data && n !in numbers ==> r[n] == data[n]
    decreases |numbers|
  {
    if |numbers| == 0 then data
    else
      var n := numbers[0];
      var next := if n in data && data[n].category != "halogen" then data[n := data[n].(category := "halogen")] else data;
      assert forall m :: m in numbers ==> m == n || m in numbers[1..];
      FixEach(next, numbers[1..])
  }

  /** `fixHalogenElements()`: nothing to do while no data is loaded. */
  function FixHalogens(data: Option<map<int, Element>>): (r: Option<map<int, Element>>)
    ensures data.None? <==> r.None?
    ensures data.Some? ==> r.value.Keys == data.value.Keys
    ensures data.Some? ==> forall n :: n in data.value && n in HalogenNumbers ==>
      r.value[n] == data.value[n].(category := "halogen")
    ensures data.Some? ==> forall n :: n in data.value && n !in HalogenNumbers ==> r.value[n] == data.value[n]
  {
    match data
    case None => None
    case Some(m) => Some(FixEach(m, HalogenNumbers))
  }

  /** Applying the patch twice is the same as applying it once. */
  lemma FixHalogensIdempotent(data: Option<map<int, Element>>)
    ensures FixHalogens(FixHalogens(data)) == FixHalogens(data)
  {
    if data.Some? {
      FixEachIdempotent(data.value, HalogenNumbers);
    }
  }

  /** A second pass over the same numbers changes nothing. */
  lemma FixEachIdempotent(data: map<int, Element>, numbers: seq<int>)
    ensures FixEach(FixEach(data, numbers), numbers) == FixEach(data, numbers)
  {
    var once := FixEach(data, numbers);
    var twice := FixEach(once, numbers);
    forall n | n in once ensures twice[n] == once[n] {
      if n in numbers {
        assert once[n] == data[n].(category := "halogen");
      }
    }
    assert twice == once;
  }
}
