/** The page controller: which of the three views is showing, the element
    and the category page that were chosen, whether the element's info
    panel is slid open, and the breadcrumb trail drawn from that state.
    Timers that re-show the table or build the atom after a delay, and the
    renderer calls, are effects on the 3D scene and are not part of this
    state. */
module ViewController {
  import opened Collections
  import opened Text
  import opened Elements
  import opened Categories

  // ---------------------------------------------------------------------
  // State

  datatype View = TableView | AtomView | CategoryView

  /** A category page: a category or a hazard property, and its name. */
  datatype Selection = Selection(kind: PageKind, name: string)

  /** The page's state: `view`, `selectedElement`, `selectedCategory`,
      `infoPanelOpen` and `isMobile`. */
  datatype Page = Page(
    view: View,
    element: Option<Element>,
    category: Option<Selection>,
    panelOpen: bool,
    mobile: bool)

  const Initial: Page := Page(TableView, None, None, true, false)

  /** The width below which a screen counts as small. */
  const MobileWidth: int := 768

  datatype Event =
    | ElementSelected(e: Element)           // the scene's element-selected event
    | Back                                  // back button or the home crumb
    | HomeClick                             // the header's home link
    | CategoryClick(kind: PageKind, name: string)  // legend, search, badges, crumbs
    | ElementClick(e: Element)              // a tile on a category page
    | Resize(width: int)                    // a window resize, also run once on mount
    | Toggle                                // the info panel's slide button

  // ---------------------------------------------------------------------
  // Transitions

  function Step(p: Page, ev: Event): (q: Page)
    ensures ev.ElementSelected? ==>
      q.view == AtomView && q.element == Some(ev.e) && q.category == p.category
    ensures ev.Back? || ev.HomeClick? ==>
      q.view == TableView && q.element.None? && q.category.None?
    ensures ev.CategoryClick? ==>
      q.view == CategoryView && q.category == Some(Selection(ev.kind, ev.name)) && q.element.None?
    ensures ev.ElementClick? ==>
      q.view == AtomView && q.element == Some(ev.e) && q.category == p.category
    ensures ev.Resize? ==>
      q == p.(panelOpen := ev.width >= MobileWidth, mobile := ev.width < MobileWidth)
    ensures ev.Toggle? ==> q == p.(panelOpen := !p.panelOpen)
    ensures !ev.Resize? && !ev.Toggle? ==> q.panelOpen == p.panelOpen && q.mobile == p.mobile
  {
    match ev
    case ElementSelected(e) => p.(view := AtomView, element := Some(e))
    case Back => p.(view := TableView, element := None, category := None)
    case HomeClick => p.(view := TableView, element := None, category := None)
    case CategoryClick(kind, name) =>
      p.(view := CategoryView, category := Some(Selection(kind, name)), element := None)
    case ElementClick(e) => p.(view := AtomView, element := Some(e))
    case Resize(width) => p.(panelOpen := width >= MobileWidth, mobile := width < MobileWidth)
    case Toggle => p.(panelOpen := !p.panelOpen)
  }

  function Run(p: Page, evs: seq<Event>): Page
    decreases |evs|
  {
    if |evs| == 0 then p else Run(Step(p, evs[0]), evs[1..])
  }

  /** What every state reachable from the initial one satisfies: the atom
      view always has an element, the category view always has a category
      and no element, and the table view has neither. */
  predicate Consistent(p: Page) {
    && (p.view == TableView ==> p.element.None? && p.category.None?)
    && (p.view == AtomView ==> p.element.Some?)
    && (p.view == CategoryView ==> p.category.Some? && p.element.None?)
  }

  lemma StepKeepsConsistent(p: Page, ev: Event)
    requires Consistent(p)
    ensures Consistent(Step(p, ev))
  {
  }

  lemma {:induction false} RunKeepsConsistent(p: Page, evs: seq<Event>)
    requires Consistent(p)
    ensures Consistent(Run(p, evs))
    decreases |evs|
  {
    if |evs| > 0 {
      StepKeepsConsistent(p, evs[0]);
      RunKeepsConsistent(Step(p, evs[0]), evs[1..]);
    }
  }

  /** Every reachable page is consistent. */
  lemma ReachableIsConsistent(evs: seq<Event>)
    ensures Consistent(Run(Initial, evs))
  {
    RunKeepsConsistent(Initial, evs);
  }

  /** The header's home link and the back button lead to the same state. */
  lemma HomeIsBack(p: Page)
    ensures Step(p, HomeClick) == Step(p, Back)
  {
  }

  /** Going back forgets the whole history except the panel and screen
      flags: two pages that agree on those come back to the same state. */
  lemma BackForgets(p: Page, p': Page)
    requires p.panelOpen == p'.panelOpen && p.mobile == p'.mobile
    ensures Step(p, Back) == Step(p', Back)
    ensures Step(p, Back) == Initial.(panelOpen := p.panelOpen, mobile := p.mobile)
  {
  }

  /** The panel toggle is its own inverse. */
  lemma ToggleTwice(p: Page)
    ensures Step(Step(p, Toggle), Toggle) == p
  {
  }

  /** After any resize the panel is open exactly on a wide screen, which is
      exactly when the page does not count as mobile. */
  lemma ResizeOpensPanelOnWideScreens(p: Page, width: int)
    ensures Step(p, Resize(width)).panelOpen <==> !Step(p, Resize(width)).mobile
    ensures Step(p, Resize(width)).panelOpen <==> width >= MobileWidth
  {
  }

  // ---------------------------------------------------------------------
  // Rendering

  /** `getViewClass`. */
  function ViewClass(v: View): (c: string)
    ensures |c| > 0
  {
    match v
    case CategoryView => "category-view"
    case AtomView => "atom-view"
    case TableView => "table-view"
  }

  /** Three views, three distinct class names. */
  lemma ViewClassInjective(v: View, w: View)
    ensures ViewClass(v) == ViewClass(w) <==> v == w
  {
    if v != w {
      assert ViewClass(v)[0] != ViewClass(w)[0];
    }
  }

  /** What the page shows: the canvas (hidden on a category page), the
      mobile search bar, the legend and user guide, the category page and
      the info panel with its open flag. */
  datatype Screen = Screen(
    viewClass: string,
    scrolls: bool,
    canvasHidden: bool,
    mobileSearch: bool,
    legend: bool,
    categoryPage: Option<Selection>,
    infoPanel: Option<(Element, bool)>)

  function Render(p: Page): (s: Screen)
    ensures s.viewClass == ViewClass(p.view)
    ensures s.scrolls <==> s.canvasHidden
    ensures s.mobileSearch ==> s.legend
    ensures s.canvasHidden <==> p.view == CategoryView
    ensures s.mobileSearch <==> p.view == TableView && p.mobile
    ensures s.categoryPage.Some? ==> p.category == s.categoryPage
    ensures s.infoPanel.Some? ==> p.element == Some(s.infoPanel.value.0) && s.infoPanel.value.1 == p.panelOpen
  {
    Screen(
      ViewClass(p.view),
      p.view == CategoryView,
      p.view == CategoryView,
      p.view == TableView && p.mobile,
      p.view == TableView,
      if p.view == CategoryView && p.category.Some? then p.category else None,
      if p.view == AtomView && p.element.Some? then Some((p.element.value, p.panelOpen)) else None)
  }

  /** On a consistent page exactly one main part is shown, and the view
      decides which: the table's legend, the category page, or the info
      panel. */
  lemma OneMainPart(p: Page)
    requires Consistent(p)
    ensures Render(p).legend <==> p.view == TableView
    ensures Render(p).categoryPage.Some? <==> p.view == CategoryView
    ensures Render(p).infoPanel.Some? <==> p.view == AtomView
  {
  }

  /** Choosing an element from anywhere shows its info panel. */
  lemma ElementClickShowsPanel(p: Page, e: Element)
    ensures Render(Step(p, ElementClick(e))).infoPanel == Some((e, p.panelOpen))
    ensures Render(Step(p, ElementSelected(e))).infoPanel == Some((e, p.panelOpen))
  {
  }

  // ---------------------------------------------------------------------
  // Breadcrumb

  /** What clicking a crumb does. */
  datatype CrumbAction = GoBack | OpenCategory(name: string) | Inert

  datatype Crumb = Crumb(text: string, current: bool, action: CrumbAction)

  const HomeText: string := "Periodic Table"

  /** The trail for a view, element and category: the home crumb, then the
      formatted category on a category page, or the element's formatted
      category and its name in the atom view. */
  function Crumbs(view: View, element: Option<Element>, category: Option<Selection>): (cs: seq<Crumb>)
    ensures 1 <= |cs| <= 3
    ensures cs[0] == Crumb(HomeText, view == TableView, GoBack)
    ensures |cs| == 2 <==> view == CategoryView && category.Some?
    ensures |cs| == 3 <==> view == AtomView && element.Some?
    ensures forall i :: 1 <= i < |cs| ==> (cs[i].current <==> i == |cs| - 1)
    ensures view == CategoryView && category.Some? ==> cs[1] == Crumb(FormatWords(category.value.name), true, Inert)
    ensures view == AtomView && element.Some? ==>
      cs[1] == Crumb(FormatWords(element.value.category), false, OpenCategory(element.value.category)) &&
      cs[2] == Crumb(element.value.name, true, Inert)
  {
    var home := Crumb(HomeText, view == TableView, GoBack);
    if view == CategoryView && category.Some? then
      [home, Crumb(FormatWords(category.value.name), true, Inert)]
    else if view == AtomView && element.Some? then
      var e := element.value;
      [home, Crumb(FormatWords(e.category), false, OpenCategory(e.category)), Crumb(e.name, true, Inert)]
    else [home]
  }

  function PageCrumbs(p: Page): seq<Crumb> {
    Crumbs(p.view, p.element, p.category)
  }

  /** On a consistent page exactly one crumb is marked current, the last. */
  lemma LastCrumbIsCurrent(p: Page)
    requires Consistent(p)
    ensures forall i :: 0 <= i < |PageCrumbs(p)| ==> (PageCrumbs(p)[i].current <==> i == |PageCrumbs(p)| - 1)
  {
  }

  /** The effect of a crumb's click on the page. */
  function Click(p: Page, c: Crumb): Page {
    match c.action
    case GoBack => Step(p, Back)
    case OpenCategory(name) => Step(p, CategoryClick(ByCategory, name))
    case Inert => p
  }

  /** In the atom view the middle crumb opens the element's category page,
      whose trail then ends in the very text that was clicked. */
  lemma CategoryCrumbRoundTrip(p: Page, e: Element)
    requires p.view == AtomView && p.element == Some(e)
    ensures Click(p, PageCrumbs(p)[1]).view == CategoryView
    ensures PageCrumbs(Click(p, PageCrumbs(p)[1])) ==
      [Crumb(HomeText, false, GoBack), Crumb(PageCrumbs(p)[1].text, true, Inert)]
  {
  }

  /** The home crumb always brings back the bare table trail. */
  lemma HomeCrumbResets(p: Page)
    ensures PageCrumbs(Click(p, PageCrumbs(p)[0])) == [Crumb(HomeText, true, GoBack)]
  {
  }

  /** On a category page the last crumb is the category's name with each
      word capitalised: it has as many words as the name, and capitalising
      it again changes nothing. */
  lemma CategoryCrumbKeepsWords(p: Page)
    requires p.view == CategoryView && p.category.Some?
    ensures |PageCrumbs(p)| == 2
    ensures |Split(PageCrumbs(p)[1].text, ' ')| == |Split(p.category.value.name, ' ')|
    ensures FormatWords(PageCrumbs(p)[1].text) == PageCrumbs(p)[1].text
  {
    FormatWordsKeepsSpaces(p.category.value.name);
    FormatWordsIdempotent(p.category.value.name);
  }

}
