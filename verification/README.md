# Periodic table explorer: a Dafny model of its logic

The program is a browser periodic table. It shows a 3D table of element tiles
and a Bohr-style atom for a chosen element. Around these it has a search box,
category and hazard pages, an element info panel with an image lightbox, and a
breadcrumb trail. This project models the logic behind those views as pure
functions over immutable data, and proves properties of that logic in Dafny.

Modules, in dependency order:

- `Collections` (collections.dfy): `Option`, an order-preserving `Filter`, and subsequences.
- `Text` (text.dfy): the string helpers the program leans on.
  - `toLowerCase` and `toUpperCase` on ASCII letters.
  - `includes`, `split`/`join`, `trim().split(/\s+/)`, and `number.toString()`.
  - The word capitaliser used for category names.
- `Elements` (elements.dfy): the element record.
  - Sorting by atomic number, as an insertion sort.
  - De-duplication by number, and lookup by symbol.
- `ElectronConfig` (electron_config.dfy): how many electrons sit in each shell.
  - The fill by atomic number.
  - The configuration-string parser with its noble-gas expansion.
  - The choice between the two.
- `AtomicModel` (atomic_model.dfy): how a shell map becomes the atom view.
  - Rings and electrons, the neutron count, and the label lines.
  - The two scene-group visibility flags.
- `TableLayout` (table_layout.dfy): how tiles are built and indexed.
  - The 10 by 18 layout and tile placement.
  - The tile index by number, the category colours, and the per-symbol applications.
- `Interaction` (interaction.dfy): pointer handling and animation.
  - The single-slot hover highlight, tap versus swipe, and click and tap selection.
  - The tooltip, the electron angle over time, and the initialisation guard.
- `Hazards` (hazards.dfy): `getHazardData`, the hazard badges of an element.
- `Categories` (categories.dfy): the category and property pages.
  - The category mapping and the property filter of the category page.
  - `getCategoryClass` and the halogen category patch.
- `Search` (search.dfy): what a change of the search query computes.
- `ViewController` (view_controller.dfy): the page's view state, what each view renders, and the breadcrumb trail.
- `Lightbox` (lightbox.dfy): zooming and dragging the element image.

Representation choices:

- **Dataset.** `Object.values(elementsData)` lists entries in ascending integer-key order. So the dataset is a sequence strictly ascending by atomic number (`Elements.Catalog`).
- **Shell maps.** A shell map is a `map<nat, nat>` from shell number to electron count.
- **Numbers.** Coordinates, scales and speeds are `real`. An electron's initial angle is stored as a fraction of a turn; radians appear only through the constant `Interaction.TwoPi`.
- **Events.** The three state machines (hover, page, lightbox) are transition functions over small state records. Each one has a `Run` over a sequence of events.

Notes on the code:

- **Unknown noble-gas symbol.** An unrecognised bracketed symbol expands to the empty string, and the rest of the string is still parsed (lib/atomic-model.ts:376-397). See `ElectronConfig.UnknownBracketParsesRest`.
- **Atomic number 0.** The parse path reads atomic number 0 as 1 (lib/atomic-model.ts:363-427). Only the fill used when no configuration string exists gives an empty map for 0.
- **Building the table twice.** `createPeriodicTable` never empties the table group, so a second call appends a second copy of every tile. Only the index by number is overwritten (`TableLayout.CreateTwiceDuplicatesTiles`).

## Model

| member | source | states |
|---|---|---|
| Text.Lower | components/search-bar.tsx:221 | the lowercased text has the same length and no ASCII capital left; an already lowercase text comes back unchanged, and only capital letters are changed |
| Text.LowerIdempotent | lib/category-mapping.ts:18-20 | lowercasing an already lowercased name changes nothing, and the result has no capital letter left |
| Text.ContainsIff | components/search-bar.tsx:229 | `includes` holds exactly when the needle occurs at some position of the text |
| Text.Utf16Length | components/search-bar.tsx:289 | `.length` counts UTF-16 code units: at least the number of characters and at most twice it, and equal to it exactly when no character lies outside the Basic Multilingual Plane |
| Text.Utf16LengthAppend | components/search-bar.tsx:289 | the code-unit length of a concatenation is the sum of the parts' lengths |
| Text.TokensSplitAtSpace | lib/atomic-model.ts:401 | splitting on whitespace: a whitespace character separates the tokens before it from those after it |
| Text.NatToStringRoundTrip | components/search-bar.tsx:266 | the decimal text of an atomic number reads back as the same number |
| Text.SplitJoinRoundTrip | components/breadcrumb.tsx:15-20 | joining the space-separated words again gives back the original text |
| Text.FormatWordsPointwise | components/breadcrumb.tsx:15-20 | capitalising words keeps the length; a character is uppercased exactly when it starts a word, and every other character is unchanged |
| Text.FormatWordsKeepsSpaces | components/search-bar.tsx:551-556 | capitalising words keeps every space where it was and keeps the number of words |
| Text.FormatWordsIdempotent | components/category-page.tsx:181-186 | capitalising the words of an already capitalised name changes nothing |
| Collections.Filter | lib/category-mapping.ts:20 | `filter` keeps exactly the entries the predicate accepts and adds nothing |
| Collections.FilterIsSubseq | lib/category-mapping.ts:20 | `filter` keeps the kept entries in their original order |
| Elements.SortByNumber | components/category-page.tsx:158 | the sort by atomic number yields an ascending list of the same length that introduces no new number and keeps distinct numbers distinct |
| Elements.SortPermutes | components/category-page.tsx:158 | the sort is a permutation of its input |
| Elements.DedupeByNumber | components/search-bar.tsx:271-273 | de-duplication keeps one entry per atomic number, takes entries only from the input, loses no number, and each kept entry is the one `find` returns for its number, the first in the input |
| Elements.FindByNumber | components/search-bar.tsx:272 | `find` by number returns an entry with that number that no earlier entry shares, and nothing exactly when no entry has that number |
| Elements.StrictListsWithSameElementsAreEqual | components/search-bar.tsx:276 | two strictly ascending lists with the same members are the same list, so the sorted result depends only on what it contains |
| Elements.FindBySymbol | components/search-bar.tsx:236 | `find` by symbol returns the first listed element with that symbol, and nothing exactly when no listed element has it |
| ElectronConfig.ShellsByNumber | lib/atomic-model.ts:434-456 | the fill uses only shells 1 to 7, and it is empty exactly when the atomic number is not positive |
| ElectronConfig.ByNumberAt | lib/atomic-model.ts:439-453 | shell k is filled exactly when the capacities below k hold fewer than n electrons; it then holds the smaller of its capacity and what is left |
| ElectronConfig.ByNumberNoGaps | lib/atomic-model.ts:442-453 | the filled shells are contiguous from shell 1 |
| ElectronConfig.ByNumberBounded | lib/atomic-model.ts:439-449 | every filled shell holds at least one electron and at most its capacity from [2, 8, 18, 32, 32, 18, 8] |
| ElectronConfig.ByNumberInnerFull | lib/atomic-model.ts:442-452 | every filled shell except the outermost is full |
| ElectronConfig.ByNumberTotal | lib/atomic-model.ts:434-456 | the filled shells hold min(n, 118) electrons in total, and none for n <= 0 |
| ElectronConfig.ByNumberPrefixSum | lib/atomic-model.ts:442-453 | the shells below k together hold min(n, capacity below k) electrons |
| ElectronConfig.SodiumByNumber | lib/atomic-model.ts:434-456 | atomic number 11 fills to {1: 2, 2: 8, 3: 1} |
| ElectronConfig.FillFromHas | lib/atomic-model.ts:442-453 | the loop from a given shell fills exactly the shells whose earlier capacities leave some electrons over |
| ElectronConfig.BracketMatch | lib/atomic-model.ts:369 | `/\[(.*?)\]/` finds the leftmost '[' whose first following ']' is reached without a line terminator, and finds nothing exactly when no such pair exists |
| ElectronConfig.NoBracketNoExpansion | lib/atomic-model.ts:368-371 | a configuration without '[' is used unchanged |
| ElectronConfig.ExpandLeading | lib/atomic-model.ts:371-397 | a leading "[X]" is replaced by X's spelled-out configuration, a space, and the rest of the string with at most one whitespace character after ']' dropped |
| ElectronConfig.NobleGasCoreParts | lib/atomic-model.ts:376-394 | each expansion contains no '[' and splits into exactly its list of terms |
| ElectronConfig.NobleGasTermsAreOrbital | lib/atomic-model.ts:376-394 | every term of every expansion is a well-formed orbital term |
| ElectronConfig.TermShellIsLeadingDigit | lib/atomic-model.ts:340-360 | the orbital table and the fallback both send a term to the shell named by its leading digit |
| ElectronConfig.AddTerm | lib/atomic-model.ts:406-418 | a term of the form digit, orbital letter, count adds its count to the shell of its leading digit; any other token leaves the map unchanged |
| ElectronConfig.TallyIsShellSum | lib/atomic-model.ts:404-419 | after all parts, a shell is present exactly when some term names it, and its value is the sum of the counts of the terms naming it |
| ElectronConfig.TallyOrderIndependent | lib/atomic-model.ts:404-419 | reordering the terms does not change the shell map |
| ElectronConfig.ParseShape | lib/atomic-model.ts:335-431 | parsing yields digit-keyed shells, and an empty map only for a negative atomic number |
| ElectronConfig.ParseFallsBackToFill | lib/atomic-model.ts:362-364 | a missing or empty string, or one in which no token is an orbital term, yields the fill for `atomicNumber \|\| 1` |
| ElectronConfig.EmptyConfigParts | lib/atomic-model.ts:401 | an empty string splits into the single empty part |
| ElectronConfig.ParseUsesTally | lib/atomic-model.ts:404-430 | when some part is an orbital term, the result is the tally of the parts and no fill is used |
| ElectronConfig.NobleGasRoundTrip | lib/atomic-model.ts:369-398 | for X among He, Ne, Ar, Kr, Xe and Rn, "[X]" followed by a rest with no further '[' parses like X's spelled-out configuration, a space, and the same rest |
| ElectronConfig.UnknownBracketParsesRest | lib/atomic-model.ts:376-397 | an unknown bracketed symbol contributes nothing, and the rest of the string is parsed as if the bracket were absent |
| ElectronConfig.CopperConfiguration | lib/atomic-model.ts:369-419 | "[Ar] 3d10 4s1" parses to {1: 2, 2: 8, 3: 18, 4: 1} |
| ElectronConfig.CopperTally | lib/atomic-model.ts:404-419 | the spelled-out copper terms tally to {1: 2, 2: 8, 3: 18, 4: 1} |
| ElectronConfig.Resolve | lib/atomic-model.ts:321-332 | the shell map is digit-keyed and empty only for a non-positive atomic number; without any configuration string it is empty exactly for a non-positive number |
| ElectronConfig.SemanticPreferred | lib/atomic-model.ts:323-327 | a non-empty semantic configuration is parsed, and the raw configuration is then ignored |
| ElectronConfig.NoConfigurationUsesFill | lib/atomic-model.ts:330-331 | with neither configuration string the fill of `element.number` is used, without the 0-to-1 substitution |
| AtomicModel.KeysBelow | lib/atomic-model.ts:78 | the shell keys, listed in strictly ascending order and complete |
| AtomicModel.SortedKeysComplete | lib/atomic-model.ts:78 | the sorted shell keys are strictly ascending and are exactly the keys of the map |
| AtomicModel.SpeedDecreases | lib/atomic-model.ts:131 | the rotation speed 0.5 / (0.8 + 0.2 * shell) is positive and strictly lower on an outer shell |
| AtomicModel.ElectronsEvenlySpread | lib/atomic-model.ts:113-135 | electron i of c starts at i/c of a turn, so consecutive electrons are 1/c apart; all share the ring's radius, shell and speed |
| AtomicModel.Rings | lib/atomic-model.ts:80-139 | one ring per non-empty shell, in key order; the j-th ring has radius start + 3j and as many electrons as its shell holds |
| AtomicModel.RingLayout | lib/atomic-model.ts:73-138 | the j-th non-empty shell gets radius 5 + 3j, so skipped empty shells leave no gap; rings ascend by shell and cover every non-empty shell |
| AtomicModel.Neutrons | lib/atomic-model.ts:149-151 | the neutron count is the rounded mass (or the proton count when the mass is missing or zero) minus the protons |
| AtomicModel.NoMassNoNeutrons | lib/atomic-model.ts:150 | without a usable mass no neutrons are shown |
| AtomicModel.ShellEntries | lib/atomic-model.ts:154-168 | one label entry per shell of the map, empty shells included |
| AtomicModel.ChunksFlatten | lib/atomic-model.ts:179-182 | cutting the entries into lines loses and reorders nothing |
| AtomicModel.ShellLinesShape | lib/atomic-model.ts:171-182 | label lines hold one or two entries; two or fewer entries share one line; otherwise there are ceil(count / 2) lines |
| AtomicModel.LineLabels | lib/atomic-model.ts:185-192 | one label per shell line, its entries joined with a bar, line i at y = -15 - 3i, so each sits 3 below the one before it and all lie below the composition line at -10 |
| AtomicModel.AtomLayout | lib/atomic-model.ts:59-192 | the atom group holds the nucleus, then an orbit and an electron group per non-empty shell at radius 5 + 3j, then the name label, then the composition line at y = -10 followed by one label per shell line |
| AtomicModel.CreateAtomicModel | lib/atomic-model.ts:20-47 | without the scene nothing changes; otherwise the table is hidden, the atom shown, the camera moved to 40, and the atom group holds exactly the layout of this element's atom |
| AtomicModel.ShowPeriodicTable | lib/atomic-model.ts:209-226 | without the groups nothing changes; otherwise the table is shown, the atom hidden, and the camera moved back to 20 |
| AtomicModel.ViewsStayComplementary | lib/atomic-model.ts:29-30 | building an atom and showing the table each keep exactly one of the two groups visible |
| AtomicModel.CreateReplacesPreviousAtom | lib/atomic-model.ts:33-44 | the atom group is emptied first, so only the last built atom remains |
| AtomicModel.TableThenAtomRoundTrip | lib/atomic-model.ts:221-226 | showing the table and rebuilding the same atom restores the scene; showing the table twice is the same as once |
| TableLayout.LayoutShape | lib/periodic-table.ts:408-419 | the layout has 10 rows of 18 cells |
| TableLayout.RowForms | lib/periodic-table.ts:408-419 | the content of each of the ten rows, cell by cell, including the '*' and '**' markers and the blank spacer row |
| TableLayout.Home | lib/periodic-table.ts:408-419 | a number has a cell in the grid exactly when it is between 1 and 118 |
| TableLayout.HomeHoldsNumber | lib/periodic-table.ts:408-419 | every atomic number from 1 to 118 appears in the layout |
| TableLayout.CellIsHome | lib/periodic-table.ts:408-419 | every numbered cell holds a number from 1 to 118, at that number's home |
| TableLayout.EachNumberOnce | lib/periodic-table.ts:408-419 | no atomic number appears in two cells |
| TableLayout.CellTile | lib/periodic-table.ts:424-432 | a cell yields a tile exactly when it holds a number whose element is loaded; blanks and markers yield none |
| TableLayout.GridTiles | lib/periodic-table.ts:422-435 | the scan places tiles in row-major order, and every numbered cell with a loaded element gets a tile |
| TableLayout.PlacesOnceIn | lib/periodic-table.ts:402-405 | each loaded element of 1 to 118 gets exactly one tile, at x = -8.5 + col, y = 5 - row of its home cell, carrying that element |
| TableLayout.EveryLoadedElementPlaced | lib/periodic-table.ts:426-431 | every loaded element numbered 1 to 118 gets a tile |
| TableLayout.NoTileWithoutElement | lib/periodic-table.ts:427-431 | every tile carries the loaded element for its number; missing elements are skipped |
| TableLayout.Index | lib/periodic-table.ts:465 | the tile index has an entry exactly for the numbers of the tiles |
| TableLayout.IndexFindsTile | lib/periodic-table.ts:465 | looking up a loaded number in the index finds that number's tile at its home cell |
| TableLayout.CreatePeriodicTable | lib/periodic-table.ts:386-400 | without the table group nothing changes; otherwise one tile per placement is appended after the tiles already there, the index by number gains those tiles, and every loaded element 1-118 is found in the index at its home cell |
| TableLayout.CreateTwiceDuplicatesTiles | lib/periodic-table.ts:465-468 | a second build appends a second copy of every tile while the index by number stays the same |
| TableLayout.CategoryColorLookup | lib/periodic-table.ts:515-530 | the tile colour is looked up by the lowercased category, and the fallback 0xe6ee9c is used exactly for unlisted categories, inherited object properties such as "constructor" aside |
| TableLayout.CategoryColorsDistinct | lib/periodic-table.ts:516-527 | the ten listed categories have ten different colours |
| TableLayout.ApplicationsLookup | lib/periodic-table.ts:538-559 | listed symbols have three applications, and the default pair is returned exactly for unlisted symbols, inherited object properties such as "constructor" aside |
| TableLayout.LoadElementData | lib/periodic-table.ts:324-346 | the loaded map is keyed by atomic number, has an entry for every record with a non-zero number and no other, and each entry is a record with its applications attached |
| Interaction.FirstTile | lib/periodic-table.ts:224-230 | the ancestor walk returns an element shown by an object on the path, with that object's id, and finds none exactly when no object on the path shows one |
| Interaction.HitNewTile | lib/periodic-table.ts:231-243 | hitting a different tile restores the previous tile's saved colour at scale 1, saves the new tile's colour, highlights it with 0x555555 at scale 1.3, and leaves every other tile alone |
| Interaction.HitWithoutChange | lib/periodic-table.ts:219-231 | hitting the tile already hovered, or an object that shows no element, changes nothing |
| Interaction.MissClears | lib/periodic-table.ts:245-250 | a miss restores the hovered tile and clears the hover; no other tile changes |
| Interaction.HighlightStaysSingle | lib/periodic-table.ts:231-250 | at most one tile is ever at the highlight scale |
| Interaction.HoverThenMissRestores | lib/periodic-table.ts:231-250 | hovering a tile and then moving off it gives the tile back its original look |
| Interaction.ClickAfterMove | lib/periodic-table.ts:144-154 | a click after a mouse move selects the element of the tile under the pointer when the table is visible, selects nothing when the ray hits nothing or the table is hidden, and keeps the previous hover when the hit is not a tile |
| Interaction.TapInPlaceSelects | lib/periodic-table.ts:161-198 | a single-finger touch that starts and ends on the same point over a tile selects that tile's element and leaves it hovered; a touch with more or fewer fingers keeps the recorded start |
| Interaction.TapActsAsClick | lib/periodic-table.ts:174-201 | a single-finger tap within the 10-pixel threshold hovers and selects exactly what a mouse move followed by a click would |
| Interaction.UpdateHoverIdempotent | lib/periodic-table.ts:204-251 | updating the hover twice with the same ray gives the same hover as updating it once |
| Interaction.SwipeNeverSelects | lib/periodic-table.ts:182-186 | a touch that moved 10 pixels or more on either axis selects nothing |
| Interaction.TapOnTileSelects | lib/periodic-table.ts:186-198 | a tap that ends on a tile of the visible table selects that tile's element |
| Interaction.MouseMove | lib/periodic-table.ts:253-283 | moving the mouse updates the hover, and the tooltip is shown exactly when the table is visible and a tile is hovered |
| Interaction.Frame | lib/periodic-table.ts:292-310 | electron angles are computed only while the atom is visible, one per electron |
| Interaction.AngleIsLinearInTime | lib/periodic-table.ts:298-308 | the angle at time 0 is the initial angle and grows linearly with the clock at the electron's speed, independent of earlier frames |
| Interaction.InnerElectronsTurnFaster | lib/periodic-table.ts:299-304 | over the same time an inner electron turns through a larger angle than an outer one |
| Interaction.InitPeriodicTable | lib/periodic-table.ts:24-79 | the scene starts exactly when Three.js, the container and the orbit controls exist and no scene was stored before; otherwise nothing changes |
| Interaction.InitIsIdempotent | lib/periodic-table.ts:37-40 | once initialised, a later call keeps the existing scene |
| Hazards.SpecialNote | lib/element-hazards.ts:117-151 | exactly the eleven listed symbols get a special note |
| Hazards.GetHazardData | lib/element-hazards.ts:3-154 | no element gives no badge; a kind is listed exactly when the symbol is on its list; badges follow the fixed order, with fixed captions and the symbol's special note |
| Hazards.EachKindAtMostOnce | lib/element-hazards.ts:10-151 | no hazard kind appears twice, so there is at most one special entry |
| Hazards.OnlySymbolMatters | lib/element-hazards.ts:7 | two elements with the same symbol get the same badges |
| Hazards.GoldHasNoHazards | lib/element-hazards.ts:7-151 | a symbol on no list ("Au") gets no badge |
| Hazards.ExtremeToxicIsToxic | lib/element-hazards.ts:41-79 | every element flagged extremely toxic is also flagged toxic |
| Hazards.FluorineHazards | lib/element-hazards.ts:41-129 | fluorine is toxic, extremely toxic, corrosive and an oxidizer, in that order, followed by its special note "Most reactive non-metal" |
| Hazards.TypeNamesDistinct | lib/element-hazards.ts:37-149 | different hazard kinds carry different type names |
| Categories.Variants | lib/category-mapping.ts:3-18 | a name found in the mapping after lowercasing expands to a non-empty list of lowercase variants that includes the lowercased name itself, except "nonmetal"; an unmapped name (inherited object properties such as "constructor" aside) stands for itself, not lowercased |
| Categories.MappingIsLower | lib/category-mapping.ts:3-14 | every key of the category mapping and every variant it lists is written in lowercase, so the lowercased data category can match it |
| Categories.GetElementsByCategory | lib/category-mapping.ts:17-21 | the result is an order-preserving subsequence keeping exactly the elements with a non-empty category whose lowercase form is a variant of the name |
| Categories.NonmetalSelectsBothKinds | lib/category-mapping.ts:4 | "nonmetal" selects both diatomic and polyatomic nonmetals |
| Categories.MappedNameIgnoresCase | lib/category-mapping.ts:18 | a mapped name selects the same elements in any letter case |
| Categories.UnmappedCapitalisedSelectsNothing | lib/category-mapping.ts:18-20 | an unmapped name containing a capital letter selects nothing |
| Categories.PropertyKind | components/category-page.tsx:43-153 | a property name selects a hazard kind only through its type name or one of the two alias spellings |
| Categories.TypeNameSelectsItsKind | components/category-page.tsx:44-151 | each hazard type name selects its own kind |
| Categories.FilterByProperty | components/category-page.tsx:41-154 | a known property, matched case-insensitively, keeps exactly the elements whose symbol is on its list, in order; an unknown name keeps nothing |
| Categories.AliasesAgree | components/category-page.tsx:117-133 | "extreme-toxic" and "extremely toxic" select the same elements, as do "water-reactive" and "reacts with water" |
| Categories.SameKindSameFilter | components/category-page.tsx:43 | two names that select the same kind give the same page |
| Categories.PropertyPageMatchesBadges | components/category-page.tsx:44-151 | the page for a hazard type lists exactly the elements whose badges include that type |
| Categories.PageElements | components/category-page.tsx:37-158 | the page is sorted by atomic number and is a permutation of what the category filter or the property filter selects |
| Categories.CategoryPageDelegates | components/category-page.tsx:37-40 | on a sorted dataset the category page is exactly the category filter's result |
| Categories.PropertyPageDelegates | components/category-page.tsx:41-158 | on a sorted dataset the property page is exactly the property filter's result |
| Categories.GetCategoryClass | components/category-page.tsx:189-205 | the CSS class is looked up by the lowercased category, and "unknown" is used for anything unlisted, inherited object properties such as "constructor" aside |
| Categories.CategoryClassFacts | components/category-page.tsx:196-204 | diatomic and polyatomic nonmetals share the class "nonmetal"; the lookup ignores case; "unknown" comes exactly from unlisted categories, inherited object properties such as "constructor" aside |
| Categories.FixEach | lib/halogen-fix.ts:11-23 | each listed number that is present gets category "halogen"; every other entry is unchanged; no entry is added or removed |
| Categories.FixHalogens | lib/halogen-fix.ts:4-23 | without data nothing happens; otherwise 9, 17, 35, 53, 85 and 117 become halogens where present, and nothing else changes |
| Categories.FixHalogensIdempotent | lib/halogen-fix.ts:18-21 | applying the fix twice is the same as once |
| Search.HazardsMatching | components/search-bar.tsx:228-233 | a hazard name is suggested exactly when its lowercase name contains the lowercased query, in table order |
| Search.CategoriesMatching | components/search-bar.tsx:244-250 | a category is suggested exactly when one of its terms contains the query or the query contains the term, in table order |
| Search.FoundBySymbols | components/search-bar.tsx:235-237 | the hazard list's symbols yield exactly the elements found by those symbols |
| Search.HazardHits | components/search-bar.tsx:228-241 | the hazard hits are exactly the elements found by a symbol on a matching hazard's list |
| Search.CategoryHits | components/search-bar.tsx:253-255 | the matched categories add exactly the elements whose non-empty category equals a matched category key, ignoring case |
| Search.Hits | components/search-bar.tsx:228-270 | the combined hits are exactly the hazard, category and name, symbol or number hits |
| Search.Take | components/search-bar.tsx:279 | `slice(0, 15)` keeps the first min(length, 15) entries |
| Search.SearchResults | components/search-bar.tsx:270-279 | results are unique by number, strictly ascending, at most 15, all hits; any hit left out is numbered above all 15 shown |
| Search.EveryHitShownUnlessFull | components/search-bar.tsx:270-279 | when fewer than 15 results are shown, every hit is among them |
| Search.Change | components/search-bar.tsx:107-290 | the query is always stored; unloaded data computes nothing; a blank query clears everything and hides the dropdown; otherwise the results are the search results, the suggestion links are the matching hazard names and category names in table order, and the dropdown opens exactly on a result, a suggestion, or a length test of at least 2 UTF-16 code units |
| Search.HandleSearchChangeAsWritten | components/search-bar.tsx:285-290 | as written, the dropdown's length test reads the query from before the change |
| Search.HandleSearchChange | components/search-bar.tsx:285-290 | corrected, the dropdown's length test reads the new query |
| Search.DropdownFollowsQuery | components/search-bar.tsx:285-290 | corrected, the dropdown opens exactly when there is a hit, a suggestion, or a query of at least 2 UTF-16 code units; all else is as written |
| Search.StaleDropdownCounterexample | components/search-bar.tsx:285-290 | typing "qq" after "q" with no matches keeps the dropdown closed as written, but opens it when corrected |
| Search.QuietQuery | components/search-bar.tsx:285-290 | when nothing matches, the dropdown opens only through the length test, counted in UTF-16 code units |
| Search.AstralQueryOpensDropdown | components/search-bar.tsx:285-290 | a query of one character outside the Basic Multilingual Plane has length 2 and opens the corrected dropdown |
| Search.NoHitsNoResults | components/search-bar.tsx:228-279 | when no hazard, category or element matches, there are no results |
| Search.LinkColor | components/search-bar.tsx:514-529 | the link colour is looked up by the lowercased category, with fallback "#e6ee9c" for unlisted categories, inherited object properties such as "constructor" aside |
| Search.PropertyEmoji | components/search-bar.tsx:532-548 | the emoji is looked up by the lowercased property, with fallback "🔍" for unlisted properties, inherited object properties such as "constructor" aside |
| Search.SuggestedLinksAreDecorated | components/search-bar.tsx:194-218 | every suggested category has its own colour; every suggested hazard except "extremely toxic" has its badge's emoji and names its kind |
| ViewController.Step | app/page.tsx:97-206 | selecting an element shows its atom and keeps the category; back and home clear both and show the table; a category click shows that page and clears the element; a resize sets the panel; the toggle flips it |
| ViewController.ReachableIsConsistent | app/page.tsx:20-28 | from the start, the atom view always has an element, the category view a category and no element, and the table view neither |
| ViewController.HomeIsBack | app/page.tsx:161-179 | the header's home link and the back button lead to the same state |
| ViewController.BackForgets | app/page.tsx:161-165 | going back keeps only the panel and screen flags |
| ViewController.ToggleTwice | app/page.tsx:323 | toggling the info panel twice restores it |
| ViewController.ResizeOpensPanelOnWideScreens | app/page.tsx:117-123 | after a resize the panel is open exactly at widths of 768 or more, which is exactly when the page is not mobile |
| ViewController.ViewClass | app/page.tsx:253-257 | every view has a non-empty class name |
| ViewController.ViewClassInjective | app/page.tsx:253-257 | the three views have three different class names |
| ViewController.Render | app/page.tsx:261-327 | the canvas is hidden, and the page scrolls, exactly on the category page; the mobile search bar shows exactly in the table view on a mobile screen; the category page and the info panel show the selected category and element, with the panel's open flag |
| ViewController.OneMainPart | app/page.tsx:303-327 | on a consistent page, the legend, the category page and the info panel are shown exactly in the table, category and atom view |
| ViewController.ElementClickShowsPanel | app/page.tsx:203-206 | choosing an element from anywhere shows its info panel |
| ViewController.Crumbs | components/breadcrumb.tsx:22-53 | the home crumb always comes first and triggers back, and is current only in the table view; a category page adds the current, inert crumb of the formatted category name; the atom view adds the formatted category, which opens that category, then the current element name |
| ViewController.LastCrumbIsCurrent | components/breadcrumb.tsx:24-53 | on a consistent page exactly the last crumb is marked current |
| ViewController.CategoryCrumbRoundTrip | components/breadcrumb.tsx:40-48 | in the atom view the middle crumb opens the element's category page, whose trail ends in the text that was clicked |
| ViewController.HomeCrumbResets | components/breadcrumb.tsx:24-31 | the home crumb always leads back to the bare table trail |
| ViewController.CategoryCrumbKeepsWords | components/breadcrumb.tsx:15-38 | on a category page the last crumb's text has as many words as the category name, and formatting it again changes nothing |
| Lightbox.Step | components/element-info.tsx:48-102 | opening keeps zoom and pan; closing resets zoom to 1 and the position to the origin; zoom stays capped; a press starts a drag; a move without a drag changes nothing; a release ends the drag |
| Lightbox.ScaleAlwaysInRange | components/element-info.tsx:22 | whatever happens, the zoom stays between 1 and 4 |
| Lightbox.RunKeepsScaleInRange | components/element-info.tsx:56-62 | from any zoom between 1 and 4, every sequence of events keeps it there |
| Lightbox.ZoomOutDisabledAtRest | components/element-info.tsx:295 | on every reachable state, the zoom-out button is disabled exactly when the zoom is 1, and pressing it then changes nothing |
| Lightbox.ZoomOutUndoesZoomIn | components/element-info.tsx:56-62 | zooming out undoes a zoom in that did not hit the cap |
| Lightbox.ZoomInUndoesZoomOut | components/element-info.tsx:56-62 | zooming in undoes a zoom out that did not hit the floor |
| Lightbox.RepeatedZoomIn | components/element-info.tsx:56-58 | n zoom-in clicks from zoom s give min(s + n/2, 4) and do not move the image |
| Lightbox.SixClicksToMax | components/element-info.tsx:56-58 | from the start, six clicks reach the cap and five do not |
| Lightbox.DragFollowsPointer | components/element-info.tsx:64-97 | after a press at p, a move to p' shifts the image by p' - p, and moving back to p puts it back |
| Lightbox.ReleaseStopsDrag | components/element-info.tsx:100-102 | after mouse-up, mouse-leave or touch-end, moving no longer moves the image |
| Lightbox.ReopenIsFresh | components/element-info.tsx:28-34 | closing and reopening shows the image unzoomed and centred |

## Left out

- Halogen patch aliasing: `createPeriodicTable` runs inside `loadElementData` (lib/periodic-table.ts:377) and colours each tile from the element's category at that moment (lib/periodic-table.ts:439). `fixHalogenElements` runs afterwards (app/page.tsx:77) and rewrites the category on the same shared element objects (lib/halogen-fix.ts:12-20). So in the program a halogen tile keeps its pre-patch colour while its element reports "halogen". `Categories.FixHalogens` returns a new map and tiles hold copies of their elements, so the model cannot show this split between colour and category.
- Three.js rendering is not modelled. This covers the scene, camera, renderer, orbit controls and tweens, the geometry, materials and their disposal, the text sprites, and the ray cast. These are calls into a graphics library, so the ray cast is an input: the objects hit, from the hit object up through its parents.
- Trigonometry and screen math are not modelled. This covers electron positions by cosine and sine, pointer coordinates normalised to the canvas, and aspect ratios. Only the angle before the cosine and sine is kept.
- Floating point is not modelled: numbers are exact reals. Speeds are exact fractions and 2π is the double constant, with no rounding.
- Network, timers and polling are not modelled. This covers the two fetches, the image merge from the second fetch (lib/periodic-table.ts:349-367), the `setTimeout` delays before building an atom or reshowing the table, the data polling of the category page and the search box, and the 15-second loading warning. The loaded data is an input.
- The scene effect of the page's view is not modelled. The page's view state and the scene flags live in separate modules (`ViewController` and `AtomicModel`), and the timers that link them are left out.
- Console logging, the swallowed exceptions of `try`/`catch`, the category page's debug text, the tooltip's HTML text, body-scroll styling and the 3D tile labels are not modelled; none of them decides anything.
- `handleSearchSelect`, `handleCategorySelect`, `getCategorySuggestions`, `renderSearchResults` and the input's focus handler are not modelled: they are presentation code. The two select handlers raise the `ElementSelected` and `CategoryClick` events of `ViewController`.
- Case mapping covers ASCII letters only; the program's `toLowerCase`/`toUpperCase` also map other Unicode letters.
- TableLayout.CategoryColorLookup: for an inherited key the program's `categoryColors[...] || 0xe6ee9c` returns a function, not the fallback (lib/periodic-table.ts:529); the model returns the fallback. Inherited object properties are not modelled: the program's lookup tables are JavaScript object literals, and a key such as "constructor" or "toString" reaches `Object.prototype` and yields a function. The model's lookup is a map, so such a key counts as unlisted. No caller passes such a key: the names come from the element data and the fixed suggestion lists.
- TableLayout.ApplicationsLookup: for an inherited key the program returns a function, not the default pair (lib/periodic-table.ts:558); the model returns the default pair.
- Categories.Variants: for an inherited key the program's `categoryMapping[...] || [categoryName]` returns a function, not `[categoryName]` (lib/category-mapping.ts:18); the model treats the name as unmapped.
- Categories.GetElementsByCategory: for an inherited key the program throws a TypeError on `categoryVariants.includes` (lib/category-mapping.ts:20); the model filters by the name itself. The error path is not modelled.
- Categories.UnmappedCapitalisedSelectsNothing: holds for the model; in the program a capitalised inherited key such as "Constructor" throws instead of selecting nothing.
- Categories.GetCategoryClass: for an inherited key the program returns a function, not "unknown" (components/category-page.tsx:204); the model returns "unknown".
- Categories.CategoryClassFacts: "unknown exactly from unlisted categories" is stated over map keys only; inherited keys are not modelled.
- Search.LinkColor: for an inherited key the program returns a function, not "#e6ee9c" (components/search-bar.tsx:528); the model returns the fallback.
- Search.PropertyEmoji: for an inherited key the program returns a function, not the fallback emoji (components/search-bar.tsx:547); the model returns the fallback.
- The page has two resize listeners: the mobile flag (app/page.tsx:43-44) and the panel rule (app/page.tsx:117-123). `ViewController.Resize` is one event that applies both.
- The hazard symbol lists are defined once, in `Hazards`. The category page and the search box repeat the same lists, character for character, and the model uses the single definition for all three.
- Lightbox touch events are modelled by the position of the first finger. A close does not reset the drag flag; the source behaves the same.
- Lightbox.Step: for zoom in and zoom out its contract gives only the bounds and the direction. The exact value min(s + 0.5, 4) is stated by `Lightbox.RepeatedZoomIn`; max(s - 0.5, 1) is stated only through `Lightbox.ZoomInUndoesZoomOut`.
- Elements.DedupeByNumber: the contract does not state that the kept entries follow the order in which their numbers first occur; the only caller sorts the result by number right after.
- Interaction.FirstTile: the contract does not say that the object found is the first one on the path.
- Interaction.Frame: the contract says only when angles are computed and how many. The value of each angle is stated by `Interaction.AngleIsLinearInTime`.
- TableLayout.LoadElementData: when two records share a number, the source keeps the later one. The contract says only that the entry is some record with that number.
- Text.Tokens: the contract says only that tokens are non-empty. How whitespace separates tokens is stated by `Text.TokensSplitAtSpace` and `Text.LeadingSpaceIgnored`.

## Findings

| source | as written | input that shows it | evidently intended | confidence | as-written member | corrected member |
|---|---|---|---|---|---|---|
| components/search-bar.tsx:285-290 | the dropdown's length test reads `searchTerm`, the query from before this change | previous query "q", new query "qq", nothing matches: the dropdown stays closed, so "No elements found" is not shown | test the length of the new query `value` | not executed | Search.HandleSearchChangeAsWritten, Search.StaleDropdownCounterexample | Search.HandleSearchChange, Search.DropdownFollowsQuery |
