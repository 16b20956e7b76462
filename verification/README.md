# Portfolio scroll-spy and class-fragment selection, in Dafny

This project models the two pieces of logic inside the nori-portfolio React
components:

1. **The scroll-spy of the portfolio page** (`Portfolio.tsx` and its twin
   `Portfolio.jsx`). On each scroll the page probes the document position
   `scrollY + 100`, scans its five sections in declaration order, skips any
   section whose element is missing, and makes active the first section
   whose extent `[offsetTop, offsetTop + offsetHeight)` contains the
   position; when none does, the active section is unchanged. The active id
   starts as the first section's id (`"information"` / `"about"`),
   `scrollToSection` never writes it, and the desktop sidebar and the mobile
   bar highlight the item whose section id equals it.
2. **The class-fragment lists of the UI primitives** (`Elements.jsx`, and
   again in `Portfolio.tsx`): `Button` passes the class composer `cn` a fixed
   base, one slot per known variant, one slot per known size and the
   caller's `className`; each Card-family primitive passes its own fixed base
   and the `className`. The model is the argument list handed to `cn`, not
   `cn`'s output.

Files:

- `options.dfy` — `Options.Option`.
- `counting.dfy` — `Counting`: how many flags of a list are set.
- `fragments.dfy` — `ClassFragments`: `cn` argument lists (`seq<Option<string>>`),
  `Present` (the fragments actually there, in order), counting and
  concatenation lemmas.
- `button.dfy` — `Button`: the variant and size tables, the argument list
  `ButtonFragments`, and its selection, order, default and exclusivity lemmas.
- `cards.dfy` — `Cards`: the Card family in both files.
- `scrollspy.dfy` — `ScrollSpy`: sections, element boxes, the first-match
  search `FirstHit`, the pure `Recompute`, the loop `HandleScroll`, and the
  selection lemmas.
- `page.dfy` — `PortfolioPage`: the two section tables, events, the
  active-id state over any event sequence, `scrollToSection`, and the two
  navigation bars.

The document is a `Layout`: a map from element id to its box
(`offsetTop: int`, `offsetHeight: nat`); an id that is not a key is an
element `getElementById` does not find. Scroll offsets and boxes are whole
pixels. The logic of the two page files is the same and is defined once,
over a `Page` value holding what differs (section table, initial id, the
sidebar item's base class).

Two consequences of the code are worth stating: a navigation click only
starts a scroll, and the active id changes at the next scroll event
(`PortfolioPage.Step`, `PortfolioPage.NavClickKeepsActive`); and a section
with no element in the document is skipped by the scan
(`ScrollSpy.MissingElementSkipped`).

## Model

| member | source | states |
|---|---|---|
| ScrollSpy.FirstHit | src/components/Portfolio.tsx:118-126 | the result is the position of a section that has an element whose half-open extent contains the probed position, with no earlier section hit; no result only when no section is hit |
| ScrollSpy.Recompute | src/components/Portfolio.jsx:23-35 | the new active id is the id of the first section hit at `scrollY + 100`, or the previous id when no section is hit |
| ScrollSpy.HandleScroll | src/components/Portfolio.tsx:115-128 | the handler's loop, which breaks on the first match, yields exactly the first-match-or-keep result |
| ScrollSpy.FirstHitIsUnique | src/components/Portfolio.tsx:122-124 | because the scan breaks at the first match, any first-hit section is the one found |
| ScrollSpy.SelectsFirstHit | src/components/Portfolio.jsx:26-33 | the first section in declaration order whose extent contains the position becomes active, whatever was active before |
| ScrollSpy.RetainsWhenNoHit | src/components/Portfolio.tsx:118-127 | when no section's extent contains the position, the active id is unchanged |
| ScrollSpy.ChangesOnlyOnHit | src/components/Portfolio.jsx:30-31 | the active id changes only when some section is hit |
| ScrollSpy.MissingElementSkipped | src/components/Portfolio.tsx:119-120 | a section without an element never becomes active unless it already was |
| ScrollSpy.TopEdgeSelects | src/components/Portfolio.tsx:122 | a position equal to a section's offsetTop selects it (non-empty extent, no earlier hit) |
| ScrollSpy.BottomEdgeExcluded | src/components/Portfolio.jsx:30 | a position equal to offsetTop + offsetHeight never makes that section newly active |
| ScrollSpy.DisjointSelectsContaining | src/components/Portfolio.jsx:24-33 | with non-overlapping extents, the section whose extent contains the position becomes active regardless of the previous id |
| ScrollSpy.RecomputeStaysInSections | src/components/Portfolio.tsx:123 | recomputing from a section id gives a section id |
| PortfolioPage.PagesWellFormed | src/components/Portfolio.tsx:8-14 | both section tables are non-empty with distinct ids, and each page's initial active id is its first section's id |
| PortfolioPage.Step | src/components/Portfolio.tsx:114-139 | a click leaves the active id as it was; a scroll that hits no section leaves it too; a scroll that hits a section sets it to the first section hit |
| PortfolioPage.ScrollToSection | src/components/Portfolio.jsx:43-48 | a scroll is started exactly when the target element exists, to exactly the element's offsetTop, which lies inside a non-empty element |
| PortfolioPage.ActiveAfter | src/components/Portfolio.jsx:20-31 | the state starts at the initial id (`"about"`; `"information"` at Portfolio.tsx lines 112 and 123) and is only ever set to a section id, so after any events it is the initial id or a section's id |
| PortfolioPage.DesktopItem | src/components/Portfolio.tsx:141-151 | a sidebar item scrolls to its own section, shows its number with a dot and its title, and carries the page's base then the active styling exactly when active (Portfolio.jsx lines 50-60 alike) |
| PortfolioPage.MobileItem | src/components/Portfolio.tsx:153-166 | a mobile item scrolls to its own section, always shows its number, shows its title exactly when active, and carries the fixed base then the active styling exactly when active (Portfolio.jsx lines 62-75 alike) |
| PortfolioPage.DesktopBar | src/components/Portfolio.tsx:189-192 | one sidebar item per section, in order, each targeting its section and active exactly when its id equals the active id |
| PortfolioPage.MobileBar | src/components/Portfolio.tsx:174-176 | one mobile item per section, in order, each targeting its section, showing its number, and active exactly when its id equals the active id |
| PortfolioPage.NavClickKeepsActive | src/components/Portfolio.tsx:134-139 | a navigation click does not change the active id |
| PortfolioPage.ActiveIsSection | src/components/Portfolio.jsx:20-31 | after any sequence of scrolls and clicks the active id is one of the page's section ids |
| PortfolioPage.NavigationSettlesOnTarget | src/components/Portfolio.jsx:43-46 | after clicking a section taller than the lookahead, with non-overlapping extents, the scroll event at the destination makes that section active |
| PortfolioPage.ExactlyOneFlagged | src/components/Portfolio.jsx:83-100 | with distinct ids, `activeSection === section.id` holds for exactly one section when the active id is a section id, and for none otherwise |
| PortfolioPage.ExactlyOneHighlighted | src/components/Portfolio.tsx:141-192 | after any events exactly one desktop item and exactly one mobile item are active, both for the active section, each with the active styling exactly when active |
| PortfolioPage.MobileShowsOneTitle | src/components/Portfolio.jsx:62-85 | every mobile item shows its number; exactly one shows a title, the active section's |
| Button.WithDefault | src/components/Elements.jsx:3 | an omitted variant or size is `"default"`; a given one is used as it is |
| Button.VariantTests | src/components/Elements.jsx:8-13 | one slot per known variant, in table order; slot k is filled exactly when the name is the k-th variant, with that variant's fragment |
| Button.SizeTests | src/components/Elements.jsx:14-17 | one slot per known size, in table order; slot k is filled exactly when the name is the k-th size, with that size's fragment |
| ClassFragments.When | src/components/Elements.jsx:8 | `cond && fragment` is the fragment exactly when the condition holds, and falsy otherwise |
| Button.ButtonFragments | src/components/Elements.jsx:3-19 | base first; variant slot k is filled exactly when the (defaulted) variant is the k-th known variant, with that variant's fragment; likewise for sizes; className last |
| Button.VariantSelection | src/components/Elements.jsx:8-13 | the variant slots contribute exactly the variant table's fragment for the variant: one for a known variant, none for an unknown one |
| Button.SizeSelection | src/components/Elements.jsx:14-17 | the size slots contribute exactly the size table's fragment for the size |
| Button.ButtonOrder | src/components/Portfolio.tsx:30-43 | the fragments reaching `cn` are the base, then at most one variant fragment, then at most one size fragment, then the className |
| Button.KnownVariantSelectsOne | src/components/Elements.jsx:8-13 | each known variant fills exactly one variant slot, with its own fragment |
| Button.KnownSizeSelectsOne | src/components/Elements.jsx:14-17 | each known size fills exactly one size slot, with its own fragment |
| Button.UnknownAddsNothing | src/components/Elements.jsx:8-17 | an unrecognised variant and size add no fragment: only base and className remain |
| Button.DefaultsApply | src/components/Portfolio.tsx:18-19 | omitted variant and size give the primary fragment and the `h-10 px-4 py-2` fragment |
| Button.ClassNameLast | src/components/Elements.jsx:18 | a given className is the last fragment present and the base the first |
| Cards.CardFragments | src/components/Elements.jsx:29 | a Card-family argument list contributes its base, then the className when given |
| Cards.ElementsFragments | src/components/Elements.jsx:27-57 | an Elements.jsx primitive passes two arguments, the className last; the fragments present are its base then the className when given |
| Cards.PortfolioFragments | src/components/Portfolio.tsx:51-109 | Portfolio.tsx defines every primitive but CardImage; each passes two arguments, the className last, and the fragments present are its base then the className when given |
| Cards.ElementsShape | src/components/Elements.jsx:27-57 | every Elements.jsx Card primitive passes exactly two arguments: a non-empty base independent of the caller, then the className |
| Cards.PortfolioShape | src/components/Portfolio.tsx:51-109 | the same for every Card primitive of Portfolio.tsx, which defines all but CardImage |
| Cards.DefinitionsDiverge | src/components/Portfolio.tsx:66-100 | the two definitions of the family agree on every base except CardHeader (Portfolio.tsx line 72 against Elements.jsx line 36) and CardContent (line 99 against Elements.jsx line 48), and CardImage, absent in Portfolio.tsx |

## Left out

- Event plumbing: registering and removing the scroll listener on mount and
  unmount, and reading `window.scrollY`; the scroll offset and the layout are
  parameters of each event instead.
- `scrollIntoView` smooth scrolling: `ScrollToSection` returns the
  destination (the element's top) instead of animating.
- PortfolioPage.NavigationSettlesOnTarget: assumes the scroll lands exactly
  at the target's top; a browser clamps at the page end, which is not modelled.
- `cn` itself (its module is not part of this model): only its argument list
  is modelled. `Present` keeps an empty-string className, which `cn` may
  treat as falsy.
- Button.WithDefault: only an omitted (undefined) prop takes the default; a
  JavaScript `null` prop, which does not, is not modelled.
- The TypeScript prop types of Portfolio.tsx restrict `variant` and `size`
  to the known names; the model accepts any string, as the untyped
  Elements.jsx does at run time.
- Fractional scroll offsets and box sizes: positions are whole pixels.
- JSX markup, static copy, images and what Tailwind classes look like:
  rendering only.
- `getElementById` with duplicate ids in the document: the layout maps each
  id to one box.
- No carousel code is part of these components.
- `astro.config.mjs`: build configuration.
