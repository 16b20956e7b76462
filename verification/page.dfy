/** The portfolio page: its section table, the active-section state the
    scroll-spy drives, click-to-scroll navigation, and the two navigation
    bars (desktop sidebar, mobile top bar) that highlight the active section.

    The page exists twice, in src/components/Portfolio.tsx and in
    src/components/Portfolio.jsx, with the same logic over different section
    tables; a `Page` value holds what differs between them.
 */
module PortfolioPage {
  import opened Options
  import opened ClassFragments
  import opened ScrollSpy
  import opened Counting

  datatype Page = Page(sections: seq<Section>, initialActive: string, desktopItemBase: string)

  /** The page of Portfolio.tsx. */
  const TsxPage := Page(
    [ Section("information", "00", "Information"),
      Section("project-a", "01", "Project A"),
      Section("project-b", "02", "Project B"),
      Section("project-c", "03", "Project C"),
      Section("project-d", "04", "Project D") ],
    "information",
    "text-left transition-colors duration-200")

  /** The page of Portfolio.jsx. */
  const JsxPage := Page(
    [ Section("about", "00", "About"),
      Section("project-a", "01", "\U{C6}LTER \U{C6}GO"),
      Section("project-b", "02", "Starshaped"),
      Section("project-c", "03", "Street Photography"),
      Section("project-d", "04", "Tour de LFW") ],
    "about",
    "lg:block text-left transition-colors duration-200")

  /** A page whose active-section state is well defined: at least one
      section, distinct ids, and the initial state names the first section. */
  predicate WellFormed(p: Page) {
    && |p.sections| > 0
    && UniqueIds(p.sections)
    && p.initialActive == p.sections[0].id
  }

  lemma PagesWellFormed()
    ensures WellFormed(TsxPage) && WellFormed(JsxPage)
  {
  }

  /** The two events that reach the page: a scroll of the window, and a click
      on a navigation item naming a target section. `layout` is the document
      at the time of the event. */
  datatype Event =
    | Scrolled(scrollY: int, layout: Layout)
    | NavClicked(target: string, layout: Layout)

  /** `scrollToSection`: the smooth scroll it starts, to the top of the
      target's element, or nothing when the element is missing. It has no
      access to the active id. */
  function ScrollToSection(layout: Layout, target: string): (r: Option<int>)
    ensures r.None? <==> target !in layout
    ensures r.Some? ==> r.value == layout[target].offsetTop
    ensures r.Some? && layout[target].offsetHeight > 0 ==> Contains(layout[target], r.value)
  {
    if target in layout then Some(layout[target].offsetTop) else None
  }

  /** The active id after one event. Only a scroll can change it, and only
      to the first section hit at the probed position. */
  function Step(p: Page, active: string, e: Event): (r: string)
    ensures e.NavClicked? ==> r == active
    ensures e.Scrolled? && NoHit(p.sections, e.layout, Position(e.scrollY)) ==> r == active
    ensures forall k :: e.Scrolled? && IsFirstHit(p.sections, e.layout, Position(e.scrollY), k) ==> r == p.sections[k].id
  {
    match e
    case Scrolled(scrollY, layout) => Recompute(p.sections, layout, scrollY, active)
    case NavClicked(_, _) => active
  }

  /** The active id after a sequence of events, starting from the page's
      initial state. */
  function ActiveAfter(p: Page, events: seq<Event>): (r: string)
    ensures r == p.initialActive || exists k :: 0 <= k < |p.sections| && r == p.sections[k].id
    decreases |events|
  {
    if events == [] then p.initialActive
    else Step(p, ActiveAfter(p, events[..|events| - 1]), events[|events| - 1])
  }

  /** A navigation click never writes the active id. */
  lemma NavClickKeepsActive(p: Page, events: seq<Event>, target: string, layout: Layout)
    ensures ActiveAfter(p, events + [NavClicked(target, layout)]) == ActiveAfter(p, events)
  {
  }

  /** The active id always names one of the page's sections: it starts as
      the first section's id and is only ever assigned a section's id. */
  lemma ActiveIsSection(p: Page, events: seq<Event>)
    requires WellFormed(p)
    ensures ActiveAfter(p, events) in Ids(p.sections)
  {
  }

  /** After a click on section `k`'s navigation item, the scroll it starts
      lands with the section's top at the top of the viewport; when the
      section is taller than the lookahead and the extents do not overlap,
      the next scroll event makes that section active. */
  lemma NavigationSettlesOnTarget(p: Page, layout: Layout, k: int, active: string)
    requires 0 <= k < |p.sections|
    requires Disjoint(p.sections, layout)
    requires p.sections[k].id in layout && layout[p.sections[k].id].offsetHeight > Lookahead
    ensures ScrollToSection(layout, p.sections[k].id).Some?
    ensures var scrollY := ScrollToSection(layout, p.sections[k].id).value;
            Step(p, active, Scrolled(scrollY, layout)) == p.sections[k].id
  {
  }

  /** `activeSection === section.id`, for each section in order. */
  function ActiveFlags(sections: seq<Section>, active: string): (r: seq<bool>)
    ensures |r| == |sections|
    ensures forall i :: 0 <= i < |sections| ==> (r[i] <==> sections[i].id == active)
  {
    seq(|sections|, i requires 0 <= i < |sections| => sections[i].id == active)
  }

  /** With distinct ids, exactly one section is flagged active when the
      active id is a section id, and none otherwise. */
  lemma ExactlyOneFlagged(sections: seq<Section>, active: string)
    requires UniqueIds(sections)
    ensures CountTrue(ActiveFlags(sections, active)) == if active in Ids(sections) then 1 else 0
  {
    var flags := ActiveFlags(sections, active);
    if active in Ids(sections) {
      var k :| 0 <= k < |sections| && Ids(sections)[k] == active;
      CountSingle(flags, k);
    }
  }

  const DesktopActive := "text-foreground font-medium"
  const DesktopInactive := "text-muted-foreground hover:text-foreground"
  const MobileBase := "px-3 py-2 rounded-md text-sm transition-colors duration-200"
  const MobileActive := "bg-accent text-accent-foreground font-medium"
  const MobileInactive := "text-muted-foreground hover:text-foreground hover:bg-accent/50"

  /** A rendered navigation item: the section a click scrolls to, whether it
      is highlighted, the text it shows, and its `cn` arguments. */
  datatype NavItem = NavItem(target: string, isActive: bool, text: seq<string>, classes: Fragments)

  /** `NavigationItem`: number and title always shown. */
  function DesktopItem(p: Page, s: Section, isActive: bool): (r: NavItem)
    ensures r.target == s.id && r.isActive == isActive
    ensures |r.text| == 2 && r.text[0] == s.number + "." && r.text[1] == s.title
    ensures |r.classes| == 2 && r.classes[0] == Some(p.desktopItemBase)
    ensures r.classes[1] == Some(DesktopActive) <==> isActive
    ensures Present(r.classes) == [p.desktopItemBase, if isActive then DesktopActive else DesktopInactive]
  {
    NavItem(s.id, isActive, [s.number + ".", s.title],
            [Some(p.desktopItemBase), Some(if isActive then DesktopActive else DesktopInactive)])
  }

  /** `MobileNavItem`: number always shown, title only when active. */
  function MobileItem(s: Section, isActive: bool): (r: NavItem)
    ensures r.target == s.id && r.isActive == isActive
    ensures 1 <= |r.text| && r.text[0] == s.number + "."
    ensures |r.text| == 2 <==> isActive
    ensures isActive ==> r.text[1] == s.title
    ensures |r.classes| == 2 && r.classes[0] == Some(MobileBase)
    ensures r.classes[1] == Some(MobileActive) <==> isActive
  {
    NavItem(s.id, isActive, [s.number + "."] + (if isActive then [s.title] else []),
            [Some(MobileBase), Some(if isActive then MobileActive else MobileInactive)])
  }

  /** The desktop sidebar: one item per section, in order. */
  function DesktopBar(p: Page, active: string): (r: seq<NavItem>)
    ensures |r| == |p.sections|
    ensures forall i :: 0 <= i < |r| ==>
      && r[i].target == p.sections[i].id
      && (r[i].isActive <==> p.sections[i].id == active)
      && r[i].text == [p.sections[i].number + ".", p.sections[i].title]
  {
    seq(|p.sections|, i requires 0 <= i < |p.sections| => DesktopItem(p, p.sections[i], active == p.sections[i].id))
  }

  /** The mobile bar: one item per section, in order. */
  function MobileBar(p: Page, active: string): (r: seq<NavItem>)
    ensures |r| == |p.sections|
    ensures forall i :: 0 <= i < |r| ==>
      && r[i].target == p.sections[i].id
      && (r[i].isActive <==> p.sections[i].id == active)
      && 1 <= |r[i].text| && r[i].text[0] == p.sections[i].number + "."
  {
    seq(|p.sections|, i requires 0 <= i < |p.sections| => MobileItem(p.sections[i], active == p.sections[i].id))
  }

  /** The highlight flags of a bar. */
  function Highlights(bar: seq<NavItem>): (r: seq<bool>)
    ensures |r| == |bar|
    ensures forall i :: 0 <= i < |bar| ==> (r[i] <==> bar[i].isActive)
  {
    seq(|bar|, i requires 0 <= i < |bar| => bar[i].isActive)
  }

  /** Whatever events have happened, exactly one desktop item and exactly
      one mobile item are highlighted, both the active section's; each item
      targets its own section and carries the active styling exactly when
      highlighted. */
  lemma ExactlyOneHighlighted(p: Page, events: seq<Event>)
    requires WellFormed(p)
    ensures var active := ActiveAfter(p, events);
            var desktop, mobile := DesktopBar(p, active), MobileBar(p, active);
            && CountTrue(Highlights(desktop)) == 1
            && CountTrue(Highlights(mobile)) == 1
            && (forall i :: 0 <= i < |p.sections| ==>
                  && desktop[i].target == mobile[i].target == p.sections[i].id
                  && (desktop[i].isActive <==> p.sections[i].id == active)
                  && (mobile[i].isActive <==> p.sections[i].id == active)
                  && (desktop[i].classes[1] == Some(DesktopActive) <==> desktop[i].isActive)
                  && (mobile[i].classes[1] == Some(MobileActive) <==> mobile[i].isActive))
  {
    var active := ActiveAfter(p, events);
    ActiveIsSection(p, events);
    ExactlyOneFlagged(p.sections, active);
    assert Highlights(DesktopBar(p, active)) == ActiveFlags(p.sections, active);
    assert Highlights(MobileBar(p, active)) == ActiveFlags(p.sections, active);
  }

  /** The mobile bar always shows every section's number, and shows a title
      for exactly one section: the active one. */
  lemma MobileShowsOneTitle(p: Page, events: seq<Event>)
    requires WellFormed(p)
    ensures var active := ActiveAfter(p, events);
            var mobile := MobileBar(p, active);
            && (forall i :: 0 <= i < |mobile| ==>
                  && 1 <= |mobile[i].text|
                  && mobile[i].text[0] == p.sections[i].number + "."
                  && (|mobile[i].text| == 2 <==> p.sections[i].id == active)
                  && (|mobile[i].text| == 2 ==> mobile[i].text[1] == p.sections[i].title))
            && CountTrue(seq(|mobile|, i requires 0 <= i < |mobile| => |mobile[i].text| == 2)) == 1
  {
    var active := ActiveAfter(p, events);
    var mobile := MobileBar(p, active);
    ActiveIsSection(p, events);
    ExactlyOneFlagged(p.sections, active);
    assert seq(|mobile|, i requires 0 <= i < |mobile| => |mobile[i].text| == 2) == ActiveFlags(p.sections, active);
  }
}
