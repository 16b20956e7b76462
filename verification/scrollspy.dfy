/** The scroll-spy: which section the page considers active after a scroll.

    On every scroll event the page adds a fixed lookahead of 100 pixels to
    the vertical scroll offset and scans its sections in declaration order.
    A section whose element is not in the document is skipped; the first
    section whose vertical extent [offsetTop, offsetTop + offsetHeight)
    contains the position becomes active. When no section matches, the
    previously active section is kept.

    The document is modelled as a `Layout`: a map from element id to the
    element's box, where a missing key is a missing element.
 */
module ScrollSpy {
  import opened Options

  datatype Section = Section(id: string, number: string, title: string)

  /** An element's vertical extent, in whole pixels. */
  datatype Box = Box(offsetTop: int, offsetHeight: nat)

  type Layout = map<string, Box>

  /** Lookahead added to the scroll offset, so that a section counts as
      active slightly before its top reaches the top of the viewport. */
  const Lookahead := 100

  /** The document position a scroll offset probes. */
  function Position(scrollY: int): int {
    scrollY + Lookahead
  }

  /** Half-open containment: the top edge is inside, the bottom edge is not. */
  predicate Contains(b: Box, pos: int) {
    b.offsetTop <= pos < b.offsetTop + b.offsetHeight
  }

  /** The section has an element, and that element's extent contains `pos`. */
  predicate Hits(s: Section, layout: Layout, pos: int) {
    s.id in layout && Contains(layout[s.id], pos)
  }

  /** Section `k` is the first one in declaration order that `pos` hits. */
  predicate IsFirstHit(sections: seq<Section>, layout: Layout, pos: int, k: int) {
    && 0 <= k < |sections|
    && Hits(sections[k], layout, pos)
    && forall j :: 0 <= j < k ==> !Hits(sections[j], layout, pos)
  }

  /** No section is hit by `pos`. */
  predicate NoHit(sections: seq<Section>, layout: Layout, pos: int) {
    forall j :: 0 <= j < |sections| ==> !Hits(sections[j], layout, pos)
  }

  /** Pairwise distinct ids, as in both pages' section tables. */
  predicate UniqueIds(sections: seq<Section>) {
    forall i, j :: 0 <= i < j < |sections| ==> sections[i].id != sections[j].id
  }

  /** The ids of the sections, in order. */
  function Ids(sections: seq<Section>): (r: seq<string>)
    ensures |r| == |sections|
    ensures forall i :: 0 <= i < |sections| ==> r[i] == sections[i].id
  {
    seq(|sections|, i requires 0 <= i < |sections| => sections[i].id)
  }

  /** The position of the first section that `pos` hits, if any. */
  function FirstHit(sections: seq<Section>, layout: Layout, pos: int): (r: Option<nat>)
    ensures r.Some? ==> IsFirstHit(sections, layout, pos, r.value)
    ensures r.None? ==> NoHit(sections, layout, pos)
  {
    if sections == [] then None
    else if Hits(sections[0], layout, pos) then Some(0)
    else match FirstHit(sections[1..], layout, pos)
      case None => None
      case Some(k) => Some(k + 1)
  }

  /** The active id after a scroll event at `scrollY`, given the id that was
      active before it. */
  function Recompute(sections: seq<Section>, layout: Layout, scrollY: int, previous: string): (r: string)
    ensures var pos := Position(scrollY);
            || (exists k :: IsFirstHit(sections, layout, pos, k) && r == sections[k].id)
            || (NoHit(sections, layout, pos) && r == previous)
  {
    match FirstHit(sections, layout, Position(scrollY))
    case Some(k) => sections[k].id
    case None => previous
  }

  /** The scroll handler as written: a loop over the sections that breaks on
      the first match, starting from the active id it was handed. */
  method HandleScroll(sections: seq<Section>, layout: Layout, scrollY: int, active: string) returns (next: string)
    ensures next == Recompute(sections, layout, scrollY, active)
  {
    var scrollPosition := scrollY + Lookahead;
    next := active;
    var i := 0;
    while i < |sections|
      invariant 0 <= i <= |sections|
      invariant forall j :: 0 <= j < i ==> !Hits(sections[j], layout, scrollPosition)
    {
      var section := sections[i];
      if section.id in layout {
        var element := layout[section.id];
        if scrollPosition >= element.offsetTop && scrollPosition < element.offsetTop + element.offsetHeight {
          next := section.id;
          return;
        }
      }
      i := i + 1;
    }
  }

  /** At most one position is the first hit. */
  lemma FirstHitIsUnique(sections: seq<Section>, layout: Layout, pos: int, k: int)
    requires IsFirstHit(sections, layout, pos, k)
    ensures FirstHit(sections, layout, pos) == Some(k)
  {
  }

  /** The first section whose extent contains the position becomes active,
      whatever was active before. */
  lemma SelectsFirstHit(sections: seq<Section>, layout: Layout, scrollY: int, previous: string, k: int)
    requires IsFirstHit(sections, layout, Position(scrollY), k)
    ensures Recompute(sections, layout, scrollY, previous) == sections[k].id
  {
  }

  /** When no section's extent contains the position, the active id is kept. */
  lemma RetainsWhenNoHit(sections: seq<Section>, layout: Layout, scrollY: int, previous: string)
    requires NoHit(sections, layout, Position(scrollY))
    ensures Recompute(sections, layout, scrollY, previous) == previous
  {
  }

  /** The active id changes only to the id of a section that was hit. */
  lemma ChangesOnlyOnHit(sections: seq<Section>, layout: Layout, scrollY: int, previous: string)
    requires Recompute(sections, layout, scrollY, previous) != previous
    ensures exists k :: IsFirstHit(sections, layout, Position(scrollY), k)
  {
  }

  /** A section without an element is never selected: its id can only be
      the result if it was already active. */
  lemma MissingElementSkipped(sections: seq<Section>, layout: Layout, scrollY: int, previous: string, k: int)
    requires 0 <= k < |sections| && sections[k].id !in layout
    ensures Recompute(sections, layout, scrollY, previous) == sections[k].id ==> previous == sections[k].id
  {
  }

  /** The top edge of an extent is inside it: a position equal to a section's
      offsetTop selects it when no earlier section is hit. */
  lemma TopEdgeSelects(sections: seq<Section>, layout: Layout, scrollY: int, previous: string, k: int)
    requires 0 <= k < |sections| && sections[k].id in layout
    requires layout[sections[k].id].offsetHeight > 0
    requires Position(scrollY) == layout[sections[k].id].offsetTop
    requires forall j :: 0 <= j < k ==> !Hits(sections[j], layout, Position(scrollY))
    ensures Recompute(sections, layout, scrollY, previous) == sections[k].id
  {
  }

  /** The bottom edge is outside: a position equal to offsetTop + offsetHeight
      never makes that section active (unless it already was). */
  lemma BottomEdgeExcluded(sections: seq<Section>, layout: Layout, scrollY: int, previous: string, k: int)
    requires 0 <= k < |sections| && sections[k].id in layout
    requires Position(scrollY) == layout[sections[k].id].offsetTop + layout[sections[k].id].offsetHeight
    ensures Recompute(sections, layout, scrollY, previous) == sections[k].id ==> previous == sections[k].id
  {
  }

  /** The extents of the sections that have elements do not overlap. */
  predicate Disjoint(sections: seq<Section>, layout: Layout) {
    forall i, j :: 0 <= i < j < |sections| && sections[i].id in layout && sections[j].id in layout ==>
      var a, b := layout[sections[i].id], layout[sections[j].id];
      a.offsetTop + a.offsetHeight <= b.offsetTop || b.offsetTop + b.offsetHeight <= a.offsetTop
  }

  /** With non-overlapping extents, the section whose extent contains the
      position becomes active, regardless of which section was active. */
  lemma DisjointSelectsContaining(sections: seq<Section>, layout: Layout, scrollY: int, previous: string, k: int)
    requires Disjoint(sections, layout)
    requires 0 <= k < |sections| && Hits(sections[k], layout, Position(scrollY))
    ensures Recompute(sections, layout, scrollY, previous) == sections[k].id
  {
  }

  /** Recomputing keeps the active id among the section ids. */
  lemma RecomputeStaysInSections(sections: seq<Section>, layout: Layout, scrollY: int, previous: string)
    requires previous in Ids(sections)
    ensures Recompute(sections, layout, scrollY, previous) in Ids(sections)
  {
  }
}
