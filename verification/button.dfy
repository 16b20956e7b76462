/** The `Button` primitive's class-fragment selection.

    The same list is built in two places with identical fragments
    (src/components/Elements.jsx and src/components/Portfolio.tsx): a fixed
    base, one `variant === v && fragment` slot per known variant, one
    `size === s && fragment` slot per known size, then the caller's
    `className`. `variant` and `size` default to "default" when omitted.
 */
module Button {
  import opened Options
  import opened ClassFragments

  const Base := "inline-flex items-center justify-center whitespace-nowrap rounded-md text-sm font-medium ring-offset-background transition-colors focus-visible:outline-none focus-visible:ring-2 focus-visible:ring-ring focus-visible:ring-offset-2 disabled:pointer-events-none disabled:opacity-50"

  const DefaultName := "default"

  const VariantDefault := "bg-primary text-primary-foreground hover:bg-primary/90"
  const VariantDestructive := "bg-destructive text-destructive-foreground hover:bg-destructive/90"
  const VariantOutline := "border border-input bg-background hover:bg-accent hover:text-accent-foreground"
  const VariantSecondary := "bg-secondary text-secondary-foreground hover:bg-secondary/80"
  const VariantGhost := "hover:bg-accent hover:text-accent-foreground"
  const VariantLink := "underline-offset-4 hover:underline"

  const SizeDefault := "h-10 px-4 py-2"
  const SizeSm := "h-9 rounded-md px-3"
  const SizeLg := "h-11 rounded-md px-8"
  const SizeIcon := "h-10 w-10"

  /** One row of a selection table: a prop value and the fragment it selects. */
  datatype Choice = Choice(name: string, fragment: string)

  /** The known variants, in the order their slots appear. */
  const Variants: seq<Choice> := [
    Choice(DefaultName, VariantDefault),
    Choice("destructive", VariantDestructive),
    Choice("outline", VariantOutline),
    Choice("secondary", VariantSecondary),
    Choice("ghost", VariantGhost),
    Choice("link", VariantLink)
  ]

  /** The known sizes, in the order their slots appear. */
  const Sizes: seq<Choice> := [
    Choice(DefaultName, SizeDefault),
    Choice("sm", SizeSm),
    Choice("lg", SizeLg),
    Choice("icon", SizeIcon)
  ]

  /** Slot positions in the argument list. */
  const FirstVariantSlot := 1
  const FirstSizeSlot := FirstVariantSlot + |Variants|
  const ClassNameSlot := FirstSizeSlot + |Sizes|

  ghost predicate DistinctNames(table: seq<Choice>) {
    forall i, j :: 0 <= i < j < |table| ==> table[i].name != table[j].name
  }

  /** The fragment a table assigns to a name, if any: a reference definition
      independent of the slot-by-slot list the component builds. */
  function Lookup(table: seq<Choice>, name: string): (r: Option<string>)
    ensures r.None? <==> forall i :: 0 <= i < |table| ==> table[i].name != name
    ensures r.Some? ==> exists i :: 0 <= i < |table| && table[i] == Choice(name, r.value)
  {
    if table == [] then None
    else if table[0].name == name then Some(table[0].fragment)
    else
      var r := Lookup(table[1..], name);
      assert r.Some? ==> table[1..][0] in table;
      r
  }

  /** A JavaScript default parameter: an omitted prop takes the default. */
  function WithDefault(prop: Option<string>): (r: string)
    ensures prop.Some? ==> r == prop.value
    ensures prop.None? ==> r == DefaultName
  {
    match prop
    case Some(v) => v
    case None => DefaultName
  }

  /** The six `variant === name && fragment` slots, in source order. */
  function VariantTests(v: string): (r: Fragments)
    ensures |r| == |Variants|
    ensures forall k :: 0 <= k < |Variants| ==>
      (r[k].Some? <==> v == Variants[k].name) && (r[k].Some? ==> r[k].value == Variants[k].fragment)
  {
    [ When(v == "default", VariantDefault),
      When(v == "destructive", VariantDestructive),
      When(v == "outline", VariantOutline),
      When(v == "secondary", VariantSecondary),
      When(v == "ghost", VariantGhost),
      When(v == "link", VariantLink) ]
  }

  /** The four `size === name && fragment` slots, in source order. */
  function SizeTests(s: string): (r: Fragments)
    ensures |r| == |Sizes|
    ensures forall k :: 0 <= k < |Sizes| ==>
      (r[k].Some? <==> s == Sizes[k].name) && (r[k].Some? ==> r[k].value == Sizes[k].fragment)
  {
    [ When(s == "default", SizeDefault),
      When(s == "sm", SizeSm),
      When(s == "lg", SizeLg),
      When(s == "icon", SizeIcon) ]
  }

  /** The argument list `Button` hands to `cn`: base, variant slots, size
      slots, className. */
  function ButtonFragments(variant: Option<string>, size: Option<string>, className: Option<string>): (r: Fragments)
    ensures |r| == ClassNameSlot + 1
    ensures r[0] == Some(Base)
    ensures forall k :: 0 <= k < |Variants| ==>
      (r[FirstVariantSlot + k].Some? <==> WithDefault(variant) == Variants[k].name) &&
      (r[FirstVariantSlot + k].Some? ==> r[FirstVariantSlot + k].value == Variants[k].fragment)
    ensures forall k :: 0 <= k < |Sizes| ==>
      (r[FirstSizeSlot + k].Some? <==> WithDefault(size) == Sizes[k].name) &&
      (r[FirstSizeSlot + k].Some? ==> r[FirstSizeSlot + k].value == Sizes[k].fragment)
    ensures r[ClassNameSlot] == className
  {
    [Some(Base)] + VariantTests(WithDefault(variant)) + SizeTests(WithDefault(size)) + [className]
  }

  /** The variant slots of an argument list. */
  function VariantSlots(r: Fragments): Fragments
    requires |r| == ClassNameSlot + 1
  {
    r[FirstVariantSlot..FirstSizeSlot]
  }

  /** The size slots of an argument list. */
  function SizeSlots(r: Fragments): Fragments
    requires |r| == ClassNameSlot + 1
  {
    r[FirstSizeSlot..ClassNameSlot]
  }

  lemma TablesHaveDistinctNames()
    ensures DistinctNames(Variants)
    ensures DistinctNames(Sizes)
  {
  }

  /** A list of tests against a table with distinct names holds exactly the
      fragment the table gives the tested value: one for a known value, none
      for an unknown one. */
  lemma {:induction false} TestsMatchTable(table: seq<Choice>, value: string, tests: Fragments)
    requires DistinctNames(table)
    requires |tests| == |table|
    requires forall k :: 0 <= k < |table| ==>
      (tests[k].Some? <==> value == table[k].name) && (tests[k].Some? ==> tests[k].value == table[k].fragment)
    ensures Present(tests) == Contribution(Lookup(table, value))
    ensures CountSome(tests) == |Contribution(Lookup(table, value))|
  {
    if k :| 0 <= k < |table| && table[k].name == value {
      assert forall i :: 0 <= i < |tests| && i != k ==> tests[i].None?;
      SingleSlot(tests, k);
      var i :| 0 <= i < |table| && table[i] == Choice(value, Lookup(table, value).value);
      assert i == k;
    } else {
      EmptySlots(tests);
    }
  }

  /** The variant slots hold exactly the fragment the variant table selects. */
  lemma VariantSelection(variant: Option<string>, size: Option<string>, className: Option<string>)
    ensures Present(VariantSlots(ButtonFragments(variant, size, className)))
         == Contribution(Lookup(Variants, WithDefault(variant)))
    ensures CountSome(VariantSlots(ButtonFragments(variant, size, className)))
         == |Contribution(Lookup(Variants, WithDefault(variant)))|
  {
    var r := ButtonFragments(variant, size, className);
    var slots := VariantSlots(r);
    assert forall k :: 0 <= k < |slots| ==> slots[k] == r[FirstVariantSlot + k];
    TablesHaveDistinctNames();
    TestsMatchTable(Variants, WithDefault(variant), slots);
  }

  /** The size slots hold exactly the fragment the size table selects. */
  lemma SizeSelection(variant: Option<string>, size: Option<string>, className: Option<string>)
    ensures Present(SizeSlots(ButtonFragments(variant, size, className)))
         == Contribution(Lookup(Sizes, WithDefault(size)))
    ensures CountSome(SizeSlots(ButtonFragments(variant, size, className)))
         == |Contribution(Lookup(Sizes, WithDefault(size)))|
  {
    var r := ButtonFragments(variant, size, className);
    var slots := SizeSlots(r);
    assert forall k :: 0 <= k < |slots| ==> slots[k] == r[FirstSizeSlot + k];
    TablesHaveDistinctNames();
    TestsMatchTable(Sizes, WithDefault(size), slots);
  }

  /** The fragments `cn` receives: the base first, then at most one variant
      fragment, then at most one size fragment, then the caller's className. */
  lemma ButtonOrder(variant: Option<string>, size: Option<string>, className: Option<string>)
    ensures Present(ButtonFragments(variant, size, className))
         == [Base]
          + Contribution(Lookup(Variants, WithDefault(variant)))
          + Contribution(Lookup(Sizes, WithDefault(size)))
          + Contribution(className)
  {
    var r := ButtonFragments(variant, size, className);
    var head, vs, ss, tail := r[..1], VariantSlots(r), SizeSlots(r), r[ClassNameSlot..];
    assert r == head + vs + ss + tail;
    PresentConcat(head + vs + ss, tail);
    PresentConcat(head + vs, ss);
    PresentConcat(head, vs);
    assert head == [Some(Base)] && tail == [className];
    assert Present(head) == [Base] by {
      assert head[1..] == [];
    }
    assert Present(tail) == Contribution(className) by {
      assert tail[1..] == [];
    }
    VariantSelection(variant, size, className);
    SizeSelection(variant, size, className);
  }

  /** Each known variant selects exactly one variant fragment, its own. */
  lemma KnownVariantSelectsOne(variant: string, size: Option<string>, className: Option<string>, k: nat)
    requires k < |Variants| && Variants[k].name == variant
    ensures CountSome(VariantSlots(ButtonFragments(Some(variant), size, className))) == 1
    ensures Present(VariantSlots(ButtonFragments(Some(variant), size, className))) == [Variants[k].fragment]
  {
    TablesHaveDistinctNames();
    VariantSelection(Some(variant), size, className);
    var i :| 0 <= i < |Variants| && Variants[i] == Choice(variant, Lookup(Variants, variant).value);
    assert i == k;
  }

  /** Each known size selects exactly one size fragment, its own. */
  lemma KnownSizeSelectsOne(variant: Option<string>, size: string, className: Option<string>, k: nat)
    requires k < |Sizes| && Sizes[k].name == size
    ensures CountSome(SizeSlots(ButtonFragments(variant, Some(size), className))) == 1
    ensures Present(SizeSlots(ButtonFragments(variant, Some(size), className))) == [Sizes[k].fragment]
  {
    TablesHaveDistinctNames();
    SizeSelection(variant, Some(size), className);
    var i :| 0 <= i < |Sizes| && Sizes[i] == Choice(size, Lookup(Sizes, size).value);
    assert i == k;
  }

  /** An unrecognised variant and size contribute nothing: only the base and
      the className reach `cn`. */
  lemma UnknownAddsNothing(variant: string, size: string, className: Option<string>)
    requires forall k :: 0 <= k < |Variants| ==> Variants[k].name != variant
    requires forall k :: 0 <= k < |Sizes| ==> Sizes[k].name != size
    ensures Present(ButtonFragments(Some(variant), Some(size), className)) == [Base] + Contribution(className)
  {
    ButtonOrder(Some(variant), Some(size), className);
  }

  /** Omitted variant and size give the primary and the "h-10 px-4 py-2" fragments. */
  lemma DefaultsApply(variant: Option<string>, size: Option<string>, className: Option<string>)
    requires variant.None? && size.None?
    ensures Present(ButtonFragments(variant, size, className))
         == [Base] + [VariantDefault] + [SizeDefault] + Contribution(className)
  {
    DefaultLookups();
    ButtonOrder(variant, size, className);
  }

  lemma DefaultLookups()
    ensures Contribution(Lookup(Variants, WithDefault(None))) == [VariantDefault]
    ensures Contribution(Lookup(Sizes, WithDefault(None))) == [SizeDefault]
  {
  }

  /** The caller's className, when given, is the last fragment present, and
      the base is the first. */
  lemma ClassNameLast(variant: Option<string>, size: Option<string>, c: string)
    ensures var p := Present(ButtonFragments(variant, size, Some(c)));
            |p| >= 2 && p[0] == Base && p[|p| - 1] == c
  {
    ButtonOrder(variant, size, Some(c));
  }
}
