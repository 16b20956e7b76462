/** Argument lists handed to the class-name composer `cn`.

    The components build their class names by passing `cn` an ordered list of
    arguments, each either a class fragment or a falsy value (the result of
    `cond && "fragment"` when `cond` is false, or an omitted `className`).
    `cn` itself is not part of this model; what is modelled is the list it is
    given, and `Present` is the sub-list of fragments that are actually there.
 */
module ClassFragments {
  import opened Options
  import opened Counting

  /** Each argument slot holds a fragment, or a falsy value (None). */
  type Fragments = seq<Option<string>>

  /** `cond && fragment`: the fragment when the condition holds, falsy otherwise. */
  function When(cond: bool, fragment: string): (r: Option<string>)
    ensures r.Some? <==> cond
    ensures r.Some? ==> r.value == fragment
  {
    if cond then Some(fragment) else None
  }

  /** The list of the zero or one fragments an optional slot contributes. */
  function Contribution(o: Option<string>): (r: seq<string>)
    ensures |r| <= 1
    ensures o.None? ==> r == []
    ensures o.Some? ==> r == [o.value]
  {
    match o
    case Some(x) => [x]
    case None => []
  }

  /** The fragments that are present, in argument order. */
  function Present(fs: Fragments): (r: seq<string>)
    ensures |r| <= |fs|
    ensures forall x :: x in r <==> Some(x) in fs
  {
    if fs == [] then []
    else
      assert fs == [fs[0]] + fs[1..];
      Contribution(fs[0]) + Present(fs[1..])
  }

  /** For each slot, whether it holds a fragment. */
  function Filled(fs: Fragments): (r: seq<bool>)
    ensures |r| == |fs|
    ensures forall i :: 0 <= i < |fs| ==> (r[i] <==> fs[i].Some?)
  {
    seq(|fs|, i requires 0 <= i < |fs| => fs[i].Some?)
  }

  /** Number of slots that hold a fragment. */
  function CountSome(fs: Fragments): (n: nat)
    ensures n <= |fs|
    ensures n == 0 <==> forall i :: 0 <= i < |fs| ==> fs[i].None?
  {
    CountTrue(Filled(fs))
  }

  /** Presence distributes over concatenation, so argument order is kept. */
  lemma {:induction false} PresentConcat(a: Fragments, b: Fragments)
    ensures Present(a + b) == Present(a) + Present(b)
  {
    if a == [] {
      assert a + b == b;
    } else {
      assert (a + b)[1..] == a[1..] + b;
      PresentConcat(a[1..], b);
    }
  }

  /** A slot list with exactly one filled slot at `k`: that slot's fragment is
      the only one present, and exactly one slot is counted. */
  lemma {:induction false} SingleSlot(fs: Fragments, k: nat)
    requires k < |fs|
    requires fs[k].Some?
    requires forall i :: 0 <= i < |fs| && i != k ==> fs[i].None?
    ensures Present(fs) == [fs[k].value]
    ensures CountSome(fs) == 1
  {
    CountSingle(Filled(fs), k);
    if k == 0 {
      EmptySlots(fs[1..]);
    } else {
      SingleSlot(fs[1..], k - 1);
    }
  }

  /** A slot list with no filled slot contributes nothing. */
  lemma EmptySlots(fs: Fragments)
    requires forall i :: 0 <= i < |fs| ==> fs[i].None?
    ensures Present(fs) == []
    ensures CountSome(fs) == 0
  {
  }
}
