/**
 * Renderable.java and Canvas.java: render priorities, and the canvas that keeps
 * its renderables ordered by priority with explicitly layered ones slotted in.
 */
module Rendering {
  import opened Wrappers
  import opened Seqs

  /** Renderable.Priority, in declaration order. */
  datatype Priority = Lowest | Low | Default | High | Highest

  /** Priority.values(). */
  function Values(): seq<Priority> {
    [Lowest, Low, Default, High, Highest]
  }

  /** The enum's ordinal, which is also what `Comparator.comparing(Renderable::priority)` compares. */
  function Ordinal(p: Priority): nat {
    match p
    case Lowest => 0
    case Low => 1
    case Default => 2
    case High => 3
    case Highest => 4
  }

  /** The scan of indexOf from position `i` on; `None` is the null argument, which no value equals. */
  function IndexFrom(p: Option<Priority>, i: nat): (r: nat)
    requires i <= |Values()|
    ensures r < |Values()|
    ensures (exists j :: i <= j < |Values()| && Some(Values()[j]) == p) ==> i <= r && Some(Values()[r]) == p
    ensures (forall j :: i <= j < |Values()| ==> Some(Values()[j]) != p) ==> r == 0
    decreases |Values()| - i
  {
    if i == |Values()| then 0
    else if Some(Values()[i]) == p then i
    else IndexFrom(p, i + 1)
  }

  /** indexOf: the position of `p` in values(), or 0 when there is none. */
  function IndexOf(p: Option<Priority>): (r: nat)
    ensures r < |Values()|
    ensures p.Some? ==> Values()[r] == p.value
    ensures p.None? ==> r == 0
  {
    if p.Some? then
      assert Some(Values()[Ordinal(p.value)]) == p;
      IndexFrom(p, 0)
    else
      IndexFrom(p, 0)
  }

  /** isHigherThan: `this` (never null) against a possibly-null argument. */
  predicate IsHigherThan(p: Priority, q: Option<Priority>)
    ensures IsHigherThan(p, q) <==> Ordinal(p) > (if q.Some? then Ordinal(q.value) else 0)
  {
    IndexOf(Some(p)) > IndexOf(q)
  }

  /** The scan finds each priority at its ordinal. */
  lemma IndexOfIsOrdinal(p: Priority)
    ensures IndexOf(Some(p)) == Ordinal(p)
  {
    var r := IndexOf(Some(p));
    assert Values()[r] == p;
    assert Values()[Ordinal(p)] == p;
  }

  /** A null argument ranks like LOWEST. */
  lemma NullRanksLowest(p: Priority)
    ensures IsHigherThan(p, None) == IsHigherThan(p, Some(Lowest))
  {
    IndexOfIsOrdinal(Lowest);
  }

  /** isHigherThan compares ordinals: it is the strict declaration order. */
  lemma HigherMeansLaterDeclared(p: Priority, q: Priority)
    ensures IsHigherThan(p, Some(q)) <==> Ordinal(p) > Ordinal(q)
  {
    IndexOfIsOrdinal(p);
    IndexOfIsOrdinal(q);
  }

  lemma HigherIrreflexive(p: Priority)
    ensures !IsHigherThan(p, Some(p))
  {
    HigherMeansLaterDeclared(p, p);
  }

  lemma HigherAsymmetric(p: Priority, q: Priority)
    ensures IsHigherThan(p, Some(q)) ==> !IsHigherThan(q, Some(p))
  {
    HigherMeansLaterDeclared(p, q);
    HigherMeansLaterDeclared(q, p);
  }

  lemma HigherTransitive(p: Priority, q: Priority, r: Priority)
    requires IsHigherThan(p, Some(q)) && IsHigherThan(q, Some(r))
    ensures IsHigherThan(p, Some(r))
  {
    HigherMeansLaterDeclared(p, q);
    HigherMeansLaterDeclared(q, r);
    HigherMeansLaterDeclared(p, r);
  }

  /** Two different priorities are always comparable. */
  lemma HigherTotal(p: Priority, q: Priority)
    requires p != q
    ensures IsHigherThan(p, Some(q)) || IsHigherThan(q, Some(p))
  {
    HigherMeansLaterDeclared(p, q);
    HigherMeansLaterDeclared(q, p);
  }

  /** LOWEST < LOW < DEFAULT < HIGH < HIGHEST. */
  lemma DeclarationOrder()
    ensures IsHigherThan(Low, Some(Lowest)) && IsHigherThan(Default, Some(Low))
    ensures IsHigherThan(High, Some(Default)) && IsHigherThan(Highest, Some(High))
  {
    HigherMeansLaterDeclared(Low, Lowest);
    HigherMeansLaterDeclared(Default, Low);
    HigherMeansLaterDeclared(High, Default);
    HigherMeansLaterDeclared(Highest, High);
  }

  /** What `layer()` returns unless a renderable overrides it. */
  const DEFAULT_LAYER: int := -1

  /**
   * A renderable as the canvas sees it: an identity (Java compares renderables by
   * reference), its priority and its layer. Visibility changes while it sits on a
   * canvas, so it is passed to Render instead.
   */
  datatype Renderable = Renderable(id: nat, priority: Priority, layer: int)

  function PriorityKey(r: Renderable): int {
    Ordinal(r.priority)
  }

  function LayerKey(r: Renderable): int {
    r.layer
  }

  predicate IsLayered(r: Renderable) {
    r.layer >= 0
  }

  predicate IsUnlayered(r: Renderable) {
    r.layer < 0
  }

  /** One step of the insertion loop: at index `layer` if the list is longer, else at the end. */
  function Place(u: seq<Renderable>, r: Renderable): (v: seq<Renderable>)
    requires IsLayered(r)
    ensures |v| == |u| + 1 && r in v
    ensures forall x :: x in u ==> x in v
  {
    var k := if |u| > r.layer then r.layer else |u|;
    u[..k] + [r] + u[k..]
  }

  /** The insertion loop over `ls`, front to back, skipping unlayered renderables. */
  function PlaceAll(u: seq<Renderable>, ls: seq<Renderable>): (r: seq<Renderable>)
    ensures |r| >= |u|
    ensures forall x :: x in u ==> x in r
    decreases |ls|
  {
    if ls == [] then u
    else PlaceAll(if IsLayered(ls[0]) then Place(u, ls[0]) else u, ls[1..])
  }

  /**
   * The order sortRenderables produces: the unlayered renderables sorted (stably) by
   * priority, then the layered ones placed one by one in (stable) layer order.
   */
  function Arrange(rs: seq<Renderable>): (r: seq<Renderable>)
    ensures |r| == |rs|
  {
    var byPriority, byLayer := SortBy(rs, PriorityKey), SortBy(rs, LayerKey);
    PlaceAllMultiset(Filter(byPriority, IsUnlayered), byLayer);
    SortByMultiset(rs, PriorityKey);
    SortByMultiset(rs, LayerKey);
    FilterPermutes(byPriority, rs, IsUnlayered);
    FilterPermutes(byLayer, rs, IsLayered);
    FilterSplit(rs, IsUnlayered, IsLayered);
    PlaceAll(Filter(SortBy(rs, PriorityKey), IsUnlayered), SortBy(rs, LayerKey))
  }

  /** Where Place puts the renderable, and that the rest keeps its order around it. */
  lemma PlacePosition(u: seq<Renderable>, r: Renderable)
    requires IsLayered(r)
    ensures |Place(u, r)| == |u| + 1
    ensures |u| > r.layer ==>
      (Place(u, r)[r.layer] == r && Place(u, r)[..r.layer] == u[..r.layer] && Place(u, r)[r.layer + 1..] == u[r.layer..])
    ensures |u| <= r.layer ==> Place(u, r) == u + [r]
  {
  }

  lemma PlaceMultiset(u: seq<Renderable>, r: Renderable)
    requires IsLayered(r)
    ensures multiset(Place(u, r)) == multiset(u) + multiset{r}
  {
    var k := if |u| > r.layer then r.layer else |u|;
    assert u == u[..k] + u[k..];
  }

  lemma {:induction false} PlaceAllMultiset(u: seq<Renderable>, ls: seq<Renderable>)
    ensures multiset(PlaceAll(u, ls)) == multiset(u) + multiset(Filter(ls, IsLayered))
    decreases |ls|
  {
    if ls != [] {
      var x, rest := ls[0], ls[1..];
      var u' := if IsLayered(x) then Place(u, x) else u;
      PlaceAllMultiset(u', rest);
      LayeredFront(ls);
      if IsLayered(x) {
        PlaceMultiset(u, x);
      }
    }
  }

  /** Filtering a non-empty sequence for the layered ones, seen from its front. */
  lemma LayeredFront(ls: seq<Renderable>)
    requires ls != []
    ensures multiset(Filter(ls, IsLayered))
      == (if IsLayered(ls[0]) then multiset{ls[0]} else multiset{}) + multiset(Filter(ls[1..], IsLayered))
  {
    assert ls == [ls[0]] + ls[1..];
    FilterConcat([ls[0]], ls[1..], IsLayered);
    FilterSingle(ls[0], IsLayered);
  }

  /** Placing a layered renderable does not disturb the unlayered ones. */
  lemma PlaceKeepsUnlayered(u: seq<Renderable>, r: Renderable)
    requires IsLayered(r)
    ensures Filter(Place(u, r), IsUnlayered) == Filter(u, IsUnlayered)
  {
    var k := if |u| > r.layer then r.layer else |u|;
    assert u == u[..k] + u[k..];
    FilterConcat(u[..k] + [r], u[k..], IsUnlayered);
    FilterConcat(u[..k], [r], IsUnlayered);
    FilterSingle(r, IsUnlayered);
    FilterConcat(u[..k], u[k..], IsUnlayered);
  }

  lemma {:induction false} PlaceAllKeepsUnlayered(u: seq<Renderable>, ls: seq<Renderable>)
    ensures Filter(PlaceAll(u, ls), IsUnlayered) == Filter(u, IsUnlayered)
    decreases |ls|
  {
    if ls != [] {
      var u' := if IsLayered(ls[0]) then Place(u, ls[0]) else u;
      PlaceAllKeepsUnlayered(u', ls[1..]);
      if IsLayered(ls[0]) {
        PlaceKeepsUnlayered(u, ls[0]);
      }
    }
  }

  lemma {:induction false} PlaceAllConcat(u: seq<Renderable>, a: seq<Renderable>, b: seq<Renderable>)
    ensures PlaceAll(u, a + b) == PlaceAll(PlaceAll(u, a), b)
    decreases |a|
  {
    if a != [] {
      assert (a + b)[0] == a[0] && (a + b)[1..] == a[1..] + b;
      PlaceAllConcat(if IsLayered(a[0]) then Place(u, a[0]) else u, a[1..], b);
    } else {
      assert a + b == b;
    }
  }

  /** The loop only acts on layered renderables: skipping the others changes nothing. */
  lemma {:induction false} PlaceAllSkipsUnlayered(u: seq<Renderable>, ls: seq<Renderable>)
    ensures PlaceAll(u, ls) == PlaceAll(u, Filter(ls, IsLayered))
    decreases |ls|
  {
    if ls != [] {
      var init, last := ls[..|ls| - 1], ls[|ls| - 1];
      assert ls == init + [last];
      PlaceAllSkipsUnlayered(u, init);
      PlaceAllConcat(u, init, [last]);
      FilterConcat(init, [last], IsLayered);
      FilterSingle(last, IsLayered);
      var tail := if IsLayered(last) then [last] else [];
      PlaceAllConcat(u, Filter(init, IsLayered), tail);
      assert PlaceAll(PlaceAll(u, init), [last]) == PlaceAll(PlaceAll(u, init), tail);
    }
  }

  /**
   * The layered renderables are exactly those of the input, and they are inserted
   * one at a time in ascending layer order (ties in their former order).
   */
  lemma LayeredInsertionOrder(rs: seq<Renderable>)
    ensures Arrange(rs) == PlaceAll(Filter(SortBy(rs, PriorityKey), IsUnlayered), Filter(SortBy(rs, LayerKey), IsLayered))
    ensures SortedBy(Filter(SortBy(rs, LayerKey), IsLayered), LayerKey)
    ensures multiset(Filter(SortBy(rs, LayerKey), IsLayered)) == multiset(Filter(rs, IsLayered))
  {
    var byLayer := SortBy(rs, LayerKey);
    PlaceAllSkipsUnlayered(Filter(SortBy(rs, PriorityKey), IsUnlayered), byLayer);
    SortBySorted(rs, LayerKey);
    FilterSorted(byLayer, IsLayered, LayerKey);
    SortByMultiset(rs, LayerKey);
    FilterPermutes(byLayer, rs, IsLayered);
  }

  /** Place is the source's two cases: insert at index `layer`, or append. */
  lemma PlaceCases(u: seq<Renderable>, r: Renderable)
    requires IsLayered(r)
    ensures Place(u, r) == if |u| > r.layer then u[..r.layer] + [r] + u[r.layer..] else u + [r]
  {
    if |u| <= r.layer {
      assert u[..|u|] == u && u[|u|..] == [];
    }
  }

  /** One iteration of the insertion loop. */
  lemma PlaceAllStep(u: seq<Renderable>, ls: seq<Renderable>, i: nat)
    requires i < |ls|
    ensures PlaceAll(u, ls[i..]) == PlaceAll(if IsLayered(ls[i]) then Place(u, ls[i]) else u, ls[i + 1..])
  {
    assert ls[i..][0] == ls[i] && ls[i..][1..] == ls[i + 1..];
  }

  /** sortRenderables only reorders: the multiset of renderables is preserved. */
  lemma ArrangePermutes(rs: seq<Renderable>)
    ensures multiset(Arrange(rs)) == multiset(rs)
  {
    var byPriority, byLayer := SortBy(rs, PriorityKey), SortBy(rs, LayerKey);
    PlaceAllMultiset(Filter(byPriority, IsUnlayered), byLayer);
    SortByMultiset(rs, PriorityKey);
    SortByMultiset(rs, LayerKey);
    FilterPermutes(byPriority, rs, IsUnlayered);
    FilterPermutes(byLayer, rs, IsLayered);
    FilterSplit(rs, IsUnlayered, IsLayered);
  }

  /**
   * After sorting, the unlayered renderables are exactly those of the input, in
   * non-decreasing priority order, and equal priorities keep their former order.
   */
  lemma ArrangeUnlayeredByPriority(rs: seq<Renderable>)
    ensures Filter(Arrange(rs), IsUnlayered) == Filter(SortBy(rs, PriorityKey), IsUnlayered)
    ensures SortedBy(Filter(Arrange(rs), IsUnlayered), PriorityKey)
    ensures multiset(Filter(Arrange(rs), IsUnlayered)) == multiset(Filter(rs, IsUnlayered))
  {
    var byPriority := SortBy(rs, PriorityKey);
    var u := Filter(byPriority, IsUnlayered);
    PlaceAllKeepsUnlayered(u, SortBy(rs, LayerKey));
    FilterTwice(byPriority, IsUnlayered, IsUnlayered, IsUnlayered);
    SortBySorted(rs, PriorityKey);
    FilterSorted(byPriority, IsUnlayered, PriorityKey);
    SortByMultiset(rs, PriorityKey);
    FilterPermutes(byPriority, rs, IsUnlayered);
  }

  /** The canvas: its renderables in drawing order, and the copy a frame draws from. */
  class Canvas {
    var renderables: seq<Renderable>
    var renderBuffer: seq<Renderable>

    constructor ()
      ensures renderables == [] && renderBuffer == []
    {
      renderables := [];
      renderBuffer := [];
    }

    /** addRenderable: append, then re-sort. */
    method AddRenderable(r: Renderable)
      modifies this`renderables
      ensures renderables == Arrange(old(renderables) + [r])
      ensures multiset(renderables) == multiset(old(renderables)) + multiset{r}
    {
      renderables := renderables + [r];
      SortRenderables();
    }

    /** removeRenderable: drop the first occurrence (if any), then re-sort. */
    method RemoveRenderable(r: Renderable)
      modifies this`renderables
      ensures renderables == Arrange(RemoveFirst(old(renderables), r))
      ensures multiset(renderables) == multiset(old(renderables)) - multiset{r}
    {
      RemoveFirstMultiset(renderables, r);
      renderables := RemoveFirst(renderables, r);
      SortRenderables();
    }

    /** getRenderables: a copy of the current list. */
    method GetRenderables() returns (copy: seq<Renderable>)
      ensures copy == renderables
    {
      copy := renderables;
    }

    /** clearRenderables: empties the list (without re-sorting). */
    method ClearRenderables()
      modifies this`renderables
      ensures renderables == []
    {
      renderables := [];
    }

    /** sortRenderables, step by step as the source does it. */
    method SortRenderables()
      modifies this`renderables
      ensures renderables == Arrange(old(renderables))
      ensures multiset(renderables) == multiset(old(renderables))
    {
      ArrangePermutes(renderables);
      ghost var target := Arrange(renderables);
      var updated := SortBy(renderables, PriorityKey);
      updated := Filter(updated, IsUnlayered);
      var byLayer := SortBy(renderables, LayerKey);
      renderables := byLayer;
      var i := 0;
      while i < |byLayer|
        invariant 0 <= i <= |byLayer|
        invariant PlaceAll(updated, byLayer[i..]) == target
      {
        var r := byLayer[i];
        PlaceAllStep(updated, byLayer, i);
        if r.layer >= 0 {
          PlaceCases(updated, r);
          if |updated| > r.layer {
            updated := updated[..r.layer] + [r] + updated[r.layer..];
          } else {
            updated := updated + [r];
          }
        }
        i := i + 1;
      }
      renderables := updated;
    }

    /**
     * render: snapshot the list into renderBuffer, then draw the visible ones in
     * order. `visible` is each renderable's visibility at drawing time; the result
     * is the sequence drawn.
     */
    method Render(visible: Renderable -> bool) returns (drawn: seq<Renderable>)
      modifies this`renderBuffer
      ensures renderBuffer == renderables
      ensures drawn == Filter(renderables, visible)
    {
      renderBuffer := renderables;
      drawn := [];
      var i := 0;
      while i < |renderBuffer|
        invariant 0 <= i <= |renderBuffer|
        invariant renderBuffer == renderables
        invariant drawn == Filter(renderBuffer[..i], visible)
      {
        FilterPrefixStep(renderBuffer, i, visible);
        if visible(renderBuffer[i]) {
          drawn := drawn + [renderBuffer[i]];
        }
        i := i + 1;
      }
      assert renderBuffer[..i] == renderBuffer;
    }
  }

  /** What render draws: only visible renderables, each of them, in list order. */
  lemma RenderDrawsVisible(rs: seq<Renderable>, visible: Renderable -> bool)
    ensures forall i :: 0 <= i < |Filter(rs, visible)| ==> visible(Filter(rs, visible)[i]) && Filter(rs, visible)[i] in rs
    ensures forall i :: 0 <= i < |rs| && visible(rs[i]) ==> rs[i] in Filter(rs, visible)
  {
    FilterKeeps(rs, visible);
  }
}
