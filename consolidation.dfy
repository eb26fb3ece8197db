/** The per-contig location list of unique_parse_blast: every qualifying hit's `[low, high]`
    is compared with every stored spot, each spot takes the first of five rules that applies,
    and the pair is appended only when no spot took any rule
    (geneseekr/geneseekr.py:465-506). */
module Consolidation {
  import opened Hits

  /** The fuzzy-merge tolerance, in base pairs. */
  const Tolerance: int := 100

  /** The five rules, in the order the source tries them, and "none applies". */
  datatype Rule = WidenLow | WidenHigh | InsideLow | InsideHigh | Same | NoRule

  function RuleFor(spot: Span, low: int, high: int): Rule {
    if 1 <= spot.lo - low <= Tolerance then WidenLow
    else if 1 <= high - spot.hi <= Tolerance then WidenHigh
    else if 1 <= low - spot.lo <= Tolerance then InsideLow
    else if 1 <= spot.hi - high <= Tolerance then InsideHigh
    else if low == spot.lo && high == spot.hi then Same
    else NoRule
  }

  predicate Matches(spot: Span, low: int, high: int) {
    RuleFor(spot, low, high) != NoRule
  }

  /** A spot after the hit `[low, high]` has been compared with it. The spot only widens:
      at most one bound moves, the low bound only to `low` and by 1 to 100, the high bound
      only to `high` and by 1 to 100. */
  function Updated(spot: Span, low: int, high: int): (u: Span)
    ensures u.lo <= spot.lo && spot.hi <= u.hi
    ensures u.lo == spot.lo || (u.lo == low && 1 <= spot.lo - u.lo <= Tolerance)
    ensures u.hi == spot.hi || (u.hi == high && 1 <= u.hi - spot.hi <= Tolerance)
    ensures u.lo == spot.lo || u.hi == spot.hi
    ensures u != spot ==> Matches(spot, low, high)
  {
    match RuleFor(spot, low, high)
    case WidenLow => Span(low, spot.hi)
    case WidenHigh => Span(spot.lo, high)
    case _ => spot
  }

  /** Some spot takes one of the five rules. */
  predicate AnyMatch(spots: seq<Span>, low: int, high: int) {
    spots != [] &&
    (AnyMatch(spots[..|spots| - 1], low, high) || Matches(spots[|spots| - 1], low, high))
  }

  /** Every spot compared with the hit and updated, in list order. */
  function UpdateAll(spots: seq<Span>, low: int, high: int): seq<Span> {
    if spots == [] then []
    else UpdateAll(spots[..|spots| - 1], low, high) + [Updated(spots[|spots| - 1], low, high)]
  }

  /** The location list after one qualifying hit: every spot updated, and `[low, high]`
      appended when no spot matched. */
  function Consolidate(spots: seq<Span>, low: int, high: int): seq<Span> {
    UpdateAll(spots, low, high) + (if AnyMatch(spots, low, high) then [] else [Span(low, high)])
  }

  lemma {:induction false} AnyMatchAt(spots: seq<Span>, low: int, high: int)
    ensures AnyMatch(spots, low, high) <==> exists i :: 0 <= i < |spots| && Matches(spots[i], low, high)
  {
    if spots != [] {
      var init := spots[..|spots| - 1];
      AnyMatchAt(init, low, high);
      if AnyMatch(init, low, high) {
        var i :| 0 <= i < |init| && Matches(init[i], low, high);
        assert spots[i] == init[i];
      }
      if exists i :: 0 <= i < |spots| && Matches(spots[i], low, high) {
        var i :| 0 <= i < |spots| && Matches(spots[i], low, high);
        if i < |init| {
          assert init[i] == spots[i];
        }
      }
    }
  }

  lemma {:induction false} UpdateAllAt(spots: seq<Span>, low: int, high: int)
    ensures |UpdateAll(spots, low, high)| == |spots|
    ensures forall i :: 0 <= i < |spots| ==> UpdateAll(spots, low, high)[i] == Updated(spots[i], low, high)
  {
    if spots != [] {
      UpdateAllAt(spots[..|spots| - 1], low, high);
    }
  }

  /** The list grows by exactly `[low, high]` iff no existing spot matches; otherwise its
      length is unchanged. Either way every existing spot is updated in place. */
  lemma ConsolidateShape(spots: seq<Span>, low: int, high: int)
    ensures var r := Consolidate(spots, low, high);
      && |r| == |spots| + (if AnyMatch(spots, low, high) then 0 else 1)
      && (|r| == |spots| + 1 <==> !exists i :: 0 <= i < |spots| && Matches(spots[i], low, high))
      && (|r| == |spots| <==> exists i :: 0 <= i < |spots| && Matches(spots[i], low, high))
      && (|r| > |spots| ==> r[|spots|] == Span(low, high))
      && forall i :: 0 <= i < |spots| ==> r[i] == Updated(spots[i], low, high)
  {
    AnyMatchAt(spots, low, high);
    UpdateAllAt(spots, low, high);
  }

  /** The loop over all spots with its `append` flag: no spot is skipped once one matched. */
  method MergeSpots(spots: seq<Span>, low: int, high: int) returns (merged: seq<Span>, append: bool)
    ensures merged == Consolidate(spots, low, high)
    ensures append <==> !AnyMatch(spots, low, high)
  {
    append := true;
    var updated := spots;
    var i := 0;
    while i < |updated|
      invariant 0 <= i <= |spots| == |updated|
      invariant forall k :: 0 <= k < i ==> updated[k] == Updated(spots[k], low, high)
      invariant forall k :: i <= k < |spots| ==> updated[k] == spots[k]
      invariant append == !AnyMatch(spots[..i], low, high)
    {
      var spot := updated[i];
      assert spots[..i + 1][..i] == spots[..i];
      if 1 <= spot.lo - low <= Tolerance {
        updated := updated[i := Span(low, spot.hi)];
        append := false;
      } else if 1 <= high - spot.hi <= Tolerance {
        updated := updated[i := Span(spot.lo, high)];
        append := false;
      } else if 1 <= low - spot.lo <= Tolerance {
        append := false;
      } else if 1 <= spot.hi - high <= Tolerance {
        append := false;
      } else if low == spot.lo && high == spot.hi {
        append := false;
      }
      i := i + 1;
    }
    assert spots[..|spots|] == spots;
    UpdateAllAt(spots, low, high);
    assert updated == UpdateAll(spots, low, high);
    if append {
      updated := updated + [Span(low, high)];
    }
    merged := updated;
  }

  predicate Ordered(spots: seq<Span>) {
    forall i :: 0 <= i < |spots| ==> spots[i].lo <= spots[i].hi
  }

  /** Consolidating an ordered hit into ordered spots keeps every spot ordered. */
  lemma ConsolidateKeepsOrdered(spots: seq<Span>, low: int, high: int)
    requires Ordered(spots) && low <= high
    ensures Ordered(Consolidate(spots, low, high))
  {
    var r := Consolidate(spots, low, high);
    ConsolidateShape(spots, low, high);
    forall i | 0 <= i < |r|
      ensures r[i].lo <= r[i].hi
    {
      if i < |spots| {
        var s := spots[i];
        match RuleFor(s, low, high)
        case WidenLow => assert r[i] == Span(low, s.hi);
        case WidenHigh => assert r[i] == Span(s.lo, high);
        case _ => assert r[i] == s;
      }
    }
  }

  /** The location list of one contig after its qualifying hits, in arrival order. The first
      hit starts the list as `[[low, high]]`. */
  function Build(hits: seq<Span>): (r: seq<Span>)
    ensures |r| <= |hits|
    ensures r == [] <==> hits == []
  {
    if hits == [] then []
    else
      var prev := Build(hits[..|hits| - 1]);
      var last := hits[|hits| - 1];
      ConsolidateShape(prev, last.lo, last.hi);
      Consolidate(prev, last.lo, last.hi)
  }

  lemma FirstHitStartsList(h: Span)
    ensures Build([h]) == [h]
  {
    assert [h][..0] == [];
  }

  /** Every bound of a built spot is a bound of some hit: consolidation never invents
      coordinates. */
  lemma {:induction false} BuildBoundsFromHits(hits: seq<Span>)
    ensures forall s :: s in Build(hits) ==>
      (exists h :: h in hits && h.lo == s.lo) && (exists h :: h in hits && h.hi == s.hi)
  {
    if hits != [] {
      var init := hits[..|hits| - 1];
      var last := hits[|hits| - 1];
      var prev := Build(init);
      BuildBoundsFromHits(init);
      ConsolidateShape(prev, last.lo, last.hi);
      var r := Build(hits);
      assert r == Consolidate(prev, last.lo, last.hi);
      forall s | s in r
        ensures (exists h :: h in hits && h.lo == s.lo) && (exists h :: h in hits && h.hi == s.hi)
      {
        var i :| 0 <= i < |r| && r[i] == s;
        assert last in hits;
        if i < |prev| {
          var p := prev[i];
          assert p in prev;
          var hl :| hl in init && hl.lo == p.lo;
          var hh :| hh in init && hh.hi == p.hi;
          assert hl in hits && hh in hits;
        }
      }
    }
  }

  /** Building from ordered hits gives ordered spots. */
  lemma {:induction false} BuildOrdered(hits: seq<Span>)
    requires Ordered(hits)
    ensures Ordered(Build(hits))
  {
    if hits != [] {
      var init := hits[..|hits| - 1];
      var last := hits[|hits| - 1];
      BuildOrdered(init);
      ConsolidateKeepsOrdered(Build(init), last.lo, last.hi);
    }
  }

  /** A hit that starts one base earlier and ends three bases earlier widens the spot's low
      bound only; a hit that starts at the spot's end is a new location. */
  lemma WideningExamples()
    ensures Consolidate([Span(2494, 3296)], 2493, 3293) == [Span(2493, 3296)]
    ensures Consolidate([Span(2494, 3296)], 3296, 4132) == [Span(2494, 3296), Span(3296, 4132)]
    ensures Consolidate([Span(100, 500)], 105, 520) == [Span(100, 520)]
  {
    assert Matches([Span(2494, 3296)][0], 2493, 3293);
    ConsolidateShape([Span(2494, 3296)], 2493, 3293);
    ConsolidateShape([Span(2494, 3296)], 3296, 4132);
    assert Matches([Span(100, 500)][0], 105, 520);
    ConsolidateShape([Span(100, 500)], 105, 520);
  }

  /** The loop does not stop at the first matching spot: both spots widen here. */
  lemma EverySpotVisited()
    ensures Consolidate([Span(1000, 2000), Span(1050, 2100)], 990, 2050)
         == [Span(990, 2000), Span(990, 2100)]
  {
    var spots := [Span(1000, 2000), Span(1050, 2100)];
    assert Matches(spots[0], 990, 2050);
    ConsolidateShape(spots, 990, 2050);
  }

  /** The result depends on arrival order: the same three hits in two orders. */
  lemma OrderSensitive()
    ensures Build([Span(1000, 2000), Span(1150, 2000), Span(1050, 2000)])
         == [Span(1000, 2000), Span(1050, 2000)]
    ensures Build([Span(1000, 2000), Span(1050, 2000), Span(1150, 2000)])
         == [Span(1000, 2000), Span(1150, 2000)]
  {
    var a, b, c := Span(1000, 2000), Span(1150, 2000), Span(1050, 2000);
    FirstHitStartsList(a);
    assert [a, b, c][..2] == [a, b] && [a, b][..1] == [a];
    assert [a, c, b][..2] == [a, c] && [a, c][..1] == [a];
    assert !Matches([a][0], b.lo, b.hi);
    ConsolidateShape([a], b.lo, b.hi);
    assert Build([a, b]) == [a, b];
    assert Matches([a][0], c.lo, c.hi);
    ConsolidateShape([a], c.lo, c.hi);
    assert Build([a, c]) == [a];
    assert Matches([a, b][0], c.lo, c.hi);
    ConsolidateShape([a, b], c.lo, c.hi);
    ConsolidateShape([a], b.lo, b.hi);
  }
}
