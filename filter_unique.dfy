/** filter_unique (geneseekr/geneseekr.py:526-605): the rows of each contig are filed under
    every consolidated location they overlap, and each location keeps at most one best row,
    never repeating a gene within the contig. */
module FilterUnique {
  import opened Hits
  import opened UniqueParse

  function Max(a: int, b: int): int {
    if a < b then b else a
  }

  function Min(a: int, b: int): int {
    if a < b then a else b
  }

  /** `set(range(low, high))` meets `set(range(lo, hi))`: the half-open ranges share a base. */
  predicate Overlaps(h: Hit, loc: Span) {
    Max(h.low, loc.lo) < Min(h.high, loc.hi)
  }

  predicate InRange(x: int, lo: int, hi: int) {
    lo <= x < hi
  }

  lemma OverlapsIffSharedBase(h: Hit, loc: Span)
    ensures Overlaps(h, loc) <==> exists x :: InRange(x, h.low, h.high) && InRange(x, loc.lo, loc.hi)
  {
    if Overlaps(h, loc) {
      var x := Max(h.low, loc.lo);
      assert InRange(x, h.low, h.high) && InRange(x, loc.lo, loc.hi);
    }
  }

  /** Genes that sit back to back, such as 2557-3393 and 3393-4196, do not overlap: the shared
      end base is excluded from both ranges. */
  lemma BackToBack(h: Hit)
    requires h.low == 2557 && h.high == 3393
    ensures !Overlaps(h, Span(3393, 4196))
    ensures !exists x :: InRange(x, h.low, h.high) && InRange(x, 3393, 4196)
  {
    OverlapsIffSharedBase(h, Span(3393, 4196));
  }

  /** The rows of a contig that overlap one location, in row order. */
  function Matching(hits: seq<Hit>, loc: Span): seq<Hit> {
    if hits == [] then []
    else
      var last := hits[|hits| - 1];
      Matching(hits[..|hits| - 1], loc) + (if Overlaps(last, loc) then [last] else [])
  }

  lemma {:induction false} MatchingMembers(hits: seq<Hit>, loc: Span)
    ensures forall h :: h in Matching(hits, loc) <==> h in hits && Overlaps(h, loc)
  {
    if hits != [] {
      var init, last := hits[..|hits| - 1], hits[|hits| - 1];
      assert hits == init + [last];
      MatchingMembers(init, loc);
    }
  }

  /** `rowdict[contig]`: the location keys in the order their first row was filed, and the
      rows filed under each key. A location is keyed by its two bounds (the `'lo,hi'` string). */
  datatype Grouping = Grouping(order: seq<Span>, groups: map<Span, seq<Hit>>)

  /** All of a contig's rows that overlap `loc`, filed under `loc` after those already there. */
  function FileLocation(g: Grouping, loc: Span, hits: seq<Hit>): Grouping {
    var m := Matching(hits, loc);
    if m == [] then g
    else if loc in g.groups then Grouping(g.order, g.groups[loc := g.groups[loc] + m])
    else Grouping(g.order + [loc], g.groups[loc := m])
  }

  /** The grouping of one contig: its locations in list order, each against all its rows. */
  function Group(ranges: seq<Span>, hits: seq<Hit>): Grouping {
    if ranges == [] then Grouping([], map[])
    else FileLocation(Group(ranges[..|ranges| - 1], hits), ranges[|ranges| - 1], hits)
  }

  function Repeat(m: seq<Hit>, k: nat): seq<Hit> {
    if k == 0 then [] else Repeat(m, k - 1) + m
  }

  lemma {:induction false} RepeatMembers(m: seq<Hit>, k: nat)
    ensures forall h :: h in Repeat(m, k) <==> k > 0 && h in m
  {
    if k > 0 {
      RepeatMembers(m, k - 1);
    }
  }

  /** One row filed under a location key: appended to the key's group, or starting it. */
  function Insert(g: Grouping, loc: Span, h: Hit): Grouping {
    if loc in g.groups then Grouping(g.order, g.groups[loc := g.groups[loc] + [h]])
    else Grouping(g.order + [loc], g.groups[loc := [h]])
  }

  lemma FileStep(g: Grouping, loc: Span, hits: seq<Hit>, h: Hit)
    ensures FileLocation(g, loc, hits + [h])
         == if Overlaps(h, loc) then Insert(FileLocation(g, loc, hits), loc, h) else FileLocation(g, loc, hits)
  {
    assert (hits + [h])[..|hits|] == hits;
    var m := Matching(hits, loc);
    assert Matching(hits + [h], loc) == m + (if Overlaps(h, loc) then [h] else []);
    if !Overlaps(h, loc) {
      assert m + [] == m;
    } else if m == [] {
      assert m + [h] == [h];
    } else if loc in g.groups {
      var x := g.groups[loc] + m;
      assert x + [h] == g.groups[loc] + (m + [h]);
      assert g.groups[loc := x][loc := x + [h]] == g.groups[loc := x + [h]];
    } else {
      assert g.groups[loc := m][loc := m + [h]] == g.groups[loc := m + [h]];
    }
  }

  /** A location has a group iff it is one of the contig's locations and some row overlaps it. */
  lemma {:induction false} GroupDomain(ranges: seq<Span>, hits: seq<Hit>)
    ensures forall loc :: loc in Group(ranges, hits).groups <==> loc in ranges && Matching(hits, loc) != []
  {
    if ranges != [] {
      var init := ranges[..|ranges| - 1];
      assert ranges == init + [ranges[|ranges| - 1]];
      GroupDomain(init, hits);
    }
  }

  /** The order lists each keyed location once, and no group is empty. */
  lemma {:induction false} GroupOrder(ranges: seq<Span>, hits: seq<Hit>)
    ensures var g := Group(ranges, hits);
      && (forall loc :: loc in g.order <==> loc in g.groups)
      && (forall loc :: loc in g.groups ==> g.groups[loc] != [])
      && Distinct(g.order)
  {
    if ranges != [] {
      GroupOrder(ranges[..|ranges| - 1], hits);
    }
  }

  /** How many times a location occurs in the list. */
  function Count(ranges: seq<Span>, loc: Span): nat {
    if ranges == [] then 0
    else Count(ranges[..|ranges| - 1], loc) + (if ranges[|ranges| - 1] == loc then 1 else 0)
  }

  lemma {:induction false} CountZero(ranges: seq<Span>, loc: Span)
    requires loc !in ranges
    ensures Count(ranges, loc) == 0
  {
    if ranges != [] {
      var init := ranges[..|ranges| - 1];
      assert ranges == init + [ranges[|ranges| - 1]];
      CountZero(init, loc);
    }
  }

  /** A location's group is the rows that overlap it in row order, once for every time the
      location occurs in the list (equal locations share one key). */
  lemma {:induction false} GroupContents(ranges: seq<Span>, hits: seq<Hit>, loc: Span)
    requires loc in Group(ranges, hits).groups
    ensures Group(ranges, hits).groups[loc] == Repeat(Matching(hits, loc), Count(ranges, loc))
  {
    var init, last := ranges[..|ranges| - 1], ranges[|ranges| - 1];
    var g0 := Group(init, hits);
    if loc in g0.groups {
      GroupContents(init, hits, loc);
    } else {
      GroupDomain(init, hits);
      GroupOrder(init, hits);
      CountZero(init, loc);
      assert Repeat(Matching(hits, loc), 1) == Matching(hits, loc);
    }
  }

  /** The grouping loops: every location against every row, each overlapping row filed under
      the location's key, a new key started on its first row. */
  method GroupContig(ranges: seq<Span>, hits: seq<Hit>) returns (g: Grouping)
    ensures g == Group(ranges, hits)
  {
    var order: seq<Span> := [];
    var groups: map<Span, seq<Hit>> := map[];
    for i := 0 to |ranges|
      invariant Grouping(order, groups) == Group(ranges[..i], hits)
    {
      var loc := ranges[i];
      ghost var g0 := Grouping(order, groups);
      for j := 0 to |hits|
        invariant Grouping(order, groups) == FileLocation(g0, loc, hits[..j])
      {
        var h := hits[j];
        assert hits[..j + 1] == hits[..j] + [h];
        FileStep(g0, loc, hits[..j], h);
        if Overlaps(h, loc) {
          if loc in groups {
            groups := groups[loc := groups[loc] + [h]];
          } else {
            order := order + [loc];
            groups := groups[loc := [h]];
          }
        }
      }
      assert hits[..|hits|] == hits;
      assert ranges[..i + 1] == ranges[..i] + [loc];
    }
    assert ranges[..|ranges|] == ranges;
    g := Grouping(order, groups);
  }

  /** The genes chosen so far, in choice order: the `genes` list. */
  function Subjects(hits: seq<Hit>): (r: seq<string>)
    ensures |r| == |hits|
  {
    if hits == [] then [] else Subjects(hits[..|hits| - 1]) + [hits[|hits| - 1].subjectId]
  }

  /** Entry i of the list is the gene of row i. */
  lemma {:induction false} SubjectsAt(hits: seq<Hit>)
    ensures forall i :: 0 <= i < |hits| ==> Subjects(hits)[i] == hits[i].subjectId
  {
    if hits != [] {
      SubjectsAt(hits[..|hits| - 1]);
    }
  }

  /** `max` over a group's percent identities. */
  function MaxPercent(g: seq<Hit>): nat
    requires g != []
  {
    var last := g[|g| - 1];
    if |g| == 1 then last.percent
    else
      var m := MaxPercent(g[..|g| - 1]);
      if m < last.percent then last.percent else m
  }

  /** The maximum bounds every identity of the group and is attained by one of its rows. */
  lemma {:induction false} MaxPercentIsMax(g: seq<Hit>)
    requires g != []
    ensures forall h :: h in g ==> h.percent <= MaxPercent(g)
    ensures exists h :: h in g && h.percent == MaxPercent(g)
  {
    if |g| > 1 {
      var init := g[..|g| - 1];
      var last := g[|g| - 1];
      assert g == init + [last];
      MaxPercentIsMax(init);
      var w :| w in init && w.percent == MaxPercent(init);
      assert w in g;
      if MaxPercent(init) < last.percent {
        assert last in g && last.percent == MaxPercent(g);
      } else {
        assert w.percent == MaxPercent(g);
      }
    } else {
      assert g[0] in g && g[0].percent == MaxPercent(g);
    }
  }

  /** A row may be chosen: it has the group's top identity and its gene is not yet taken. */
  predicate Eligible(h: Hit, top: nat, genes: seq<string>) {
    h.percent == top && h.subjectId !in genes
  }

  /** The index of the first eligible row, or `|g|` when there is none. */
  function FirstEligible(g: seq<Hit>, top: nat, genes: seq<string>): (k: nat)
    ensures k <= |g|
    ensures k < |g| ==> Eligible(g[k], top, genes)
    ensures forall i :: 0 <= i < k ==> !Eligible(g[i], top, genes)
  {
    if g == [] then 0
    else if Eligible(g[0], top, genes) then 0
    else 1 + FirstEligible(g[1..], top, genes)
  }

  /** The row a location keeps, if any: the first row with the group's top identity whose gene
      was not chosen earlier on this contig. Nothing is kept when every top row's gene is
      taken, even if a lower row has a fresh gene. */
  function Best(g: seq<Hit>, genes: seq<string>): (r: seq<Hit>)
    ensures |r| <= 1
  {
    if g == [] then []
    else
      var k := FirstEligible(g, MaxPercent(g), genes);
      if k < |g| then [g[k]] else []
  }

  /** There is no fallback to a lower identity: when the top row's gene is taken, a lower row
      with a fresh gene is not kept; with nothing taken the top row is. */
  lemma NoLowerFallback(top: Hit, lower: Hit)
    requires lower.percent < top.percent && lower.subjectId != top.subjectId
    ensures Best([top, lower], [top.subjectId]) == []
    ensures Best([top, lower], []) == [top]
  {
    var g := [top, lower];
    assert g[..1] == [top];
    assert MaxPercent(g) == top.percent;
    assert FirstEligible(g[1..][1..], top.percent, [top.subjectId]) == 0;
  }

  /** The rows chosen on one contig, location by location in key order. */
  function Select(order: seq<Span>, groups: map<Span, seq<Hit>>): (s: seq<Hit>)
    ensures |s| <= |order|
  {
    if order == [] then []
    else
      var prev := Select(order[..|order| - 1], groups);
      var loc := order[|order| - 1];
      prev + Best(if loc in groups then groups[loc] else [], Subjects(prev))
  }

  /** Each location, in key order, adds at most one row, taken from its own group, after
      the rows of the locations before it. */
  lemma SelectPerLocation(order: seq<Span>, groups: map<Span, seq<Hit>>)
    requires order != []
    ensures var prev, s := Select(order[..|order| - 1], groups), Select(order, groups);
      var loc := order[|order| - 1];
      && |prev| <= |s| <= |prev| + 1
      && s[..|prev|] == prev
      && (|s| == |prev| + 1 ==> loc in groups && s[|prev|] in groups[loc])
  {
    var prev := Select(order[..|order| - 1], groups);
    var loc := order[|order| - 1];
    var g := if loc in groups then groups[loc] else [];
    assert Select(order, groups) == prev + Best(g, Subjects(prev));
  }

  lemma {:induction false} SubjectsAppend(a: seq<Hit>, b: seq<Hit>)
    ensures Subjects(a + b) == Subjects(a) + Subjects(b)
  {
    var s, t := Subjects(a + b), Subjects(a) + Subjects(b);
    SubjectsAt(a + b);
    SubjectsAt(a);
    SubjectsAt(b);
    assert |s| == |t|;
    forall i | 0 <= i < |s|
      ensures s[i] == t[i]
    {
      if i < |a| {
        assert (a + b)[i] == a[i];
      } else {
        assert (a + b)[i] == b[i - |a|];
      }
    }
  }

  /** No gene is chosen twice on a contig: the `genes` list never repeats. */
  lemma {:induction false} SelectDistinct(order: seq<Span>, groups: map<Span, seq<Hit>>)
    ensures Distinct(Subjects(Select(order, groups)))
  {
    if order != [] {
      var init, loc := order[..|order| - 1], order[|order| - 1];
      SelectDistinct(init, groups);
      var prev := Select(init, groups);
      var b := Best(if loc in groups then groups[loc] else [], Subjects(prev));
      SubjectsAppend(prev, b);
    }
  }

  /** Every chosen row belongs to the group of one of the locations and has that group's top
      identity. */
  lemma {:induction false} SelectChosen(order: seq<Span>, groups: map<Span, seq<Hit>>, h: Hit)
    requires h in Select(order, groups)
    ensures exists loc :: (loc in order && loc in groups && groups[loc] != []
                           && h in groups[loc] && h.percent == MaxPercent(groups[loc]))
  {
    var init, loc := order[..|order| - 1], order[|order| - 1];
    var prev := Select(init, groups);
    var b := Best(if loc in groups then groups[loc] else [], Subjects(prev));
    assert Select(order, groups) == prev + b;
    if h in prev {
      SelectChosen(init, groups, h);
      var l :| l in init && l in groups && groups[l] != []
        && h in groups[l] && h.percent == MaxPercent(groups[l]);
      assert l in order;
    } else {
      assert h in b;
      assert loc in order;
    }
  }

  /** The loop over one location's rows with its `multiple` flag: the first row with the
      group's top identity and an untaken gene is appended to `blastlist`, recorded in
      `results` and its gene added to `genes`; once one is kept, the rest are passed over. */
  method KeepBest(rows: seq<Hit>, genes: seq<string>, list: seq<Hit>, results: map<string, nat>)
    returns (genes': seq<string>, list': seq<Hit>, results': map<string, nat>)
    requires rows != []
    ensures var b := Best(rows, genes);
      genes' == genes + Subjects(b) && list' == list + b && results' == Record(results, b)
  {
    var top := MaxPercent(rows);
    var multiple := false;
    genes', list', results' := genes, list, results;
    ghost var k := FirstEligible(rows, top, genes);
    for j := 0 to |rows|
      invariant multiple <==> k < j
      invariant !multiple ==> genes' == genes && list' == list && results' == results
      invariant multiple ==>
        && genes' == genes + [rows[k].subjectId] && list' == list + [rows[k]]
        && results' == results[rows[k].subjectId := rows[k].percent]
    {
      var row := rows[j];
      if row.percent == top && !multiple && row.subjectId !in genes' {
        list' := list' + [row];
        results' := results'[row.subjectId := row.percent];
        genes' := genes' + [row.subjectId];
        multiple := true;
      }
    }
    if k < |rows| {
      assert [rows[k]][..0] == [];
    } else {
      assert genes + [] == genes && list + [] == list;
    }
  }

  /** One location more: the selection so far grows by that location's kept row, and the
      `genes` list, `blastlist` and `results` grow with it. */
  lemma SelectStep(order: seq<Span>, groups: map<Span, seq<Hit>>, i: nat,
                   list: seq<Hit>, results: map<string, nat>,
                   genes: seq<string>, list0: seq<Hit>, results0: map<string, nat>,
                   genes': seq<string>, list': seq<Hit>, results': map<string, nat>)
    requires i < |order| && order[i] in groups
    requires var prev := Select(order[..i], groups);
      genes == Subjects(prev) && list0 == list + prev && results0 == Record(results, prev)
    requires var b := Best(groups[order[i]], genes);
      genes' == genes + Subjects(b) && list' == list0 + b && results' == Record(results0, b)
    ensures var next := Select(order[..i + 1], groups);
      genes' == Subjects(next) && list' == list + next && results' == Record(results, next)
  {
    assert order[..i + 1][..i] == order[..i];
    var prev := Select(order[..i], groups);
    var b := Best(groups[order[i]], genes);
    assert Select(order[..i + 1], groups) == prev + b;
    SubjectsAppend(prev, b);
    RecordAppend(results, prev, b);
  }

  /** The selection loops for one contig: `genes` starts empty, and each location in key order
      keeps at most one row. */
  method SelectContig(order: seq<Span>, groups: map<Span, seq<Hit>>,
                      list: seq<Hit>, results: map<string, nat>)
    returns (list': seq<Hit>, results': map<string, nat>)
    requires forall loc :: loc in order ==> loc in groups && groups[loc] != []
    ensures list' == list + Select(order, groups)
    ensures results' == Record(results, Select(order, groups))
  {
    var genes: seq<string> := [];
    list', results' := list, results;
    for i := 0 to |order|
      invariant genes == Subjects(Select(order[..i], groups))
      invariant list' == list + Select(order[..i], groups)
      invariant results' == Record(results, Select(order[..i], groups))
    {
      var loc := order[i];
      var genes0, list0, results0 := genes, list', results';
      genes, list', results' := KeepBest(groups[loc], genes, list', results');
      SelectStep(order, groups, i, list, results, genes0, list0, results0, genes, list', results');
    }
    assert order[..|order|] == order;
  }

  /** `results.update({subject: percent})` applied for each chosen row in turn. */
  function Record(m: map<string, nat>, chosen: seq<Hit>): map<string, nat> {
    if chosen == [] then m
    else
      var last := chosen[|chosen| - 1];
      Record(m, chosen[..|chosen| - 1])[last.subjectId := last.percent]
  }

  lemma {:induction false} RecordAppend(m: map<string, nat>, a: seq<Hit>, b: seq<Hit>)
    ensures Record(m, a + b) == Record(Record(m, a), b)
  {
    if b == [] {
      assert a + b == a;
    } else {
      var init := b[..|b| - 1];
      assert (a + b)[..|a + b| - 1] == a + init;
      RecordAppend(m, a, init);
    }
  }

  /** No later row has the gene of row i. */
  predicate LastOf(chosen: seq<Hit>, i: nat)
    requires i < |chosen|
  {
    forall j :: i < j < |chosen| ==> chosen[j].subjectId != chosen[i].subjectId
  }

  /** The recorded genes are the earlier ones and the chosen ones. */
  lemma {:induction false} RecordKeys(m: map<string, nat>, chosen: seq<Hit>)
    ensures forall s :: s in Record(m, chosen) <==> s in m || s in Subjects(chosen)
  {
    if chosen != [] {
      var init := chosen[..|chosen| - 1];
      RecordKeys(m, init);
      assert Subjects(chosen) == Subjects(init) + [chosen[|chosen| - 1].subjectId];
    }
  }

  /** Each chosen gene keeps the identity of the last row that chose it. */
  lemma {:induction false} RecordLast(m: map<string, nat>, chosen: seq<Hit>)
    ensures forall i :: 0 <= i < |chosen| && LastOf(chosen, i) ==>
      chosen[i].subjectId in Record(m, chosen) && Record(m, chosen)[chosen[i].subjectId] == chosen[i].percent
  {
    if chosen != [] {
      var init := chosen[..|chosen| - 1];
      RecordLast(m, init);
      forall i | 0 <= i < |chosen| && LastOf(chosen, i)
        ensures chosen[i].subjectId in Record(m, chosen) && Record(m, chosen)[chosen[i].subjectId] == chosen[i].percent
      {
        if i < |init| {
          assert init[i] == chosen[i];
          assert LastOf(init, i);
          assert chosen[|chosen| - 1].subjectId != chosen[i].subjectId;
        }
      }
    }
  }

  /** What a contig contributes to `blastlist`. */
  function SelectOf(e: ContigEntry): seq<Hit> {
    var g := Group(e.ranges, e.hits);
    Select(g.order, g.groups)
  }

  /** The contigs that have a `resultdict` entry: at least one row overlaps one location. */
  function Grouped(contigs: seq<string>, table: map<string, ContigEntry>): seq<string> {
    if contigs == [] then []
    else
      var c := contigs[|contigs| - 1];
      Grouped(contigs[..|contigs| - 1], table)
        + (if c in table && Group(table[c].ranges, table[c].hits).order != [] then [c] else [])
  }

  /** `blastlist`: the rows chosen on each grouped contig, contig by contig. */
  function BlastList(contigs: seq<string>, table: map<string, ContigEntry>): seq<Hit> {
    if contigs == [] then []
    else
      var c := contigs[|contigs| - 1];
      BlastList(contigs[..|contigs| - 1], table) + (if c in table then SelectOf(table[c]) else [])
  }

  /** A row kept for a location has the top identity among all of the contig's rows that
      overlap that location, and it is one of them. */
  lemma SelectOfTop(e: ContigEntry, h: Hit)
    requires h in SelectOf(e)
    ensures exists loc :: (loc in e.ranges && h in Matching(e.hits, loc)
                           && forall x :: x in Matching(e.hits, loc) ==> x.percent <= h.percent)
  {
    var g := Group(e.ranges, e.hits);
    GroupDomain(e.ranges, e.hits);
    GroupOrder(e.ranges, e.hits);
    SelectChosen(g.order, g.groups, h);
    var loc :| loc in g.order && loc in g.groups && g.groups[loc] != []
      && h in g.groups[loc] && h.percent == MaxPercent(g.groups[loc]);
    var m := Matching(e.hits, loc);
    GroupContents(e.ranges, e.hits, loc);
    RepeatMembers(m, Count(e.ranges, loc));
    MaxPercentIsMax(g.groups[loc]);
    assert h in m;
    forall x | x in m
      ensures x.percent <= h.percent
    {
      assert x in g.groups[loc];
    }
    assert loc in e.ranges;
  }

  /** `resultdict`/`rowdict` so far: every listed contig has its grouping, which is not empty. */
  ghost predicate GroupedTable(grouped: map<string, Grouping>, cs: seq<string>, table: map<string, ContigEntry>) {
    forall c :: c in cs ==>
      c in table && c in grouped && grouped[c] == Group(table[c].ranges, table[c].hits) && grouped[c].order != []
  }

  lemma GroupedStep(contigs: seq<string>, table: map<string, ContigEntry>, i: nat,
                    cs: seq<string>, grouped: map<string, Grouping>,
                    cs': seq<string>, grouped': map<string, Grouping>)
    requires i < |contigs| && contigs[i] in table
    requires cs == Grouped(contigs[..i], table) && GroupedTable(grouped, cs, table)
    requires var c := contigs[i]; var g := Group(table[c].ranges, table[c].hits);
      && cs' == cs + (if g.order != [] then [c] else [])
      && grouped' == if g.order != [] then grouped[c := g] else grouped
    ensures cs' == Grouped(contigs[..i + 1], table) && GroupedTable(grouped', cs', table)
  {
    assert contigs[..i + 1][..i] == contigs[..i];
  }

  lemma BlastStep(cs: seq<string>, table: map<string, ContigEntry>, i: nat,
                  list: seq<Hit>, results: map<string, nat>,
                  list': seq<Hit>, results': map<string, nat>)
    requires i < |cs| && cs[i] in table
    requires list == BlastList(cs[..i], table) && results == Record(map[], list)
    requires list' == list + SelectOf(table[cs[i]]) && results' == Record(results, SelectOf(table[cs[i]]))
    ensures list' == BlastList(cs[..i + 1], table) && results' == Record(map[], list')
  {
    assert cs[..i + 1][..i] == cs[..i];
    RecordAppend(map[], list, SelectOf(table[cs[i]]));
  }

  /** The whole of filter_unique for one sample: group every contig's rows by location, then
      keep the best row per location. `blastresults` maps each kept gene to the identity of
      its last kept row, so a gene kept on two contigs keeps the later contig's value. */
  method FilterUniqueSample(p: BlastParse) returns (blastList: seq<Hit>, blastResults: map<string, nat>)
    requires p.Valid()
    ensures blastList == BlastList(Grouped(p.contigs, p.table), p.table)
    ensures blastResults == Record(map[], blastList)
  {
    var groupedContigs: seq<string> := [];
    var grouped: map<string, Grouping> := map[];
    for i := 0 to |p.contigs|
      invariant groupedContigs == Grouped(p.contigs[..i], p.table)
      invariant GroupedTable(grouped, groupedContigs, p.table)
    {
      var c := p.contigs[i];
      var e := p.table[c];
      var g := GroupContig(e.ranges, e.hits);
      var cs, gr := groupedContigs, grouped;
      if g.order != [] {
        groupedContigs := groupedContigs + [c];
        grouped := grouped[c := g];
      }
      GroupedStep(p.contigs, p.table, i, cs, gr, groupedContigs, grouped);
    }
    assert p.contigs[..|p.contigs|] == p.contigs;
    blastList, blastResults := [], map[];
    for i := 0 to |groupedContigs|
      invariant blastList == BlastList(groupedContigs[..i], p.table)
      invariant blastResults == Record(map[], blastList)
    {
      var c := groupedContigs[i];
      var g := grouped[c];
      GroupDomain(p.table[c].ranges, p.table[c].hits);
      GroupOrder(p.table[c].ranges, p.table[c].hits);
      var list, results := blastList, blastResults;
      blastList, blastResults := SelectContig(g.order, g.groups, blastList, blastResults);
      BlastStep(groupedContigs, p.table, i, list, results, blastList, blastResults);
    }
    assert groupedContigs[..|groupedContigs|] == groupedContigs;
  }
}
