/** The per-sample state that unique_parse_blast builds while it reads a BLAST report
    row by row (geneseekr/geneseekr.py:417-523), and pure functions of the row stream that
    say what that state is once every row has been read. */
module UniqueParse {
  import opened Hits
  import opened Consolidation

  predicate PositiveLengths(rows: seq<Row>) {
    forall i :: 0 <= i < |rows| ==> rows[i].subjectLength > 0
  }

  lemma PositivePrefix(rows: seq<Row>, k: nat)
    requires PositiveLengths(rows) && k <= |rows|
    ensures PositiveLengths(rows[..k])
  {
  }

  predicate Qualifies(h: Hit, cutoff: nat) {
    h.percent >= cutoff
  }

  /** The hits derived from the rows of one contig that reach the cutoff, in row order. */
  function Qualifying(rows: seq<Row>, program: Program, cutoff: nat, contig: string): (r: seq<Hit>)
    requires PositiveLengths(rows)
    ensures forall h :: h in r ==> h.contig == contig && Qualifies(h, cutoff) && h.low <= h.high
  {
    if rows == [] then []
    else
      var h := Derive(rows[|rows| - 1], program);
      Qualifying(rows[..|rows| - 1], program, cutoff, contig)
        + (if Qualifies(h, cutoff) && h.contig == contig then [h] else [])
  }

  function Spans(hits: seq<Hit>): (r: seq<Span>)
    ensures |r| == |hits|
    ensures forall i :: 0 <= i < |hits| ==> r[i] == Span(hits[i].low, hits[i].high)
  {
    seq(|hits|, i requires 0 <= i < |hits| => Span(hits[i].low, hits[i].high))
  }

  /** Contigs in the order their first qualifying row arrives (the key order of `queryranges`). */
  function ContigOrder(rows: seq<Row>, program: Program, cutoff: nat): seq<string>
    requires PositiveLengths(rows)
  {
    if rows == [] then []
    else
      var prev := ContigOrder(rows[..|rows| - 1], program, cutoff);
      var h := Derive(rows[|rows| - 1], program);
      prev + (if Qualifies(h, cutoff) && h.contig !in prev then [h.contig] else [])
  }

  /** The latest of a contig's hits that opened a new location: `querypercent` and
      `queryscore` hold its values. */
  function Founder(hits: seq<Hit>): (f: Hit)
    requires hits != []
    ensures f in hits
  {
    var init := hits[..|hits| - 1];
    var last := hits[|hits| - 1];
    if init == [] || !AnyMatch(Build(Spans(init)), last.low, last.high) then last
    else Founder(init)
  }

  /** `targetsequence`: for each subject, the oriented sequence of its last qualifying row. */
  function TargetSequences(rows: seq<Row>, program: Program, cutoff: nat): map<string, string>
    requires PositiveLengths(rows)
  {
    if rows == [] then map[]
    else
      var prev := TargetSequences(rows[..|rows| - 1], program, cutoff);
      var h := Derive(rows[|rows| - 1], program);
      if Qualifies(h, cutoff) then prev[h.subjectId := Oriented(h)] else prev
  }

  predicate Distinct<T(==)>(s: seq<T>) {
    forall i, j :: 0 <= i < j < |s| ==> s[i] != s[j]
  }

  /** What the parser keeps for one contig: its entry in `queryranges`, `querypercent`,
      `queryscore` and `results`. The four dictionaries always share their keys, so one
      record per contig holds them. */
  datatype ContigEntry = ContigEntry(ranges: seq<Span>, percent: nat, score: string, hits: seq<Hit>)

  /** The entry once every one of the contig's qualifying hits has been read, in order. */
  function Summary(q: seq<Hit>): (e: ContigEntry)
    requires q != []
    ensures e.hits == q && e.ranges != []
    ensures Founder(q) in q && e.percent == Founder(q).percent && e.score == Founder(q).bitScore
  {
    ContigEntry(Build(Spans(q)), Founder(q).percent, Founder(q).bitScore, q)
  }

  /** `after` is the table `before` once hit `h` has been read: only `h`'s contig changes. */
  ghost predicate Absorbs(before: map<string, ContigEntry>, after: map<string, ContigEntry>, h: Hit) {
    && h.contig in after
    && after == before[h.contig := after[h.contig]]
    && (h.contig !in before ==>
          after[h.contig] == ContigEntry([Span(h.low, h.high)], h.percent, h.bitScore, [h]))
    && (h.contig in before ==>
          var e, e' := before[h.contig], after[h.contig];
          && e'.hits == e.hits + [h]
          && e'.ranges == Consolidate(e.ranges, h.low, h.high)
          && (if AnyMatch(e.ranges, h.low, h.high) then e'.percent == e.percent && e'.score == e.score
              else e'.percent == h.percent && e'.score == h.bitScore))
  }

  class BlastParse {
    const program: Program
    /** The percent identity threshold, in hundredths of a percent. */
    const cutoff: nat
    /** The contigs with a qualifying hit, in the order they were first seen (the key order
        of `queryranges`). */
    var contigs: seq<string>
    var table: map<string, ContigEntry>
    /** `targetsequence`: the oriented query sequence of the latest qualifying hit per subject. */
    var targetSequence: map<string, string>

    ghost predicate Valid()
      reads this
    {
      && (forall c :: c in table <==> c in contigs)
      && (forall c :: c in table ==> table[c].hits != [] && table[c].ranges != [])
    }

    constructor (program: Program, cutoff: nat)
      ensures Valid()
      ensures this.program == program && this.cutoff == cutoff
      ensures contigs == [] && table == map[] && targetSequence == map[]
    {
      this.program := program;
      this.cutoff := cutoff;
      contigs := [];
      table := map[];
      targetSequence := map[];
    }

    /** A row that reached the cutoff. On a contig already seen (the `try` branch) the hit is
        appended to the contig's `results`, its `[low, high]` is consolidated into the contig's
        locations, and `querypercent`/`queryscore` follow the hit only when it opened a new
        location. The first hit on a contig (the `except KeyError` branch) starts every entry
        from this hit alone. Either way its oriented sequence is stored under its subject. */
    method AddHit(h: Hit)
      requires Valid()
      modifies this
      ensures Valid()
      ensures contigs == old(contigs) + (if h.contig in old(contigs) then [] else [h.contig])
      ensures Absorbs(old(table), table, h)
      ensures targetSequence == old(targetSequence)[h.subjectId := Oriented(h)]
    {
      var c := h.contig;
      if c in table {
        var e := table[c];
        var hits := e.hits + [h];
        var merged, append := MergeSpots(e.ranges, h.low, h.high);
        ConsolidateShape(e.ranges, h.low, h.high);
        if append {
          table := table[c := ContigEntry(merged, h.percent, h.bitScore, hits)];
        } else {
          table := table[c := e.(ranges := merged, hits := hits)];
        }
      } else {
        table := table[c := ContigEntry([Span(h.low, h.high)], h.percent, h.bitScore, [h])];
        contigs := contigs + [c];
      }
      targetSequence := targetSequence[h.subjectId := Oriented(h)];
    }
  }

  lemma QualifyingStep(rows: seq<Row>, program: Program, cutoff: nat, i: nat, contig: string)
    requires PositiveLengths(rows) && i < |rows|
    ensures PositiveLengths(rows[..i]) && PositiveLengths(rows[..i + 1])
    ensures var h := Derive(rows[i], program);
      Qualifying(rows[..i + 1], program, cutoff, contig)
        == Qualifying(rows[..i], program, cutoff, contig)
           + (if Qualifies(h, cutoff) && h.contig == contig then [h] else [])
  {
    assert rows[..i + 1][..i] == rows[..i];
  }

  /** The first hit on a contig starts its entry. */
  lemma SummaryFirst(h: Hit)
    ensures Summary([h]) == ContigEntry([Span(h.low, h.high)], h.percent, h.bitScore, [h])
  {
    assert Spans([h]) == [Span(h.low, h.high)];
    FirstHitStartsList(Span(h.low, h.high));
  }

  /** One more hit on a contig moves its summary exactly as AddHit moves the entry. */
  lemma SummaryStep(q: seq<Hit>, h: Hit)
    requires q != []
    ensures var e, e' := Summary(q), Summary(q + [h]);
      && e'.ranges == Consolidate(e.ranges, h.low, h.high)
      && (if AnyMatch(e.ranges, h.low, h.high) then e'.percent == e.percent && e'.score == e.score
          else e'.percent == h.percent && e'.score == h.bitScore)
  {
    var q' := q + [h];
    assert q'[..|q'| - 1] == q && q'[|q'| - 1] == h;
    var sp := Spans(q');
    assert sp[..|sp| - 1] == Spans(q) && sp[|sp| - 1] == Span(h.low, h.high);
    assert Build(sp) == Consolidate(Build(Spans(q)), h.low, h.high);
    assert Founder(q') == if AnyMatch(Build(Spans(q)), h.low, h.high) then Founder(q) else h;
  }

  /** The table holds, for exactly the contigs with a qualifying row, the summary of that
      contig's qualifying hits. */
  ghost predicate Tracks(table: map<string, ContigEntry>, rows: seq<Row>, program: Program, cutoff: nat)
    requires PositiveLengths(rows)
  {
    && (forall c :: c in table <==> Qualifying(rows, program, cutoff, c) != [])
    && (forall c :: c in table ==> table[c] == Summary(Qualifying(rows, program, cutoff, c)))
  }

  /** The entry of the hit's own contig after the hit is the summary of its hits so far. */
  lemma AbsorbsSummary(before: map<string, ContigEntry>, after: map<string, ContigEntry>,
                       q: seq<Hit>, h: Hit)
    requires Absorbs(before, after, h)
    requires h.contig in before <==> q != []
    requires h.contig in before ==> before[h.contig] == Summary(q)
    ensures after[h.contig] == Summary(q + [h])
  {
    if q == [] {
      SummaryFirst(h);
    } else {
      SummaryStep(q, h);
    }
  }

  /** Reading row i keeps contig c's entry tracking the rows read so far. */
  lemma TracksStepAt(before: map<string, ContigEntry>, after: map<string, ContigEntry>,
                     rows: seq<Row>, program: Program, cutoff: nat, i: nat, c: string)
    requires PositiveLengths(rows) && i < |rows|
    requires PositiveLengths(rows[..i]) && Tracks(before, rows[..i], program, cutoff)
    requires var h := Derive(rows[i], program);
      if Qualifies(h, cutoff) then Absorbs(before, after, h) else after == before
    ensures PositiveLengths(rows[..i + 1])
    ensures c in after <==> Qualifying(rows[..i + 1], program, cutoff, c) != []
    ensures c in after ==> after[c] == Summary(Qualifying(rows[..i + 1], program, cutoff, c))
  {
    var h := Derive(rows[i], program);
    QualifyingStep(rows, program, cutoff, i, c);
    var q := Qualifying(rows[..i], program, cutoff, c);
    if Qualifies(h, cutoff) && h.contig == c {
      AbsorbsSummary(before, after, q, h);
    } else {
      assert Qualifying(rows[..i + 1], program, cutoff, c) == q;
      assert c in after <==> c in before;
    }
  }

  /** Reading row i keeps the table tracking the rows read so far. */
  lemma TracksStep(before: map<string, ContigEntry>, after: map<string, ContigEntry>,
                   rows: seq<Row>, program: Program, cutoff: nat, i: nat)
    requires PositiveLengths(rows) && i < |rows|
    requires PositiveLengths(rows[..i]) && Tracks(before, rows[..i], program, cutoff)
    requires var h := Derive(rows[i], program);
      if Qualifies(h, cutoff) then Absorbs(before, after, h) else after == before
    ensures PositiveLengths(rows[..i + 1]) && Tracks(after, rows[..i + 1], program, cutoff)
  {
    forall c
      ensures c in after <==> Qualifying(rows[..i + 1], program, cutoff, c) != []
      ensures c in after ==> after[c] == Summary(Qualifying(rows[..i + 1], program, cutoff, c))
    {
      TracksStepAt(before, after, rows, program, cutoff, i, c);
    }
  }

  /** Reading row i extends the key order and the target sequences by that row alone. */
  lemma OrderStep(rows: seq<Row>, program: Program, cutoff: nat, i: nat)
    requires PositiveLengths(rows) && i < |rows|
    ensures PositiveLengths(rows[..i]) && PositiveLengths(rows[..i + 1])
    ensures var h, prev := Derive(rows[i], program), ContigOrder(rows[..i], program, cutoff);
      ContigOrder(rows[..i + 1], program, cutoff)
        == prev + (if Qualifies(h, cutoff) && h.contig !in prev then [h.contig] else [])
    ensures var h, prev := Derive(rows[i], program), TargetSequences(rows[..i], program, cutoff);
      TargetSequences(rows[..i + 1], program, cutoff)
        == if Qualifies(h, cutoff) then prev[h.subjectId := Oriented(h)] else prev
  {
    PositivePrefix(rows, i);
    PositivePrefix(rows, i + 1);
    assert rows[..i + 1][..i] == rows[..i];
  }

  /** The parser's three dictionaries after reading the first i rows: the key order, the
      target sequences and the table all follow from those rows alone. */
  ghost predicate ReadSoFar(table: map<string, ContigEntry>, contigs: seq<string>,
                            target: map<string, string>, rows: seq<Row>, program: Program,
                            cutoff: nat, i: nat)
    requires PositiveLengths(rows) && i <= |rows|
  {
    PositivePrefix(rows, i);
    && contigs == ContigOrder(rows[..i], program, cutoff)
    && target == TargetSequences(rows[..i], program, cutoff)
    && Tracks(table, rows[..i], program, cutoff)
  }

  /** Reading row i, through AddHit when it qualifies, keeps all three dictionaries in step
      with the rows read. */
  lemma ReadStep(t0: map<string, ContigEntry>, c0: seq<string>, s0: map<string, string>,
                 t1: map<string, ContigEntry>, c1: seq<string>, s1: map<string, string>,
                 rows: seq<Row>, program: Program, cutoff: nat, i: nat)
    requires PositiveLengths(rows) && i < |rows|
    requires ReadSoFar(t0, c0, s0, rows, program, cutoff, i)
    requires var h := Derive(rows[i], program);
      if Qualifies(h, cutoff) then
        && Absorbs(t0, t1, h)
        && c1 == c0 + (if h.contig in c0 then [] else [h.contig])
        && s1 == s0[h.subjectId := Oriented(h)]
      else t1 == t0 && c1 == c0 && s1 == s0
    ensures ReadSoFar(t1, c1, s1, rows, program, cutoff, i + 1)
  {
    PositivePrefix(rows, i);
    OrderStep(rows, program, cutoff, i);
    TracksStep(t0, t1, rows, program, cutoff, i);
  }

  /** The whole of unique_parse_blast for one sample (a missing report is an empty row list).
      Afterwards exactly the contigs with a qualifying row have an entry, in first-seen order,
      and each entry is the summary of that contig's qualifying hits in row order. */
  method UniqueParseBlast(rows: seq<Row>, program: Program, cutoff: nat) returns (p: BlastParse)
    requires PositiveLengths(rows)
    ensures fresh(p) && p.Valid() && p.program == program && p.cutoff == cutoff
    ensures p.contigs == ContigOrder(rows, program, cutoff)
    ensures p.targetSequence == TargetSequences(rows, program, cutoff)
    ensures Tracks(p.table, rows, program, cutoff)
  {
    p := new BlastParse(program, cutoff);
    var i := 0;
    assert rows[..0] == [];
    while i < |rows|
      invariant 0 <= i <= |rows|
      invariant p.Valid() && p.program == program && p.cutoff == cutoff && fresh(p)
      invariant ReadSoFar(p.table, p.contigs, p.targetSequence, rows, program, cutoff, i)
    {
      var h := Derive(rows[i], program);
      ghost var table, contigs, target := p.table, p.contigs, p.targetSequence;
      if h.percent >= cutoff {
        p.AddHit(h);
      }
      ReadStep(table, contigs, target, p.table, p.contigs, p.targetSequence, rows, program, cutoff, i);
      i := i + 1;
    }
    assert rows[..|rows|] == rows;
  }

  /** Each contig appears once in the key order. */
  lemma {:induction false} ContigOrderDistinct(rows: seq<Row>, program: Program, cutoff: nat)
    requires PositiveLengths(rows)
    ensures Distinct(ContigOrder(rows, program, cutoff))
    ensures forall c :: c in ContigOrder(rows, program, cutoff) <==> Qualifying(rows, program, cutoff, c) != []
  {
    if rows != [] {
      var init := rows[..|rows| - 1];
      assert PositiveLengths(init);
      ContigOrderDistinct(init, program, cutoff);
    }
  }

  /** Every stored location is ordered, `lo <= hi`. */
  lemma SummaryOrdered(q: seq<Hit>)
    requires q != [] && forall h :: h in q ==> h.low <= h.high
    ensures Ordered(Summary(q).ranges)
  {
    forall i | 0 <= i < |q|
      ensures Spans(q)[i].lo <= Spans(q)[i].hi
    {
      assert q[i] in q;
    }
    BuildOrdered(Spans(q));
  }
}
