/** The text helpers of alignprotein and interleaveblastresults
    (geneseekr/geneseekr.py:1312-1438): gap stripping, codon trimming, the `|`/space match
    line, the `;`-separated index of mismatch positions, and the 60-column interleaved
    layout of a pairwise alignment. The alignment itself and the translation to protein are
    not part of this model; the two aligned lines are inputs. */
module Alignment {
  import opened Decimal
  import opened Hits

  // ----- Gap stripping -----

  /** `s.replace('-', '')`: every gap character removed, the rest kept in order. */
  function StripGaps(s: string): (r: string)
    ensures |r| <= |s|
    ensures forall i :: 0 <= i < |r| ==> r[i] != '-'
  {
    if s == [] then []
    else StripGaps(s[..|s| - 1]) + (if s[|s| - 1] == '-' then [] else [s[|s| - 1]])
  }

  /** Stripping works piece by piece; with the one-character cases below this pins the
      function down: a gap disappears and any other character stays where it was. */
  lemma {:induction false} StripGapsAppend(a: string, b: string)
    ensures StripGaps(a + b) == StripGaps(a) + StripGaps(b)
    decreases |b|
  {
    if b == [] {
      assert a + b == a;
    } else {
      var init := b[..|b| - 1];
      assert (a + b)[..|a + b| - 1] == a + init;
      StripGapsAppend(a, init);
    }
  }

  lemma StripGapsSingle(c: char)
    ensures StripGaps([c]) == if c == '-' then [] else [c]
  {
    assert [c][..0] == [];
  }

  /** A sequence without gaps is left as it is. */
  lemma {:induction false} StripGapsGapFree(s: string)
    requires forall i :: 0 <= i < |s| ==> s[i] != '-'
    ensures StripGaps(s) == s
  {
    if s != [] {
      StripGapsGapFree(s[..|s| - 1]);
      assert s[..|s| - 1] + [s[|s| - 1]] == s;
    }
  }

  lemma StripGapsIdempotent(s: string)
    ensures StripGaps(StripGaps(s)) == StripGaps(s)
  {
    StripGapsGapFree(StripGaps(s));
  }

  // ----- Codon trimming -----

  /** Python's `s[:stop]`: a negative stop counts from the end, and both ends are clipped. */
  function PrefixTo(s: string, stop: int): (r: string)
    ensures |r| <= |s| && r == s[..|r|]
  {
    if stop >= 0 then Slice(s, 0, stop)
    else s[..if |s| + stop >= 0 then |s| + stop else 0]
  }

  /** The sample sequence for blastn: `remainder = 0 - len % 3`, and the whole sequence when
      it is 0, else `s[:remainder]`. The result is the longest prefix made of whole codons. */
  function TrimSample(s: string): (r: string)
    ensures |r| % 3 == 0
    ensures |r| <= |s| && r == s[..|r|]
    ensures |s| - |r| < 3
  {
    var remainder := 0 - |s| % 3;
    if remainder == 0 then s else PrefixTo(s, remainder)
  }

  /** The reference sequence: the same trim written with the test `refremainder % 3 == 0`.
      Python's `%` and Dafny's agree here: for a divisor of 3 both give a result in 0..2. */
  function TrimReference(s: string): (r: string)
    ensures |r| % 3 == 0
    ensures |r| <= |s| && r == s[..|r|]
    ensures |s| - |r| < 3
  {
    var refremainder := 0 - |s| % 3;
    if refremainder % 3 == 0 then s else PrefixTo(s, refremainder)
  }

  /** The two trims written differently in the source cut the same prefix, of length
      `len - len % 3`. */
  lemma TrimsAgree(s: string)
    ensures TrimSample(s) == TrimReference(s) == s[..|s| - |s| % 3]
  {
  }

  /** Programs whose reference sequences are nucleotides and are trimmed to whole codons. */
  predicate NucleotideReference(program: Program) {
    program == Blastn || program == Tblastn || program == Tblastx
  }

  /** The sample's target sequence as alignprotein uses it: gaps removed, then for blastn
      trimmed to whole codons so that it can be translated. */
  function SampleSequence(program: Program, target: string): (r: string)
    ensures forall i :: 0 <= i < |r| ==> r[i] != '-'
    ensures |r| <= |StripGaps(target)| && r == StripGaps(target)[..|r|]
    ensures program == Blastn ==> |r| % 3 == 0 && |StripGaps(target)| - |r| < 3
    ensures program != Blastn ==> r == StripGaps(target)
  {
    var stripped := StripGaps(target);
    if program == Blastn then TrimSample(stripped) else stripped
  }

  /** The reference sequence as alignprotein aligns it: trimmed to whole codons for the
      nucleotide programs, untouched otherwise. */
  function ReferenceSequence(program: Program, reference: string): (r: string)
    ensures |r| <= |reference| && r == reference[..|r|]
    ensures NucleotideReference(program) ==> |r| % 3 == 0 && |reference| - |r| < 3
    ensures !NucleotideReference(program) ==> r == reference
  {
    if NucleotideReference(program) then TrimReference(reference) else reference
  }

  // ----- Match line -----

  /** `''.join('|' if len(set(x)) == 1 else ' ' for x in zip(a, b))`: one character per
      aligned pair, as long as the shorter line. */
  function MatchLine(a: string, b: string): (r: string)
    ensures |r| == if |a| <= |b| then |a| else |b|
  {
    if a == [] || b == [] then []
    else [if a[0] == b[0] then '|' else ' '] + MatchLine(a[1..], b[1..])
  }

  /** A `|` exactly where the two lines agree, a space everywhere else. */
  lemma {:induction false} MatchLineAt(a: string, b: string)
    ensures var r := MatchLine(a, b);
      forall i :: 0 <= i < |r| ==> (r[i] == '|' <==> a[i] == b[i]) && (r[i] == '|' || r[i] == ' ')
  {
    if a != [] && b != [] {
      MatchLineAt(a[1..], b[1..]);
    }
  }

  // ----- Positions of mismatches -----

  /** The start of every match of `re.finditer(' ', line)`, in order. */
  function SpacePositions(line: string): seq<nat> {
    if line == [] then []
    else SpacePositions(line[..|line| - 1]) + (if line[|line| - 1] == ' ' then [|line| - 1] else [])
  }

  /** Every listed position holds a space. */
  lemma {:induction false} SpacePositionsSound(line: string)
    ensures forall k :: 0 <= k < |SpacePositions(line)| ==>
      SpacePositions(line)[k] < |line| && line[SpacePositions(line)[k]] == ' '
  {
    if line != [] {
      var init := line[..|line| - 1];
      SpacePositionsSound(init);
      assert SpacePositions(line)[..|SpacePositions(init)|] == SpacePositions(init);
    }
  }

  /** The positions are listed in increasing order, so each once. */
  lemma {:induction false} SpacePositionsIncreasing(line: string)
    ensures forall j, k :: 0 <= j < k < |SpacePositions(line)| ==>
      SpacePositions(line)[j] < SpacePositions(line)[k]
  {
    if line != [] {
      var init := line[..|line| - 1];
      SpacePositionsIncreasing(init);
      SpacePositionsSound(init);
      assert SpacePositions(line)[..|SpacePositions(init)|] == SpacePositions(init);
    }
  }

  /** Every space is listed. */
  lemma {:induction false} SpacePositionsComplete(line: string)
    ensures forall p :: 0 <= p < |line| && line[p] == ' ' ==> p in SpacePositions(line)
  {
    if line != [] {
      var init := line[..|line| - 1];
      SpacePositionsComplete(init);
      forall p | 0 <= p < |line| && line[p] == ' '
        ensures p in SpacePositions(line)
      {
        if p < |init| {
          assert init[p] == ' ';
        }
      }
    }
  }

  /** The index lists the mismatches of the aligned pair: a position is listed iff both
      lines reach it and their characters differ there. */
  lemma MismatchPositions(a: string, b: string)
    ensures forall p: nat :: p in SpacePositions(MatchLine(a, b)) <==> p < |a| && p < |b| && a[p] != b[p]
  {
    var m := MatchLine(a, b);
    MatchLineAt(a, b);
    SpacePositionsSound(m);
    SpacePositionsComplete(m);
    forall p: nat
      ensures p in SpacePositions(m) <==> p < |a| && p < |b| && a[p] != b[p]
    {
      if p in SpacePositions(m) {
        var k :| 0 <= k < |SpacePositions(m)| && SpacePositions(m)[k] == p;
      }
    }
  }

  // ----- The SNP index text -----

  /** Entry `j` of the index: the position and `;`, on a new line for the 12th, 23rd, 34th
      ... entries (the `count` of the loop passes 10 before every eleventh entry after the
      first eleven). */
  function SnpEntry(j: nat, p: nat): string {
    (if j > 0 && j % 11 == 0 then "\n" else "") + Numeral(p) + ";"
  }

  function SnpText(ps: seq<nat>): string {
    if ps == [] then "" else SnpText(ps[..|ps| - 1]) + SnpEntry(|ps| - 1, ps[|ps| - 1])
  }

  /** The loop over the spaces of a match line with its `count` variable. */
  method SnpIndex(line: string) returns (index: string)
    ensures index == SnpText(SpacePositions(line))
  {
    var ps := SpacePositions(line);
    var count := 0;
    index := "";
    for j := 0 to |ps|
      invariant index == SnpText(ps[..j])
      invariant count == if j == 0 then 0 else (j - 1) % 11 + 1
    {
      SnpStep(ps, j, count, index);
      if count <= 10 {
        index := index + Numeral(ps[j]) + ";";
      } else {
        index := index + "\n" + Numeral(ps[j]) + ";";
        count := 0;
      }
      count := count + 1;
    }
    assert ps[..|ps|] == ps;
  }

  /** One turn of the loop: `count` passes 10 exactly before entries 11, 22, 33 ... */
  lemma SnpStep(ps: seq<nat>, j: nat, count: int, index: string)
    requires j < |ps|
    requires index == SnpText(ps[..j])
    requires count == if j == 0 then 0 else (j - 1) % 11 + 1
    ensures count <= 10 ==> index + Numeral(ps[j]) + ";" == SnpText(ps[..j + 1]) && count + 1 == j % 11 + 1
    ensures count > 10 ==> index + "\n" + Numeral(ps[j]) + ";" == SnpText(ps[..j + 1]) && 1 == j % 11 + 1
  {
    assert ps[..j + 1][..j] == ps[..j];
    var d := Numeral(ps[j]);
    if count <= 10 {
      assert j == 0 || j % 11 != 0;
      assert SnpEntry(j, ps[j]) == d + ";";
    } else {
      assert j > 0 && j % 11 == 0;
      assert SnpEntry(j, ps[j]) == "\n" + d + ";";
    }
  }

  lemma ScanEntry(j: nat, p: nat, values: seq<nat>)
    ensures Scan(SnpEntry(j, p), ScanState(values, 0)) == ScanState(values + [p], 0)
  {
    var nl: string := if j > 0 && j % 11 == 0 then "\n" else "";
    ScanAppend(nl + Numeral(p), ";", ScanState(values, 0));
    ScanAppend(nl, Numeral(p), ScanState(values, 0));
    assert Scan(nl, ScanState(values, 0)) == ScanState(values, 0);
    ScanNumeral(p, values);
  }

  /** Reading the index back, skipping line breaks, gives the listed positions. */
  lemma {:induction false} SnpReadsBack(ps: seq<nat>, values: seq<nat>)
    ensures Scan(SnpText(ps), ScanState(values, 0)) == ScanState(values + ps, 0)
  {
    if ps == [] {
      assert values + ps == values;
    } else {
      var init := ps[..|ps| - 1];
      SnpReadsBack(init, values);
      ScanAppend(SnpText(init), SnpEntry(|ps| - 1, ps[|ps| - 1]), ScanState(values, 0));
      ScanEntry(|ps| - 1, ps[|ps| - 1], values + init);
      assert values + init + [ps[|ps| - 1]] == values + ps;
    }
  }

  function CountChar(s: string, c: char): nat {
    if s == [] then 0 else CountChar(s[..|s| - 1], c) + (if s[|s| - 1] == c then 1 else 0)
  }

  lemma {:induction false} CountCharAppend(a: string, b: string, c: char)
    ensures CountChar(a + b, c) == CountChar(a, c) + CountChar(b, c)
    decreases |b|
  {
    if b == [] {
      assert a + b == a;
    } else {
      assert (a + b)[..|a + b| - 1] == a + b[..|b| - 1];
      CountCharAppend(a, b[..|b| - 1], c);
    }
  }

  lemma {:induction false} CountCharDigits(s: string)
    requires forall i :: 0 <= i < |s| ==> IsDigit(s[i])
    ensures CountChar(s, '\n') == 0
  {
    if s != [] {
      CountCharDigits(s[..|s| - 1]);
    }
  }

  lemma EntryNewlines(j: nat, p: nat)
    ensures CountChar(SnpEntry(j, p), '\n') == if j > 0 && j % 11 == 0 then 1 else 0
  {
    var nl: string := if j > 0 && j % 11 == 0 then "\n" else "";
    CountCharAppend(nl + Numeral(p), ";", '\n');
    CountCharAppend(nl, Numeral(p), '\n');
    CountCharDigits(Numeral(p));
    assert [';'][..0] == [];
    if nl != "" {
      assert ['\n'][..0] == [];
    }
  }

  /** The index of n positions holds one line break per eleven entries after the first
      eleven: at most eleven entries share a line. */
  lemma {:induction false} SnpNewlines(ps: seq<nat>)
    ensures CountChar(SnpText(ps), '\n') == if ps == [] then 0 else (|ps| - 1) / 11
  {
    if ps != [] {
      var init := ps[..|ps| - 1];
      SnpNewlines(init);
      CountCharAppend(SnpText(init), SnpEntry(|ps| - 1, ps[|ps| - 1]), '\n');
      EntryNewlines(|ps| - 1, ps[|ps| - 1]);
    }
  }

  // ----- The interleaved layout -----

  /** Python's `s[lo:hi]` for `0 <= lo <= hi`: both ends clipped to the length. */
  function Slice(s: string, lo: nat, hi: nat): string
    requires lo <= hi
  {
    s[(if lo <= |s| then lo else |s|)..if hi <= |s| then hi else |s|]
  }

  /** The block at offset j: the offset zero-padded to four digits, ` OLC `, 60 columns of
      the query from j, then the match line and the reference under it. */
  function Block(query: string, matches: string, subject: string, j: nat): string {
    Pad4(j) + " OLC " + Slice(query, j, j + 60) + "\n"
      + "         " + Slice(matches, j, j + 60) + "\n"
      + "     ref " + Slice(subject, j, j + 60) + "\n"
  }

  /** The first n blocks, in order. */
  function Blocks(query: string, matches: string, subject: string, n: nat): string {
    if n == 0 then "" else Blocks(query, matches, subject, n - 1) + Block(query, matches, subject, 60 * (n - 1))
  }

  /** The number of blocks, one per started 60 columns: `range(0, n, 60)` has that many
      elements. */
  function BlockCount(n: nat): (k: nat)
    ensures k == 0 <==> n == 0
    ensures n > 0 ==> 60 * (k - 1) < n <= 60 * k
  {
    (n + 59) / 60
  }

  lemma BlockText(query: string, matches: string, subject: string, j: nat, prev: nat, block: string)
    requires prev == j
    requires block == Pad4(j) + " OLC " + Slice(query, prev, j + 60) + "\n"
      + "         " + Slice(matches, prev, j + 60) + "\n"
      + "     ref " + Slice(subject, prev, j + 60) + "\n"
    ensures block == Block(query, matches, subject, j)
  {
  }

  lemma BlocksStep(query: string, matches: string, subject: string, k: nat, text: string)
    requires text == Blocks(query, matches, subject, k)
    ensures text + Block(query, matches, subject, 60 * k) == Blocks(query, matches, subject, k + 1)
  {
  }

  lemma BlockCountExact(n: nat, k: nat)
    requires k == 0 || 60 * (k - 1) < n
    requires n <= 60 * k
    ensures k == BlockCount(n)
  {
  }

  /** The text interleaveblastresults returns. */
  function Interleaved(query: string, subject: string): string
    requires |query| <= |subject|
  {
    Blocks(query, MatchLine(query, subject), subject, BlockCount(|query|))
  }

  /** The first loop of interleaveblastresults: `|` where the query base equals the subject
      base at the same index, a space elsewhere. The subject must be at least as long as the
      query, or `subject[i]` fails. */
  method MatchString(query: string, subject: string) returns (matches: string)
    requires |query| <= |subject|
    ensures matches == MatchLine(query, subject)
  {
    matches := "";
    for i := 0 to |query|
      invariant |matches| == i
      invariant forall k :: 0 <= k < i ==> matches[k] == if query[k] == subject[k] then '|' else ' '
    {
      if query[i] == subject[i] {
        matches := matches + "|";
      } else {
        matches := matches + " ";
      }
    }
    MatchLineAt(query, subject);
  }

  /** The second loop of interleaveblastresults: one block per 60 columns of the query,
      `j` stepping through `range(0, len(query), 60)` with the `prev` cursor. */
  method Layout(query: string, matches: string, subject: string) returns (text: string)
    ensures text == Blocks(query, matches, subject, BlockCount(|query|))
  {
    text := "";
    var prev := 0;
    var j := 0;
    ghost var k := 0;
    while j < |query|
      invariant j == 60 * k && prev == j
      invariant k == 0 || 60 * (k - 1) < |query|
      invariant text == Blocks(query, matches, subject, k)
    {
      var block := Pad4(j) + " OLC " + Slice(query, prev, j + 60) + "\n"
        + "         " + Slice(matches, prev, j + 60) + "\n"
        + "     ref " + Slice(subject, prev, j + 60) + "\n";
      BlockText(query, matches, subject, j, prev, block);
      BlocksStep(query, matches, subject, k, text);
      text := text + block;
      prev := j + 60;
      j := j + 60;
      k := k + 1;
    }
    BlockCountExact(|query|, k);
  }

  /** interleaveblastresults: the match string, then the blocks. */
  method Interleave(query: string, subject: string) returns (text: string)
    requires |query| <= |subject|
    ensures text == Interleaved(query, subject)
  {
    var matches := MatchString(query, subject);
    text := Layout(query, matches, subject);
  }

  /** An empty query gives the empty string. */
  lemma InterleaveEmpty(subject: string)
    ensures Interleaved("", subject) == ""
  {
  }

  /** Where the query columns sit in a block with the given pieces: after the header
      `pad + " OLC "`, and followed by the line break. */
  lemma BlockLine(pad: string, columns: string, matchColumns: string, refColumns: string)
    ensures var b := pad + " OLC " + columns + "\n"
        + "         " + matchColumns + "\n"
        + "     ref " + refColumns + "\n";
      var head := pad + " OLC ";
      && |head| + |columns| < |b|
      && b[..|head|] == head
      && b[|head|..|head| + |columns|] == columns
      && b[|head| + |columns|] == '\n'
  {
    var head := pad + " OLC ";
    var line := head + columns + "\n";
    var b := line + "         " + matchColumns + "\n" + "     ref " + refColumns + "\n";
    assert b[..|line|] == line;
    assert line[..|head|] == head;
    assert line[|head|..|head| + |columns|] == columns;
  }

  /** Block k shows the query columns `60k` to `60k + 60` on its first line, right after
      the zero-padded offset and ` OLC `, and the line ends there. */
  lemma BlockQueryColumns(query: string, matches: string, subject: string, k: nat)
    ensures var b := Block(query, matches, subject, 60 * k);
      var head := Pad4(60 * k) + " OLC ";
      var columns := Slice(query, 60 * k, 60 * k + 60);
      && |head| + |columns| < |b|
      && b[..|head|] == head
      && b[|head|..|head| + |columns|] == columns
      && b[|head| + |columns|] == '\n'
  {
    BlockLine(Pad4(60 * k), Slice(query, 60 * k, 60 * k + 60),
      Slice(matches, 60 * k, 60 * k + 60), Slice(subject, 60 * k, 60 * k + 60));
  }

  /** The query columns of the first n blocks, in order: block k shows
      `Slice(query, 60k, 60k + 60)` (BlockQueryColumns). */
  function QueryColumns(query: string, n: nat): string {
    if n == 0 then "" else QueryColumns(query, n - 1) + Slice(query, 60 * (n - 1), 60 * n)
  }

  lemma {:induction false} QueryColumnsPrefix(query: string, n: nat)
    ensures QueryColumns(query, n) == query[..if 60 * n <= |query| then 60 * n else |query|]
  {
    if n > 0 {
      QueryColumnsPrefix(query, n - 1);
    }
  }

  /** Reading the query columns of all blocks in order gives back the whole query: no
      column is lost or repeated. */
  lemma QueryRecovered(query: string)
    ensures QueryColumns(query, BlockCount(|query|)) == query
  {
    QueryColumnsPrefix(query, BlockCount(|query|));
  }

  /** Every block but the last shows 60 query columns, the last between 1 and 60. */
  lemma BlockWidths(query: string, k: nat)
    requires k < BlockCount(|query|)
    ensures k + 1 < BlockCount(|query|) ==> |Slice(query, 60 * k, 60 * k + 60)| == 60
    ensures 1 <= |Slice(query, 60 * k, 60 * k + 60)| <= 60
  {
  }

  /** Each block's match line marks exactly the equal columns of the query and reference
      shown in that block. */
  lemma BlockMatches(query: string, subject: string, k: nat)
    requires |query| <= |subject|
    ensures var lo, hi := 60 * k, 60 * k + 60;
      Slice(MatchLine(query, subject), lo, hi) == MatchLine(Slice(query, lo, hi), Slice(subject, lo, hi))
  {
    var lo, hi := 60 * k, 60 * k + 60;
    var m := MatchLine(query, subject);
    MatchLineAt(query, subject);
    MatchLineAt(Slice(query, lo, hi), Slice(subject, lo, hi));
    var left := Slice(m, lo, hi);
    var right := MatchLine(Slice(query, lo, hi), Slice(subject, lo, hi));
    assert |left| == |right|;
    forall i | 0 <= i < |left|
      ensures left[i] == right[i]
    {
      assert left[i] == m[lo + i];
      assert Slice(query, lo, hi)[i] == query[lo + i];
      assert Slice(subject, lo, hi)[i] == subject[lo + i];
    }
  }

  /** A block opens with its offset and ` OLC `; below offset 10000 the offset takes four
      digits, and read back it is `60 * k`. */
  lemma BlockHeader(query: string, matches: string, subject: string, k: nat)
    ensures var header := Pad4(60 * k) + " OLC ";
      && Block(query, matches, subject, 60 * k)[..|header|] == header
      && (60 * k < 10000 ==> |Pad4(60 * k)| == 4)
      && Scan(Pad4(60 * k), ScanState([], 0)) == ScanState([], 60 * k)
  {
    Pad4Shape(60 * k);
    Pad4ReadsBack(60 * k);
  }
}
