/** One tabular BLAST row and the hit the parser derives from it
    (geneseekr/geneseekr.py, unique_parse_blast). */
module Hits {
  import Dna

  /** The BLAST program the report came from. */
  datatype Program = Blastn | Blastp | Blastx | Tblastn | Tblastx

  /** One report row, with its numeric columns already read as integers. */
  datatype Row = Row(
    queryId: string,
    queryStart: int,
    queryEnd: int,
    subjectId: string,
    subjectStart: int,
    subjectEnd: int,
    subjectLength: nat,
    positives: nat,
    gaps: nat,
    alignmentLength: nat,
    bitScore: string,
    querySequence: string)

  /** A location `[lo, hi]` on a contig, as the two-element lists of `queryranges`. */
  datatype Span = Span(lo: int, hi: int)

  /** A scored hit: the report row as the parser keeps it in `results` and `blastlist`, with
      the derived bounds and scores. `percent` and `alignmentFraction` are in hundredths of a
      percent; `querySequence` is the row's raw query sequence, never reoriented. */
  datatype Hit = Hit(
    contig: string,
    subjectId: string,
    low: int,
    high: int,
    percent: nat,
    alignmentFraction: nat,
    bitScore: string,
    reverse: bool,
    querySequence: string)

  /** blastn, blastp and blastx keep the subject length; the translated searches divide it by 3. */
  function LengthDivisor(program: Program): (d: nat)
    ensures d == 1 <==> program in {Blastn, Blastp, Blastx}
    ensures d == 1 || d == 3
  {
    if program == Blastn || program == Blastp || program == Blastx then 1 else 3
  }

  /** q is num / den rounded to the nearest integer, halves rounded up. */
  ghost predicate IsNearest(q: int, num: int, den: int) {
    -den < 2 * (q * den - num) <= den
  }

  function Nearest(num: nat, den: nat): (q: nat)
    requires den > 0
    ensures IsNearest(q, num, den)
  {
    var q := (2 * num + den) / (2 * den);
    assert 2 * den * q <= 2 * num + den < 2 * den * q + 2 * den;
    q
  }

  /** `value / (subject_length / divisor) * 100`, in hundredths of a percent. */
  function Hundredths(value: nat, subjectLength: nat, program: Program): (r: nat)
    requires subjectLength > 0
    ensures IsNearest(r, 10000 * LengthDivisor(program) * value, subjectLength)
  {
    Nearest(10000 * LengthDivisor(program) * value, subjectLength)
  }

  /** The hit derived from one row: bounds, orientation and scores; the raw query sequence
      is carried over unchanged. */
  function Derive(row: Row, program: Program): (h: Hit)
    requires row.subjectLength > 0
    ensures h.contig == row.queryId && h.subjectId == row.subjectId && h.bitScore == row.bitScore
    ensures h.low <= h.high
    ensures (h.low == row.queryStart && h.high == row.queryEnd)
         || (h.low == row.queryEnd && h.high == row.queryStart)
    ensures h.reverse <==> row.subjectEnd < row.subjectStart
    ensures h.querySequence == row.querySequence
    ensures h.percent == Hundredths(row.positives, row.subjectLength, program)
    ensures h.alignmentFraction == Hundredths(row.alignmentLength, row.subjectLength, program)
  {
    var high := if row.queryStart >= row.queryEnd then row.queryStart else row.queryEnd;
    var low := if row.queryStart <= row.queryEnd then row.queryStart else row.queryEnd;
    Hit(row.queryId, row.subjectId, low, high,
        Hundredths(row.positives, row.subjectLength, program),
        Hundredths(row.alignmentLength, row.subjectLength, program),
        row.bitScore, row.subjectEnd < row.subjectStart, row.querySequence)
  }

  /** The sequence stored in `targetsequence` for a hit: on the reverse strand the reverse
      complement of the query sequence, otherwise the query sequence itself. */
  function Oriented(h: Hit): string {
    if h.reverse then Dna.ReverseComplement(h.querySequence) else h.querySequence
  }

  /** The stored sequence is as long as the query sequence, and on the reverse strand
      complementing it back gives the query sequence as read. */
  lemma OrientedRoundTrip(h: Hit)
    ensures |Oriented(h)| == |h.querySequence|
    ensures h.reverse ==> Dna.ReverseComplement(Oriented(h)) == h.querySequence
    ensures !h.reverse ==> Oriented(h) == h.querySequence
  {
    Dna.ReverseComplementInvolution(h.querySequence);
  }

  /** A row on the reverse strand stores the reverse complement of its query sequence, a
      forward row the query sequence itself. */
  lemma DeriveOrientation(row: Row, program: Program)
    requires row.subjectLength > 0
    ensures Oriented(Derive(row, program)) ==
      if row.subjectEnd < row.subjectStart then Dna.ReverseComplement(row.querySequence) else row.querySequence
  {
  }
}
