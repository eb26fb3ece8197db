/** Reverse complement of a nucleotide string, the operation the parser applies to the query
    sequence of a hit that aligns to the reverse strand of its reference. */
module Dna {

  /** Watson-Crick complement of one base; any other character is kept as it is. */
  function Complement(c: char): char {
    match c
    case 'A' => 'T'
    case 'T' => 'A'
    case 'C' => 'G'
    case 'G' => 'C'
    case 'a' => 't'
    case 't' => 'a'
    case 'c' => 'g'
    case 'g' => 'c'
    case _ => c
  }

  lemma ComplementInvolution(c: char)
    ensures Complement(Complement(c)) == c
  {
  }

  function ReverseComplement(s: string): (r: string)
    ensures |r| == |s|
  {
    if s == [] then [] else ReverseComplement(s[1..]) + [Complement(s[0])]
  }

  lemma {:induction false} ReverseComplementAt(s: string, i: nat)
    requires i < |s|
    ensures ReverseComplement(s)[i] == Complement(s[|s| - 1 - i])
  {
    if i < |s| - 1 {
      ReverseComplementAt(s[1..], i);
    }
  }

  /** Applying the reverse complement twice gives the original sequence back. */
  lemma ReverseComplementInvolution(s: string)
    ensures ReverseComplement(ReverseComplement(s)) == s
  {
    var r := ReverseComplement(s);
    forall i | 0 <= i < |s|
      ensures ReverseComplement(r)[i] == s[i]
    {
      ReverseComplementAt(r, i);
      ReverseComplementAt(s, |s| - 1 - i);
      ComplementInvolution(s[i]);
    }
  }
}
