/**
 * Reverse complement of a DNA strand (inclass/order_of_growth/dna.py).
 *
 * A strand is a string over the nucleotide letters A, C, G and T.  The
 * reverse complement reverses the strand and replaces every base by its
 * Watson-Crick partner (A with T, C with G).  The exercise computes it in
 * two ways, by prepending to a string and by walking the strand backwards
 * while appending to a list that is joined at the end; both are methods
 * here, proved equal to one specification function.
 */
module Dna {

  predicate IsBase(c: char) {
    c == 'A' || c == 'C' || c == 'G' || c == 'T'
  }

  predicate IsDna(s: string) {
    forall i :: 0 <= i < |s| ==> IsBase(s[i])
  }

  /** The Watson-Crick partner of a base.  The source has no case for any
      other character (it falls through to None), so only bases are accepted. */
  function Complement(c: char): (r: char)
    requires IsBase(c)
    ensures IsBase(r)
    ensures r != c
    // the partner stays within its pair: {A, T} and {C, G}
    ensures (c == 'A' || c == 'T') <==> (r == 'A' || r == 'T')
  {
    if c == 'A' then 'T'
    else if c == 'C' then 'G'
    else if c == 'G' then 'C'
    else 'A'
  }

  lemma ComplementInvolution(c: char)
    requires IsBase(c)
    ensures Complement(Complement(c)) == c
  {
  }

  /** Specification: the complement of the last base, followed by the
      reverse complement of everything before it. */
  function ReverseComplement(s: string): (r: string)
    requires IsDna(s)
    ensures |r| == |s|
    ensures IsDna(r)
  {
    if s == [] then [] else [Complement(s[|s| - 1])] + ReverseComplement(s[..|s| - 1])
  }

  /** Position i of the reverse complement is the partner of position |s|-1-i. */
  lemma {:induction false} ReverseComplementAt(s: string, i: nat)
    requires IsDna(s) && i < |s|
    ensures ReverseComplement(s)[i] == Complement(s[|s| - 1 - i])
  {
    if i > 0 {
      ReverseComplementAt(s[..|s| - 1], i - 1);
    }
  }

  /** Any string that is positionwise the partner of the mirrored input is the
      reverse complement. */
  lemma {:induction false} ReverseComplementUnique(s: string, r: string)
    requires IsDna(s)
    requires |r| == |s|
    requires forall j :: 0 <= j < |r| ==> r[j] == Complement(s[|s| - 1 - j])
    ensures r == ReverseComplement(s)
  {
    forall j | 0 <= j < |r|
      ensures r[j] == ReverseComplement(s)[j]
    {
      ReverseComplementAt(s, j);
    }
  }

  /** Taking the reverse complement twice gives back the strand. */
  lemma {:induction false} ReverseComplementInvolution(s: string)
    requires IsDna(s)
    ensures ReverseComplement(ReverseComplement(s)) == s
  {
    var r := ReverseComplement(s);
    forall j | 0 <= j < |s|
      ensures ReverseComplement(r)[j] == s[j]
    {
      ReverseComplementAt(r, j);
      ReverseComplementAt(s, |s| - 1 - j);
      ComplementInvolution(s[j]);
    }
  }

  /** The first doctest of both routines. */
  lemma ReverseComplementExample1()
    ensures ReverseComplement("ATGCCCGCTTT") == "AAAGCGGGCAT"
  {
    ReverseComplementUnique("ATGCCCGCTTT", "AAAGCGGGCAT");
  }

  /** The second doctest of both routines. */
  lemma ReverseComplementExample2()
    ensures ReverseComplement("CCGCGTTCA") == "TGAACGCGG"
  {
    ReverseComplementUnique("CCGCGTTCA", "TGAACGCGG");
  }

  /** reverse_complement_1: prepend the partner of each base in turn. */
  method ReverseComplement1(dna: string) returns (r: string)
    requires IsDna(dna)
    ensures r == ReverseComplement(dna)
  {
    r := "";
    for i := 0 to |dna|
      invariant r == ReverseComplement(dna[..i])
    {
      assert dna[..i + 1][..i] == dna[..i];
      r := [Complement(dna[i])] + r;
    }
    assert dna[..|dna|] == dna;
  }

  /** "".join of a list of strings: the parts one after the other.  For
      one-character parts, as reverse_complement_2 joins, the result is the
      string of those characters in order. */
  function Join(parts: seq<string>): (r: string)
    ensures parts != [] ==> |r| >= |parts[|parts| - 1]| && r[|r| - |parts[|parts| - 1]|..] == parts[|parts| - 1]
    ensures (forall k :: 0 <= k < |parts| ==> |parts[k]| == 1) ==>
              |r| == |parts| && forall k :: 0 <= k < |parts| ==> r[k] == parts[k][0]
  {
    if parts == [] then "" else Join(parts[..|parts| - 1]) + parts[|parts| - 1]
  }

  /** reverse_complement_2: walk the strand backwards, append each partner
      (a one-character string) to a list, and join the list. */
  method ReverseComplement2(dna: string) returns (r: string)
    requires IsDna(dna)
    ensures r == ReverseComplement(dna)
  {
    var parts: seq<string> := [];
    var i := |dna|;
    while i > 0
      invariant 0 <= i <= |dna|
      invariant |parts| == |dna| - i
      invariant forall k :: 0 <= k < |parts| ==> parts[k] == [Complement(dna[|dna| - 1 - k])]
    {
      i := i - 1;
      parts := parts + [[Complement(dna[i])]];
    }
    r := Join(parts);
    ReverseComplementUnique(dna, r);
  }

  /** The two routines agree on every strand. */
  method BothRoutinesAgree(dna: string) returns (r1: string, r2: string)
    requires IsDna(dna)
    ensures r1 == r2
    ensures IsDna(r1) && ReverseComplement(r1) == dna
  {
    r1 := ReverseComplement1(dna);
    r2 := ReverseComplement2(dna);
    ReverseComplementInvolution(dna);
  }
}
