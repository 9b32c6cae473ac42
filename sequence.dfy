/**
 * Sequence primitives of get_seq.c: reverse_complement and subseq, over the
 * origin sequence's characters.
 */
module Sequence {
  import opened Outcome

  /** The characters reverse_complement has a case for. */
  predicate IsBase(c: char)
  {
    c == 'A' || c == 'C' || c == 'G' || c == 'T' || c == 'a' || c == 'c' || c == 'g' || c == 't'
  }

  predicate IsUpperBase(c: char)
  {
    c == 'A' || c == 'C' || c == 'G' || c == 'T'
  }

  predicate IsDna(s: string)
  {
    forall k :: 0 <= k < |s| ==> IsBase(s[k])
  }

  predicate IsUpperDna(s: string)
  {
    forall k :: 0 <= k < |s| ==> IsUpperBase(s[k])
  }

  /** The paired base, upper-case whatever the case of `c`: A and T pair, C and G pair. */
  function Complement(c: char): (d: char)
    requires IsBase(c)
    ensures IsUpperBase(d)
  {
    if c == 'A' || c == 'a' then 'T'
    else if c == 'T' || c == 't' then 'A'
    else if c == 'C' || c == 'c' then 'G'
    else 'C'
  }

  /** Pairing an upper-case base twice gives it back. */
  lemma ComplementTwice(c: char)
    requires IsUpperBase(c)
    ensures Complement(Complement(c)) == c
  {
  }

  /**
   * reverse_complement (get_seq.c:173-186): the complement of the last base
   * comes first.  Characters outside A/C/G/T/a/c/g/t have no case in the C
   * switch and leave an unwritten byte, so the model requires bases.
   */
  function ReverseComplement(s: string): (r: string)
    requires IsDna(s)
    ensures |r| == |s|
    ensures forall m :: 0 <= m < |r| ==> r[m] == Complement(s[|s| - 1 - m])
    ensures IsUpperDna(r)
    decreases |s|
  {
    if s == [] then []
    else [Complement(s[|s| - 1])] + ReverseComplement(s[..|s| - 1])
  }

  /** The loop of reverse_complement: index i walks the input backwards while m fills a fresh buffer forwards. */
  method ReverseComplementBuffer(s: string) returns (r: string)
    requires IsDna(s)
    ensures r == ReverseComplement(s)
  {
    var len := |s|;
    var rc := new char[len];
    var i, m := len - 1, 0;
    while i >= 0
      invariant -1 <= i < len && m == len - 1 - i
      invariant forall k :: 0 <= k < m ==> rc[k] == Complement(s[len - 1 - k])
    {
      rc[m] := Complement(s[i]);
      i, m := i - 1, m + 1;
    }
    r := rc[..];
  }

  /** Complementing the concatenation of two pieces puts the second piece's complement first. */
  lemma ReverseComplementOfConcat(a: string, b: string)
    requires IsDna(a) && IsDna(b)
    ensures IsDna(a + b)
    ensures ReverseComplement(a + b) == ReverseComplement(b) + ReverseComplement(a)
  {
    var ab := a + b;
    var lhs, rhs := ReverseComplement(ab), ReverseComplement(b) + ReverseComplement(a);
    forall m | 0 <= m < |lhs|
      ensures lhs[m] == rhs[m]
    {
      if m < |b| {
        assert ab[|ab| - 1 - m] == b[|b| - 1 - m];
      } else {
        assert ab[|ab| - 1 - m] == a[|a| - 1 - (m - |b|)];
      }
    }
  }

  lemma UpperDnaIsDna(s: string)
    requires IsUpperDna(s)
    ensures IsDna(s)
  {
    forall k | 0 <= k < |s| ensures IsBase(s[k]) { assert IsUpperBase(s[k]); }
  }

  /** On upper-case DNA, reverse_complement undoes itself. */
  lemma ReverseComplementTwice(s: string)
    requires IsUpperDna(s)
    ensures IsDna(s) && IsDna(ReverseComplement(s))
    ensures ReverseComplement(ReverseComplement(s)) == s
  {
    UpperDnaIsDna(s);
    UpperDnaIsDna(ReverseComplement(s));
    forall m | 0 <= m < |s|
      ensures ReverseComplement(ReverseComplement(s))[m] == s[m]
    {
      ReverseComplementTwiceAt(s, m);
    }
  }

  lemma ReverseComplementTwiceAt(s: string, m: nat)
    requires IsDna(s) && IsDna(ReverseComplement(s)) && m < |s| && IsUpperBase(s[m])
    ensures ReverseComplement(ReverseComplement(s))[m] == s[m]
  {
    var r := ReverseComplement(s);
    var n := |r| - 1 - m;
    assert r[n] == Complement(s[m]);
    ComplementTwice(s[m]);
  }

  /**
   * subseq (get_seq.c:189-201): positions start..end, 1-based and inclusive.
   * The only check is on the end: after the decrement, `end >= strlen(str)`
   * compares an int with a size_t, so an end past the string and an end
   * below 1 (negative once decremented, huge once converted) both take the
   * "Invalid location" exit, which prints the decremented bounds.  A start
   * outside 1..end+1 copies from outside the string: the model requires it
   * not to happen when the end passes the check.
   */
  function Subseq(str: string, start: int, end: int): (r: Result<string>)
    requires 1 <= end <= |str| ==> 1 <= start <= end + 1
    ensures r.Ok? <==> 1 <= end <= |str|
    ensures r.Ok? ==> |r.value| == end - start + 1
    ensures r.Ok? ==> forall k :: 0 <= k < |r.value| ==> r.value[k] == str[start - 1 + k]
    ensures r.Err? ==> r.error == InvalidLocation(start - 1, end - 1)
  {
    if end < 1 || end > |str| then Err(InvalidLocation(start - 1, end - 1))
    else Ok(str[start - 1..end])
  }

  /** subseq's precondition, as a test the evaluator can make before calling it. */
  predicate SubseqDefined(str: string, start: int, end: int)
  {
    1 <= end <= |str| ==> 1 <= start <= end + 1
  }

  /** A slice of DNA is DNA. */
  lemma SubseqOfDna(str: string, start: int, end: int)
    requires SubseqDefined(str, start, end) && IsDna(str)
    ensures Subseq(str, start, end).Ok? ==> IsDna(Subseq(str, start, end).value)
  {
  }
}
