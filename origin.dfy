/**
 * The first pass of extract_annotation (get_seq.c:375-444): one scan of the
 * GenBank file that picks up the organism name and assembles the upper-case
 * ORIGIN sequence.  The result is the record the C code calls faa: its gene
 * field holds the organism, its sequence field the genome.
 */
module Origin {
  import opened Outcome
  import opened Text

  /** The faa record: the organism name (with the line's newline) and the genome sequence. */
  datatype Genome = Genome(organism: string, origin: string)

  /** The organism name used when no line mentions ORGANISM. */
  const DefaultOrganism := "Chr1\n"

  /** Header lines are copied after their first 12 characters. */
  const HeaderColumn := 12

  predicate NoLower(s: string)
  {
    forall k :: 0 <= k < |s| ==> !('a' <= s[k] <= 'z')
  }

  // ------------------------------------------------------- sequence lines

  /** Up to `n` successive `%s` conversions, stopping at the first that fails; the words read, concatenated. */
  function ScanWords(s: string, n: nat): (w: string)
    decreases n
  {
    if n == 0 then ""
    else
      match ScanWord(s)
      case None => ""
      case Some((word, rest)) => word + ScanWords(rest, n - 1)
  }

  /**
   * One line after ORIGIN: `"        %*d %s %s %s %s %s %s"` (blanks, a
   * position number that is read and dropped, then up to six words), the
   * words run together and upper-cased.  A line without the number yields
   * nothing.
   */
  function OriginChunk(line: string): (chunk: string)
    ensures NoLower(chunk)
  {
    match ScanInt(SkipSpace(line))
    case None => ""
    case Some((_, rest)) =>
      var words := ScanWords(rest, 6);
      UpperHasNoLower(words);
      ToUpper(words)
  }

  lemma UpperHasNoLower(s: string)
    ensures NoLower(ToUpper(s))
  {
    forall k | 0 <= k < |s|
      ensures !('a' <= ToUpper(s)[k] <= 'z')
    {
      var c := s[k];
      assert ToUpper(s)[k] == UpperChar(c);
    }
  }

  // ---------------------------------------------------------- the whole pass

  /**
   * The sequence held after `lines`: nothing before the first line containing
   * "ORIGIN"; each such line starts it afresh, and every other line after it
   * appends its chunk.
   */
  function SinceOrigin(lines: seq<string>): (o: Option<string>)
    ensures o.Some? ==> NoLower(o.value)
    decreases |lines|
  {
    if lines == [] then None
    else
      var last := lines[|lines| - 1];
      if Contains(last, "ORIGIN") then Some("")
      else
        match SinceOrigin(lines[..|lines| - 1])
        case None => None
        case Some(o) =>
          NoLowerConcat(o, OriginChunk(last));
          Some(o + OriginChunk(last))
  }

  lemma NoLowerConcat(a: string, b: string)
    requires NoLower(a) && NoLower(b)
    ensures NoLower(a + b)
  {
    forall k | 0 <= k < |a + b|
      ensures !('a' <= (a + b)[k] <= 'z')
    {
      if k >= |a| {
        assert (a + b)[k] == b[k - |a|];
      }
    }
  }

  /** `line + 12`: the line after its first 12 characters, for a line that has that many. */
  function FromColumn(line: string): string
  {
    if |line| >= HeaderColumn then line[HeaderColumn..] else ""
  }

  /** The organism name after `lines`: the text of the last line containing "ORGANISM", after its first 12 characters. */
  function Organism(lines: seq<string>): Option<string>
    decreases |lines|
  {
    if lines == [] then None
    else
      var last := lines[|lines| - 1];
      if Contains(last, "ORGANISM") then Some(FromColumn(last)) else Organism(lines[..|lines| - 1])
  }

  /**
   * Every ORGANISM and ACCESSION line has at least 12 characters.  On a shorter one
   * the C code measures and copies bytes past the line's terminator.
   */
  predicate HeadersReadable(lines: seq<string>)
  {
    forall i :: 0 <= i < |lines| && (Contains(lines[i], "ORGANISM") || Contains(lines[i], "ACCESSION")) ==>
      |lines[i]| >= HeaderColumn
  }

  /** The first pass: undefined on a short header line, the "gb file format error" exit without an ORIGIN line. */
  function FirstPass(lines: seq<string>): (r: Result<Genome>)
    ensures r.Ok? <==> HeadersReadable(lines) && SinceOrigin(lines).Some?
    ensures r.Err? && HeadersReadable(lines) ==> r.error == MissingOrigin
    ensures r.Ok? ==> NoLower(r.value.origin)
  {
    if !HeadersReadable(lines) then Err(Undefined)
    else
      match SinceOrigin(lines)
      case None => Err(MissingOrigin)
      case Some(o) =>
        var organism := match Organism(lines) case None => DefaultOrganism case Some(name) => name;
        Ok(Genome(organism, o))
  }

  /** The toupper loop over temp_faa. */
  method UpperCase(s: string) returns (r: string)
    ensures r == ToUpper(s)
  {
    var buf := new char[|s|](k requires 0 <= k < |s| => s[k]);
    var i := 0;
    while i < buf.Length
      invariant 0 <= i <= buf.Length == |s|
      invariant forall k :: 0 <= k < i ==> buf[k] == UpperChar(s[k])
      invariant forall k :: i <= k < |s| ==> buf[k] == s[k]
    {
      buf[i] := UpperChar(buf[i]);
      i := i + 1;
    }
    r := buf[..];
  }

  /** The first pass's loop over the lines, with the organism and the sequence as variables. */
  method ReadGenome(lines: seq<string>) returns (r: Result<Genome>)
    ensures r == FirstPass(lines)
  {
    var organ: Option<string> := None;
    var sequence: Option<string> := None;
    var i := 0;
    while i < |lines|
      invariant 0 <= i <= |lines|
      invariant HeadersReadable(lines[..i])
      invariant organ == Organism(lines[..i])
      invariant sequence == SinceOrigin(lines[..i])
    {
      var line := lines[i];
      assert lines[..i + 1][..i] == lines[..i];
      if Contains(line, "ORGANISM") {
        if |line| < HeaderColumn {
          return Err(Undefined);
        }
        organ := Some(line[HeaderColumn..]);
      }
      if Contains(line, "ACCESSION") && |line| < HeaderColumn {
        return Err(Undefined);
      }
      if Contains(line, "ORIGIN") {
        sequence := Some("");
      } else if sequence.Some? {
        var chunk := "";
        match ScanInt(SkipSpace(line)) {
          case None =>
          case Some((_, rest)) =>
            chunk := UpperCase(ScanWords(rest, 6));
        }
        sequence := Some(sequence.value + chunk);
      }
      i := i + 1;
    }
    assert lines[..i] == lines;
    if sequence.None? {
      return Err(MissingOrigin);
    }
    var organism := if organ.Some? then organ.value else DefaultOrganism;
    r := Ok(Genome(organism, sequence.value));
  }

  // ------------------------------------------------------------ properties

  /** The chunks of `lines`, concatenated in order. */
  function Chunks(lines: seq<string>): string
    decreases |lines|
  {
    if lines == [] then "" else Chunks(lines[..|lines| - 1]) + OriginChunk(lines[|lines| - 1])
  }

  lemma SinceOriginMarker(prefix: seq<string>, line: string)
    requires Contains(line, "ORIGIN")
    ensures SinceOrigin(prefix + [line]) == Some("")
  {
  }

  lemma SinceOriginAppend(prefix: seq<string>, line: string)
    requires !Contains(line, "ORIGIN")
    ensures SinceOrigin(prefix + [line]) ==
      match SinceOrigin(prefix) case None => None case Some(o) => Some(o + OriginChunk(line))
  {
    var lines := prefix + [line];
    assert lines[|lines| - 1] == line;
    assert lines[..|lines| - 1] == prefix;
  }

  /**
   * Only the last ORIGIN line counts: whatever precedes it contributes
   * nothing, and the sequence is the chunks of the lines after it.
   */
  lemma {:induction false} SequenceAfterLastOrigin(before: seq<string>, marker: string, after: seq<string>)
    requires Contains(marker, "ORIGIN")
    requires forall k :: 0 <= k < |after| ==> !Contains(after[k], "ORIGIN")
    ensures SinceOrigin(before + [marker] + after) == Some(Chunks(after))
    decreases |after|
  {
    if after == [] {
      SinceOriginMarker(before, marker);
      assert before + [marker] + after == before + [marker];
    } else {
      var shorter, last := after[..|after| - 1], after[|after| - 1];
      assert before + [marker] + after == (before + [marker] + shorter) + [last];
      SequenceAfterLastOrigin(before, marker, shorter);
      SinceOriginAppend(before + [marker] + shorter, last);
    }
  }

  /** Without an ORIGIN line there is no sequence. */
  lemma {:induction false} NoOriginNoSequence(lines: seq<string>)
    requires forall k :: 0 <= k < |lines| ==> !Contains(lines[k], "ORIGIN")
    ensures SinceOrigin(lines) == None
    decreases |lines|
  {
    if lines != [] {
      NoOriginNoSequence(lines[..|lines| - 1]);
    }
  }

  /** With readable headers and no ORIGIN line, the pass ends in the format-error exit. */
  lemma MissingOriginFails(lines: seq<string>)
    requires HeadersReadable(lines)
    requires forall k :: 0 <= k < |lines| ==> !Contains(lines[k], "ORIGIN")
    ensures FirstPass(lines) == Err(MissingOrigin)
  {
    NoOriginNoSequence(lines);
  }

  /** The organism is the last ORGANISM line after its first 12 characters. */
  lemma {:induction false} OrganismIsLast(before: seq<string>, line: string, after: seq<string>)
    requires Contains(line, "ORGANISM")
    requires forall k :: 0 <= k < |after| ==> !Contains(after[k], "ORGANISM")
    ensures Organism(before + [line] + after) == Some(FromColumn(line))
    decreases |after|
  {
    var lines := before + [line] + after;
    if after == [] {
      assert lines[|lines| - 1] == line;
    } else {
      var shorter := after[..|after| - 1];
      assert lines[..|lines| - 1] == before + [line] + shorter;
      assert lines[|lines| - 1] == after[|after| - 1];
      OrganismIsLast(before, line, shorter);
    }
  }

  /** Without an ORGANISM line there is no organism name, so the record gets "Chr1". */
  lemma {:induction false} NoOrganismIsDefault(lines: seq<string>)
    requires forall k :: 0 <= k < |lines| ==> !Contains(lines[k], "ORGANISM")
    ensures Organism(lines) == None
    ensures FirstPass(lines).Ok? ==> FirstPass(lines).value.organism == DefaultOrganism
    decreases |lines|
  {
    if lines != [] {
      NoOrganismIsDefault(lines[..|lines| - 1]);
    }
  }

  /** A line of the sequence block as GenBank writes it: each word preceded by one blank, then `tail`. */
  function BlockLine(words: seq<string>, tail: string): string
    decreases |words|
  {
    if words == [] then tail else " " + words[0] + BlockLine(words[1..], tail)
  }

  predicate AllWords(words: seq<string>)
  {
    forall k :: 0 <= k < |words| ==> IsWord(words[k])
  }

  lemma AllWordsTail(words: seq<string>)
    requires words != [] && AllWords(words)
    ensures IsWord(words[0]) && AllWords(words[1..])
  {
    assert IsWord(words[0]);
    forall k | 0 <= k < |words| - 1
      ensures IsWord(words[1..][k])
    {
      assert words[1..][k] == words[k + 1];
    }
  }

  lemma {:induction false} ScanWordOfBlank(s: string)
    requires Blank(s)
    ensures ScanWord(s) == None
  {
    SkipSpaceOfBlank(s);
    assert NonBlankPrefix([]) == [];
  }

  /** The first `n` words, or all of them when there are fewer. */
  function Take(words: seq<string>, n: nat): seq<string>
  {
    if n < |words| then words[..n] else words
  }

  /** `n` conversions read the first `n` words of a block line. */
  lemma {:induction false} ScanWordsOfBlocks(words: seq<string>, n: nat, tail: string)
    requires AllWords(words)
    requires Blank(tail)
    ensures ScanWords(BlockLine(words, tail), n) == Concat(Take(words, n))
    decreases n, 1
  {
    if n == 0 || words == [] {
      ScanWordsOfNoBlocks(words, n, tail);
    } else {
      ScanWordsOfBlockLine(words, n, tail);
    }
  }

  lemma ScanWordsOfNoBlocks(words: seq<string>, n: nat, tail: string)
    requires n == 0 || words == []
    requires Blank(tail)
    ensures ScanWords(BlockLine(words, tail), n) == Concat(Take(words, n))
  {
    if n == 0 {
      assert Take(words, n) == [];
    } else {
      ScanWordOfBlank(tail);
    }
  }

  lemma {:induction false} ScanWordsOfBlockLine(words: seq<string>, n: nat, tail: string)
    requires words != [] && n > 0 && AllWords(words) && Blank(tail)
    ensures ScanWords(BlockLine(words, tail), n) == Concat(Take(words, n))
    decreases n, 0
  {
    AllWordsTail(words);
    ScanWordsOfBlocks(words[1..], n - 1, tail);
    BlockLineStart(words[1..], tail);
    BlockLineCons(words, tail);
    ScanWordsFront(BlockLine(words, tail), words, n, BlockLine(words[1..], tail));
  }

  lemma BlockLineCons(words: seq<string>, tail: string)
    requires words != []
    ensures BlockLine(words, tail) == " " + words[0] + BlockLine(words[1..], tail)
  {
  }

  /** A block line is empty or starts with a blank. */
  lemma BlockLineStart(words: seq<string>, tail: string)
    requires Blank(tail)
    ensures var s := BlockLine(words, tail); s == [] || IsSpace(s[0])
  {
  }

  /** The first conversion reads the first word; the others read on from there. */
  lemma ScanWordsFront(line: string, words: seq<string>, n: nat, rest: string)
    requires words != [] && n > 0 && IsWord(words[0])
    requires line == " " + words[0] + rest
    requires rest == [] || IsSpace(rest[0])
    requires ScanWords(rest, n - 1) == Concat(Take(words[1..], n - 1))
    ensures ScanWords(line, n) == Concat(Take(words, n))
  {
    ScanWordOfWord(" ", words[0], rest);
    var t := Take(words, n);
    assert t[0] == words[0];
    assert t[1..] == Take(words[1..], n - 1);
  }

  /**
   * A sequence line as GenBank writes it (blanks, the position, up to six
   * blocks, the newline) contributes its blocks, upper-cased; blocks beyond
   * the sixth are dropped.
   */
  lemma SequenceLineChunk(indent: string, position: nat, words: seq<string>)
    requires Blank(indent)
    requires AllWords(words)
    ensures OriginChunk(indent + NatToString(position) + BlockLine(words, "\n")) == ToUpper(Concat(Take(words, 6)))
  {
    var digits, tail := NatToString(position), BlockLine(words, "\n");
    var line := indent + digits + tail;
    IndentThenNumber(indent, digits, tail);
    BlockLineStart(words, "\n");
    ScanIntOfNat(position, tail);
    OriginChunkOfScan(line, position, tail);
    ScanWordsOfBlocks(words, 6, "\n");
  }

  lemma IndentThenNumber(indent: string, digits: string, tail: string)
    requires Blank(indent) && digits != [] && !IsSpace(digits[0])
    ensures SkipSpace(indent + digits + tail) == digits + tail
  {
    ConcatAssoc(indent, digits, tail);
    SkipSpaceOfBlanks(indent, digits + tail);
  }

  lemma OriginChunkOfScan(line: string, v: int, rest: string)
    requires ScanInt(SkipSpace(line)) == Some((v, rest))
    ensures OriginChunk(line) == ToUpper(ScanWords(rest, 6))
  {
  }

  /** A line after ORIGIN whose first non-blank is not a number (the closing "//", say) adds nothing. */
  lemma NonNumberLineChunk(line: string)
    requires var t := SkipSpace(line); t == [] || !(IsDigit(t[0]) || t[0] == '-' || t[0] == '+')
    ensures OriginChunk(line) == ""
  {
    var t := SkipSpace(line);
    assert SkipSpace(t) == t;
  }
}
