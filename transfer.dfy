/**
 * The horizontal-gene-transfer report: genes of a mitochondrial genome
 * placed against the query spans of BLASTN alignments of chloroplast
 * sequence.  A gene lying inside a span is a complete transferred gene, one
 * with an end strictly inside it an incomplete one.
 */
module Transfer {
  import opened Text

  // ------------------------------------------------------------------ records

  /** A row of the gene location table: name, start, end, length, strand. */
  datatype Gene = Gene(name: string, start: int, end: int, length: int, strand: int)

  /** A row of the BLASTN table, the percent identity left out. */
  datatype Alignment = Alignment(query: string, subject: string, alignmentLength: int,
                                 qStart: int, qEnd: int, sStart: int, sEnd: int)

  /** A row of the report: its number, the two genome labels, the alignment's figures, the complete genes, the incomplete ones. */
  datatype Row = Row(number: int, cp: string, mt: string, alignmentLength: int,
                     qStart: int, qEnd: int, sStart: int, sEnd: int,
                     complete: string, incomplete: string)

  datatype Placement = Complete | Incomplete | Outside

  // ------------------------------------------------------------ the test

  function Min(a: int, b: int): int
  {
    if a < b then a else b
  }

  function Max(a: int, b: int): int
  {
    if a > b then a else b
  }

  /** Where a gene lies against a query span written either way round. */
  function Place(g: Gene, qs: int, qe: int): Placement
  {
    if Min(g.start, g.end) >= Min(qs, qe) && Max(g.start, g.end) <= Max(qs, qe) then Complete
    else if (g.start > Min(qs, qe) && g.start < Max(qs, qe)) || (g.end > Min(qs, qe) && g.end < Max(qs, qe)) then Incomplete
    else Outside
  }

  /** Position `x` lies between `a` and `b`, ends included, whichever is larger. */
  predicate Between(x: int, a: int, b: int)
  {
    (a <= x <= b) || (b <= x <= a)
  }

  /** Position `x` lies strictly between `a` and `b`. */
  predicate Inside(x: int, a: int, b: int)
  {
    (a < x < b) || (b < x < a)
  }

  /** Every position of the gene is a position of the span. */
  ghost predicate Contained(g: Gene, qs: int, qe: int)
  {
    forall x :: Between(x, g.start, g.end) ==> Between(x, qs, qe)
  }

  /** A gene is complete exactly when every position of it lies in the span. */
  lemma CompleteIffContained(g: Gene, qs: int, qe: int)
    ensures Place(g, qs, qe) == Complete <==> Contained(g, qs, qe)
  {
    if Contained(g, qs, qe) {
      assert Between(g.start, g.start, g.end) && Between(g.end, g.start, g.end);
    }
  }

  /** A gene is incomplete exactly when it is not contained and one of its ends lies strictly inside the span. */
  lemma IncompleteIffEndInside(g: Gene, qs: int, qe: int)
    ensures Place(g, qs, qe) == Incomplete <==>
      !Contained(g, qs, qe) && (Inside(g.start, qs, qe) || Inside(g.end, qs, qe))
  {
    CompleteIffContained(g, qs, qe);
  }

  /** The span may be written either way round. */
  lemma PlaceSwapsSpan(g: Gene, qs: int, qe: int)
    ensures Place(g, qs, qe) == Place(g, qe, qs)
  {
  }

  /** A gene on the reverse strand, its start after its end, is placed as the same gene written forwards. */
  lemma PlaceIgnoresStrand(g: Gene, qs: int, qe: int)
    ensures Place(g, qs, qe) == Place(g.(start := g.end, end := g.start), qs, qe)
  {
  }

  /** A gene reaching past both ends of the span is in neither list, though the whole span lies in it. */
  lemma SpanningGeneOutside(g: Gene, qs: int, qe: int)
    requires Min(g.start, g.end) < Min(qs, qe) && Max(g.start, g.end) > Max(qs, qe)
    ensures Place(g, qs, qe) == Outside
    ensures forall x :: Between(x, qs, qe) ==> Between(x, g.start, g.end)
  {
  }

  /** A gene of more than one position that meets the span only at one of the span's bounds is in neither list. */
  lemma TouchingGeneOutside(g: Gene, qs: int, qe: int)
    requires Min(g.start, g.end) < Max(g.start, g.end)
    requires Max(g.start, g.end) == Min(qs, qe) || Min(g.start, g.end) == Max(qs, qe)
    ensures Place(g, qs, qe) == Outside
  {
  }

  // ----------------------------------------------------------- the two lists

  /** The genes placed `p` against the span, in input order. */
  function Chosen(genes: seq<Gene>, qs: int, qe: int, p: Placement): (c: seq<Gene>)
    ensures |c| <= |genes|
    decreases |genes|
  {
    if genes == [] then []
    else
      var g := genes[|genes| - 1];
      Chosen(genes[..|genes| - 1], qs, qe, p) + (if Place(g, qs, qe) == p then [g] else [])
  }

  /** What follows each name in a list. */
  function Marker(p: Placement): string
  {
    if p == Complete then "* " else " "
  }

  /** The names of `genes`, each followed by `marker`. */
  function Joined(genes: seq<Gene>, marker: string): string
    decreases |genes|
  {
    if genes == [] then "" else Joined(genes[..|genes| - 1], marker) + genes[|genes| - 1].name + marker
  }

  /** The text of one list of the report. */
  function Listing(genes: seq<Gene>, qs: int, qe: int, p: Placement): string
  {
    Joined(Chosen(genes, qs, qe, p), Marker(p))
  }

  /** A gene is chosen exactly when it is one of the genes and is placed `p`. */
  lemma {:induction false} ChosenMembers(genes: seq<Gene>, qs: int, qe: int, p: Placement, g: Gene)
    ensures g in Chosen(genes, qs, qe, p) <==> g in genes && Place(g, qs, qe) == p
    decreases |genes|
  {
    if genes != [] {
      var init := genes[..|genes| - 1];
      ChosenMembers(init, qs, qe, p, g);
      assert genes == init + [genes[|genes| - 1]];
    }
  }

  /** Choosing keeps input order: the genes of a longer table are chosen after those of its beginning. */
  lemma {:induction false} ChosenAppend(a: seq<Gene>, b: seq<Gene>, qs: int, qe: int, p: Placement)
    ensures Chosen(a + b, qs, qe, p) == Chosen(a, qs, qe, p) + Chosen(b, qs, qe, p)
    decreases |b|
  {
    if b == [] {
      assert a + b == a;
    } else {
      var init := b[..|b| - 1];
      assert (a + b)[..|a + b| - 1] == a + init;
      ChosenAppend(a, init, qs, qe, p);
    }
  }

  /** No gene is listed twice for one alignment: no complete gene is also incomplete, and the two lists together hold at most as many genes as the table. */
  lemma {:induction false} ListsDisjoint(genes: seq<Gene>, qs: int, qe: int)
    ensures forall g :: g in Chosen(genes, qs, qe, Complete) ==> g !in Chosen(genes, qs, qe, Incomplete)
    ensures |Chosen(genes, qs, qe, Complete)| + |Chosen(genes, qs, qe, Incomplete)| <= |genes|
    decreases |genes|
  {
    forall g | g in Chosen(genes, qs, qe, Complete)
      ensures g !in Chosen(genes, qs, qe, Incomplete)
    {
      ChosenMembers(genes, qs, qe, Complete, g);
      ChosenMembers(genes, qs, qe, Incomplete, g);
    }
    if genes != [] {
      ListsDisjoint(genes[..|genes| - 1], qs, qe);
    }
  }

  /** Both lists are the same whichever way round the query span is written. */
  lemma {:induction false} ListingSwapsSpan(genes: seq<Gene>, qs: int, qe: int, p: Placement)
    ensures Listing(genes, qs, qe, p) == Listing(genes, qe, qs, p)
  {
    ChosenSwapsSpan(genes, qs, qe, p);
  }

  lemma {:induction false} ChosenSwapsSpan(genes: seq<Gene>, qs: int, qe: int, p: Placement)
    ensures Chosen(genes, qs, qe, p) == Chosen(genes, qe, qs, p)
    decreases |genes|
  {
    if genes != [] {
      ChosenSwapsSpan(genes[..|genes| - 1], qs, qe, p);
      PlaceSwapsSpan(genes[|genes| - 1], qs, qe);
    }
  }

  /** A list grows by the name of the last gene when it is placed `p`, and not otherwise. */
  lemma ListingStep(genes: seq<Gene>, qs: int, qe: int, p: Placement)
    requires genes != []
    ensures var g := genes[|genes| - 1];
      Listing(genes, qs, qe, p) ==
        Listing(genes[..|genes| - 1], qs, qe, p) + (if Place(g, qs, qe) == p then g.name + Marker(p) else "")
  {
    var g := genes[|genes| - 1];
    var c := Chosen(genes[..|genes| - 1], qs, qe, p);
    if Place(g, qs, qe) == p {
      assert (c + [g])[..|c + [g]| - 1] == c;
      assert Joined(c + [g], Marker(p)) == Joined(c, Marker(p)) + g.name + Marker(p);
    } else {
      assert c + [] == c;
    }
  }

  // ------------------------------------------------------------- the report

  /** The report row of alignment number `number`. */
  function RowOf(genes: seq<Gene>, a: Alignment, number: int): (r: Row)
    ensures r.number == number && r.qStart == a.qStart && r.qEnd == a.qEnd
  {
    Row(number, "Cp", "Mt", a.alignmentLength, a.qStart, a.qEnd, a.sStart, a.sEnd,
        Listing(genes, a.qStart, a.qEnd, Complete), Listing(genes, a.qStart, a.qEnd, Incomplete))
  }

  /** One row per alignment, numbered from 1 in alignment order. */
  function Report(genes: seq<Gene>, alignments: seq<Alignment>): (rows: seq<Row>)
    ensures |rows| == |alignments|
    ensures forall j :: 0 <= j < |rows| ==> rows[j] == RowOf(genes, alignments[j], j + 1)
    decreases |alignments|
  {
    if alignments == [] then []
    else
      var n := |alignments| - 1;
      Report(genes, alignments[..n]) + [RowOf(genes, alignments[n], n + 1)]
  }

  /** find_transfer_genes: for each alignment, the complete and incomplete lists built gene by gene. */
  method FindTransferGenes(genes: array<Gene>, alignments: array<Alignment>) returns (rows: seq<Row>)
    ensures rows == Report(genes[..], alignments[..])
  {
    rows := [];
    var j := 0;
    while j < alignments.Length
      invariant 0 <= j <= alignments.Length
      invariant rows == Report(genes[..], alignments[..j])
    {
      var a := alignments[j];
      var complete, incomplete := "", "";
      var i := 0;
      while i < genes.Length
        invariant 0 <= i <= genes.Length
        invariant complete == Listing(genes[..i], a.qStart, a.qEnd, Complete)
        invariant incomplete == Listing(genes[..i], a.qStart, a.qEnd, Incomplete)
      {
        var g := genes[i];
        ListingStep(genes[..i + 1], a.qStart, a.qEnd, Complete);
        ListingStep(genes[..i + 1], a.qStart, a.qEnd, Incomplete);
        assert genes[..i + 1][..i] == genes[..i];
        var lo, hi := Min(a.qStart, a.qEnd), Max(a.qStart, a.qEnd);
        if Min(g.start, g.end) >= lo && Max(g.start, g.end) <= hi {
          complete := complete + g.name + "* ";
        } else if (g.start > lo && g.start < hi) || (g.end > lo && g.end < hi) {
          assert Place(g, a.qStart, a.qEnd) == Incomplete;
          incomplete := incomplete + g.name + " ";
        } else {
          assert Place(g, a.qStart, a.qEnd) == Outside;
        }
        i := i + 1;
      }
      assert genes[..i] == genes[..];
      assert alignments[..j + 1][..j] == alignments[..j];
      rows := rows + [Row(j + 1, "Cp", "Mt", a.alignmentLength, a.qStart, a.qEnd, a.sStart, a.sEnd, complete, incomplete)];
      j := j + 1;
    }
    assert alignments[..j] == alignments[..];
  }

  // ------------------------------------------------------------- the inputs

  /** The lines of a table that hold a row, in order. */
  function Rows(lines: seq<string>, isRow: string -> bool): (rows: seq<string>)
    ensures |rows| <= |lines|
    decreases |lines|
  {
    if lines == [] then []
    else
      var n := |lines| - 1;
      Rows(lines[..n], isRow) + (if isRow(lines[n]) then [lines[n]] else [])
  }

  /** A line of the gene table: not a comment, not the "Gene" header, not blank. */
  predicate IsGeneRow(line: string)
  {
    |line| > 1 && line[0] != '#' && !("Gene" <= line)
  }

  /** A line of the BLASTN table: not a comment, not blank. */
  predicate IsAlignmentRow(line: string)
  {
    |line| > 1 && line[0] != '#'
  }

  /** A line is read as a row exactly when it is one of the lines and passes the filter. */
  lemma {:induction false} RowsMembers(lines: seq<string>, isRow: string -> bool, line: string)
    ensures line in Rows(lines, isRow) <==> line in lines && isRow(line)
    decreases |lines|
  {
    if lines != [] {
      var n := |lines| - 1;
      RowsMembers(lines[..n], isRow, line);
      assert lines == lines[..n] + [lines[n]];
    }
  }

  /** Comment lines, the header and blank lines are never read as genes. */
  lemma SkippedGeneLines(lines: seq<string>, line: string)
    requires line in lines && (line == [] || line[0] == '#' || "Gene" <= line || |line| <= 1)
    ensures line !in Rows(lines, IsGeneRow)
  {
    RowsMembers(lines, IsGeneRow, line);
  }

  /** read_genes: count the gene lines, allocate that many records, then parse each gene line into the next record. */
  method ReadGenes(lines: seq<string>, parse: string -> Gene) returns (genes: array<Gene>)
    ensures genes.Length == |Rows(lines, IsGeneRow)|
    ensures forall i :: 0 <= i < genes.Length ==> genes[i] == parse(Rows(lines, IsGeneRow)[i])
  {
    var count := CountRows(lines, IsGeneRow);
    genes := new Gene[count];
    FillRows(lines, IsGeneRow, parse, genes);
  }

  /** read_blastn: count the alignment lines, allocate that many records, then parse each alignment line into the next record. */
  method ReadBlastn(lines: seq<string>, parse: string -> Alignment) returns (alignments: array<Alignment>)
    ensures alignments.Length == |Rows(lines, IsAlignmentRow)|
    ensures forall i :: 0 <= i < alignments.Length ==> alignments[i] == parse(Rows(lines, IsAlignmentRow)[i])
  {
    var count := CountRows(lines, IsAlignmentRow);
    alignments := new Alignment[count];
    FillRows(lines, IsAlignmentRow, parse, alignments);
  }

  /** The counting pass. */
  method CountRows(lines: seq<string>, isRow: string -> bool) returns (count: nat)
    ensures count == |Rows(lines, isRow)|
  {
    count := 0;
    var k := 0;
    while k < |lines|
      invariant 0 <= k <= |lines|
      invariant count == |Rows(lines[..k], isRow)|
    {
      assert lines[..k + 1][..k] == lines[..k];
      if isRow(lines[k]) {
        count := count + 1;
      }
      k := k + 1;
    }
    assert lines[..k] == lines;
  }

  /** The filling pass: the same filter, so it fills exactly the records the counting pass allocated. */
  method FillRows<T>(lines: seq<string>, isRow: string -> bool, parse: string -> T, records: array<T>)
    requires records.Length == |Rows(lines, isRow)|
    modifies records
    ensures forall i :: 0 <= i < records.Length ==> records[i] == parse(Rows(lines, isRow)[i])
  {
    var i := 0;
    var k := 0;
    while k < |lines|
      invariant 0 <= k <= |lines|
      invariant i == |Rows(lines[..k], isRow)|
      invariant Rows(lines[..k], isRow) <= Rows(lines, isRow)
      invariant forall m :: 0 <= m < i ==> records[m] == parse(Rows(lines, isRow)[m])
    {
      assert lines[..k + 1][..k] == lines[..k];
      RowsPrefix(lines, k + 1, isRow);
      if isRow(lines[k]) {
        records[i] := parse(lines[k]);
        i := i + 1;
      }
      k := k + 1;
    }
    assert lines[..k] == lines;
  }

  /** The rows of a beginning of the lines begin the rows of all of them. */
  lemma {:induction false} RowsPrefix(lines: seq<string>, k: nat, isRow: string -> bool)
    requires k <= |lines|
    ensures Rows(lines[..k], isRow) <= Rows(lines, isRow)
    decreases |lines| - k
  {
    if k < |lines| {
      RowsPrefix(lines, k + 1, isRow);
      assert lines[..k + 1][..k] == lines[..k];
    } else {
      assert lines[..k] == lines;
    }
  }
}
