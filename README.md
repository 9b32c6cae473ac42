# mitotools core in Dafny

This project models the core of mitotools, a set of small C tools for
mitochondrial and chloroplast genomes, and proves properties of that model.
It covers two tools.

- **get_seq** reads a GenBank flat file in two passes.
  - The first pass finds the organism name and the genome sequence. The
    sequence is the lines after `ORIGIN`, with their position numbers dropped
    and their blocks upper-cased.
  - The second pass scans the feature table. It fills one list of CDS
    records, one of rRNA records and one of tRNA records. Each record holds a
    gene name, a location string and the bases the location selects. The scan
    also fills a list of peptides, one per CDS, holding the `/translation`
    text.
  - Locations are evaluated by `extract_sequence`. It handles a plain range
    `a..b`, `complement(a..b)`, `join(...)` of plain and complemented ranges,
    and `complement(join(...))`, with `<` and `>` partial markers. It builds
    on `subseq` (1-based inclusive slicing) and `reverse_complement`.
- **transfer_gene** reads a gene table and a BLASTN table. For each alignment
  it lists the genes that lie completely inside the aligned query span (each
  followed by `* `) and the genes that end inside it without being contained
  (each followed by a blank).

Modules:

- `Outcome`: the `Result` type and the ways a run can fail.
  - `InvalidLocation(start, end)` is the "Invalid location" exit of `subseq`.
  - `MissingOrigin` is the "gb file format error" exit that the test after
    the first pass intends (see "Left out" for what the C code actually reads).
  - `Undefined` covers a step where the C code has undefined behaviour.
- `Text`: the C library pieces the code relies on, over `seq<char>`.
  - `strstr` is modelled as `Contains`, and `toupper` as `ToUpper`.
  - `sscanf` is modelled as `MatchFormat`, `ScanWord` (`%s`),
    `ScanUntil` (`%[^c]`) and `ScanInt` (`%d`). A failed conversion leaves
    its buffer unchanged.
  - `strtok` is modelled as `Split`.
- `Sequence`: `reverse_complement` and `subseq`.
- `Location`: `extract_sequence`.
  - It is written as specification functions: `Turn` and `Tokens` for the
    character loop, `Piece` and `Pieces` for the blank-separated tokens, and
    `CommaSlices` for the comma-separated ranges of `complement(join(...))`.
  - Methods with the source's loops are proved against those functions.
- `LocationForms`: what a location means, and a proof that
  `extract_sequence` computes that meaning for every location of the four
  recognised forms.
- `Origin`: the first pass of `extract_annotation`.
- `Features`: the second pass of `extract_annotation`.
  - `Step` is one iteration of the `while (fgets ...)` loop.
  - `Run` is the whole loop.
  - `Annotate` is the whole function.
- `FeatureLines`: which branch each kind of feature-table line takes, and what
  it does.
- `FeatureProperties`: invariants of the scan. No counted record is ever lost,
  the lists grow by at most one record per line, and CDS records and peptides
  stay paired index by index.
- `FeatureEntries`: the effect of complete CDS, rRNA and tRNA entries, however
  GenBank wraps their locations and translations over lines.
- `Transfer`: `read_genes`, `read_blastn` and `find_transfer_genes`.

Where `extract_annotation` and the `extract_sequence` it calls differ from a
plain description of the format, the model follows the C code. For example,
`extract_sequence` evaluates `complement(join(a..b,c..d))` as the reverse
complement of the concatenation of the two slices, so the result is `RC(slice(c..d)) + RC(slice(a..b))`. A
`complement(join(...))` holding a single range fails with an invalid
location.

## Model

| member | source | states |
|---|---|---|
| Sequence.Complement | get_seq.c:177-182 | a base of either case maps to its upper-case complement (A and T swap, C and G swap) |
| Sequence.ComplementTwice | get_seq.c:177-182 | complementing an upper-case base twice gives the base back |
| Sequence.ReverseComplement | get_seq.c:173-186 | the result has the input's length; position m holds the complement of input position len-1-m; every character is an upper-case A, C, G or T |
| Sequence.ReverseComplementBuffer | get_seq.c:173-186 | the index loop that fills rc_seq returns exactly ReverseComplement of its input |
| Sequence.ReverseComplementOfConcat | get_seq.c:173-186 | the reverse complement of a+b is the reverse complement of b followed by that of a |
| Sequence.ReverseComplementTwice | get_seq.c:173-186 | on upper-case DNA, reverse-complementing twice is the identity |
| Sequence.Subseq | get_seq.c:189-201 | the only check is on the end: it succeeds exactly when 1 <= end <= len (an end below 1 turns huge in the size_t comparison); the slice has end-start+1 characters, the k-th being str[start-1+k]; otherwise it fails with InvalidLocation(start-1, end-1), the values the error message prints |
| Sequence.SubseqOfDna | get_seq.c:189-201 | a successful slice of DNA is DNA |
| Location.Turn | get_seq.c:211-267 | a character the loop writes always moves the cursor forward |
| Location.PiecesAt | get_seq.c:305-326 | the blank-separated tokens are evaluated left to right; the first token that fails ends the evaluation with its error, and otherwise its bases come before those of the rest |
| Location.CommaSlicesAt | get_seq.c:294-301 | the comma-separated ranges are sliced left to right; a token sscanf cannot read reuses the previous bounds; the first failing slice ends the evaluation |
| Location.EvaluatePiece | get_seq.c:309-323 | one token becomes subseq of its bounds, reverse-complemented when it carries the '-' mark, exactly as Piece specifies |
| Location.Tokenize | get_seq.c:211-267 | the character loop over the location writes exactly the token string Tokens specifies, or Undefined where it reads location[i+11] past the end |
| Location.ComplementJoin | get_seq.c:288-303 | the strtok loop over the ranges of complement(join(...)) returns the reverse complement of the concatenated slices, as CommaSlices and Complemented specify |
| Location.JoinPieces | get_seq.c:305-326 | the strtok loop over the blank-separated tokens returns the concatenation of their pieces, or the first failure |
| Location.ExtractSequence | get_seq.c:204-328 | the whole of extract_sequence returns exactly Extract(origin, location) |
| LocationForms.ExtractComputesMeaning | get_seq.c:204-328 | for every location written as GenBank writes it, extract_sequence returns its meaning. A range gives its slice. complement gives the slice's reverse complement. join gives its members' bases in textual order. complement(join) of two or more ranges gives the reverse complement of the concatenation. The first range that ends past the origin fails with InvalidLocation, and a complement of a non-base character is Undefined |
| LocationForms.SingleComplementJoin | get_seq.c:227-287 | complement(join(a..b)) with one range yields no comma, so it goes down the plain-range path, whose sscanf fails, and the result is InvalidLocation(-1, -1) |
| LocationForms.ComplementJoinReversesOrder | get_seq.c:288-303 | on a DNA origin, complement(join(a,b)) yields the reverse complement of b's bases followed by that of a's |
| LocationForms.JoinLength | get_seq.c:305-326 | a successful join yields as many bases as its ranges cover together |
| LocationForms.ComplementJoinLength | get_seq.c:288-302 | a successful complement(join(...)) of several ranges yields as many bases as its ranges cover together |
| LocationForms.PartialMarkersIgnored | get_seq.c:214-216 | the '<' and '>' partial markers do not change what a location selects |
| Origin.OriginChunk | get_seq.c:409-427 | a line after ORIGIN contributes no lower-case letter |
| Origin.SequenceLineChunk | get_seq.c:409-427 | a GenBank sequence line (blanks, the position number, blocks) contributes the upper-cased concatenation of its first six blocks; later blocks are dropped |
| Origin.NonNumberLineChunk | get_seq.c:409-427 | a line whose first non-blank text is not a number, such as the closing "//", contributes nothing |
| Origin.SinceOrigin | get_seq.c:406-428 | the sequence assembled so far never holds a lower-case letter |
| Origin.SequenceAfterLastOrigin | get_seq.c:406-428 | only the last ORIGIN line counts: the sequence is the chunks of the lines after it, whatever came before |
| Origin.NoOriginNoSequence | get_seq.c:406-408 | without an ORIGIN line no sequence is assembled |
| Origin.MissingOriginFails | get_seq.c:431-435 | with readable headers and no ORIGIN line the first pass takes the format-error exit that the NULL test intends |
| Origin.OrganismIsLast | get_seq.c:376-386 | the organism is the text of the last ORGANISM line after its first 12 characters |
| Origin.NoOrganismIsDefault | get_seq.c:437-444 | without an ORGANISM line the genome is named "Chr1" |
| Origin.FirstPass | get_seq.c:375-444 | the pass succeeds exactly when every ORGANISM and ACCESSION line has at least 12 characters and an ORIGIN line exists; with readable headers any failure is the intended format error; the sequence has no lower-case letter |
| Origin.UpperCase | get_seq.c:420-425 | the toupper loop upper-cases every character and changes nothing else |
| Origin.ReadGenome | get_seq.c:375-444 | the line loop of the first pass computes FirstPass |
| Features.CommitCds | get_seq.c:541-545 | counting a CDS appends the record being filled to the CDS list and the peptide being filled to the peptide list |
| Features.ScanFeatures | get_seq.c:448-742 | the line loop of the second pass computes Run: it stops at the first failure or halt, and otherwise runs to the last line |
| Features.ExtractAnnotation | get_seq.c:331-748 | both passes together compute Annotate: the first pass's failure, or the genome with the four lists the second pass fills |
| FeatureLines.HeaderKeys | get_seq.c:451-453 | a feature header line holds its own key and no key the if-chain tests before it |
| FeatureLines.HeaderWord | get_seq.c:453-453 | the header's sscanf reads the location word, even with the extra blank in the rRNA and tRNA formats |
| FeatureLines.GeneLineFacts | get_seq.c:505-508 | a /gene line whose value is not empty, has no quote and no two blanks side by side (such as "12S rRNA") holds "/gene=", holds no feature key, and its sscanf reads the quoted name |
| FeatureLines.TranslationLineKeys | get_seq.c:451-522 | a /translation line holds "/translation" and neither the CDS key nor "/gene=", so the if-chain reaches the translation branch |
| FeatureLines.TranslationLineReads | get_seq.c:522-549 | on a /translation line the character before the newline is the last residue or the closing quote, and the sscanf reads the residues on it |
| FeatureLines.ResidueLineLacks | get_seq.c:451-566 | a translation continuation line holds no key and neither "/gene=" nor "/translation", so the if-chain reaches the peptide branch |
| FeatureLines.ResidueLineReads | get_seq.c:566-590 | on a translation continuation line the character before the newline is the last residue or the closing quote, and the sscanf reads its residues |
| FeatureLines.StepOnHeader | get_seq.c:451-453 | a header line of a kind takes that kind's header branch |
| FeatureLines.HeaderOutcome | get_seq.c:451-479 | a header stores its location and opens the feature; with a trailing comma the location continues, and otherwise it is evaluated |
| FeatureLines.StepOnContinuation | get_seq.c:480-481 | while a location continues, an indented word takes that kind's continuation branch |
| FeatureLines.ContinuationOutcome | get_seq.c:480-504 | a continuation line appends its part to the location; the location is evaluated once a part has no trailing comma |
| FeatureLines.StepOnGene | get_seq.c:505-508 | a /gene line of an open feature with a complete location takes that kind's gene branch |
| FeatureLines.GeneOutcome | get_seq.c:505-521 | a /gene line names a CDS and its peptide; it names, counts and closes an rRNA or tRNA |
| FeatureLines.StepOnTranslation | get_seq.c:522-528 | a /translation line of an open CDS takes the translation branch |
| FeatureLines.StepOnResidues | get_seq.c:566-571 | inside a translation, a residue line takes the peptide branch |
| FeatureProperties.StepsAppend | get_seq.c:448-742 | scanning a+b is scanning a and then, unless that stopped, scanning b |
| FeatureProperties.StepGrowsByOne | get_seq.c:448-742 | one line never removes or alters a counted record or peptide, and counts at most one new record |
| FeatureProperties.StepsGrow | get_seq.c:448-742 | n lines keep every counted record and count at most n new ones |
| FeatureProperties.RunCountsAtMostLines | get_seq.c:448-742 | a successful scan counts no more records than it read lines |
| FeatureProperties.HaltStoresNothing | get_seq.c:529-533 | stopping at the peptide length check counts neither the CDS nor its peptide |
| FeatureProperties.RunEndsAtHalt | get_seq.c:529-533 | once the scan halts, the lines after it are never read, and the result is the scan at that point |
| FeatureProperties.StepPaired | get_seq.c:505-604 | each line keeps CDS records and peptides the same in number, with the same gene names index by index |
| FeatureProperties.StepsPaired | get_seq.c:448-742 | the pairing holds after any number of lines |
| FeatureProperties.AnnotationPaired | get_seq.c:331-748 | in a successful annotation, peptide i belongs to CDS i: the lists have equal length and the same gene names |
| FeatureEntries.ContinuationsRead | get_seq.c:480-504 | any number of continuation lines append their parts in order, and the location is evaluated at the part without a trailing comma |
| FeatureEntries.LocationRead | get_seq.c:451-504 | a location wrapped over any number of lines is read as the concatenation of its parts and evaluated once, at its last part |
| FeatureEntries.ClosingOutcome | get_seq.c:566-586 | a residue line ending in a quote completes the peptide and counts the CDS, unless the peptide reached the length limit |
| FeatureEntries.ResidueOutcome | get_seq.c:587-604 | a residue line without the quote appends its residues and stays in the translation, unless the length limit is reached |
| FeatureEntries.ClosedOutcome | get_seq.c:524-545 | a one-line /translation completes the peptide and counts the CDS, unless it reaches the length limit |
| FeatureEntries.OpenOutcome | get_seq.c:546-565 | an opened /translation stores its residues and enters the translation, unless it reaches the length limit |
| FeatureEntries.TailRead | get_seq.c:566-604 | the later lines of a translation append their residues in order and count the CDS at the closing quote |
| FeatureEntries.TranslationRead | get_seq.c:522-604 | a translation wrapped over any number of lines yields the concatenation of its parts. The CDS is counted with that peptide, or the scan halts, counting nothing, when the peptide reaches 10000 residues |
| FeatureEntries.CdsQualifiers | get_seq.c:505-604 | the /gene and /translation lines of a CDS count it with its name and peptide, leaving the rRNA and tRNA lists unchanged |
| FeatureEntries.CdsEntry | get_seq.c:451-604 | a complete CDS entry adds one record (name, location text, extracted bases) and one peptide (name, translation) and nothing else; a bad location fails the scan; a long peptide halts it with nothing counted |
| FeatureEntries.RnaEntry | get_seq.c:605-743 | a complete rRNA or tRNA entry adds one record of its kind (name, location text, extracted bases), closes the feature and changes no other list; a bad location fails the scan |
| Transfer.CompleteIffContained | transfer_gene.c:206-209 | a gene is listed as complete exactly when every position between its start and end lies within the aligned query span |
| Transfer.IncompleteIffEndInside | transfer_gene.c:206-215 | a gene is listed as incomplete exactly when it is not contained and its start or its end lies strictly inside the span |
| Transfer.PlaceSwapsSpan | transfer_gene.c:206-211 | the classification does not depend on the alignment's direction (q.start and q.end swapped) |
| Transfer.PlaceIgnoresStrand | transfer_gene.c:206-211 | the classification does not depend on the gene's strand or recorded length |
| Transfer.SpanningGeneOutside | transfer_gene.c:206-215 | a gene reaching past both ends of the span is in neither list, though the span lies inside it |
| Transfer.TouchingGeneOutside | transfer_gene.c:206-211 | a gene of more than one position that meets the span only at its lower or its upper bound, in either orientation of gene and span, is in neither list |
| Transfer.ChosenMembers | transfer_gene.c:205-216 | a gene appears in a list exactly when it is one of the genes and its placement is that list's |
| Transfer.ChosenAppend | transfer_gene.c:205-216 | the lists follow the gene table's order: the genes of a+b are those of a, then those of b |
| Transfer.ListsDisjoint | transfer_gene.c:205-216 | no gene listed as complete is also listed as incomplete, and the two lists together hold at most as many genes as the table |
| Transfer.ListingSwapsSpan | transfer_gene.c:205-216 | both listed strings are the same for an alignment in either direction |
| Transfer.ListingStep | transfer_gene.c:206-215 | the strcat calls extend a listing by the gene's name and its marker exactly when the gene has the listing's placement |
| Transfer.RowOf | transfer_gene.c:220-231 | a report row carries its number and the alignment's query coordinates |
| Transfer.Report | transfer_gene.c:202-232 | the report has one row per alignment, in order, numbered from 1 |
| Transfer.FindTransferGenes | transfer_gene.c:195-235 | the nested loops with their strcat appends produce exactly Report of the gene and alignment tables |
| Transfer.RowsMembers | transfer_gene.c:116-117 | a line is read as a row exactly when it is one of the lines and passes the filter |
| Transfer.SkippedGeneLines | transfer_gene.c:116-117 | comment lines, the "Gene" header line and blank lines are never read as genes |
| Transfer.CountRows | transfer_gene.c:116-120 | the counting loop counts exactly the rows the filter keeps |
| Transfer.ReadGenes | transfer_gene.c:106-147 | allocates one record per gene line, and record i is the parse of the i-th gene line |
| Transfer.ReadBlastn | transfer_gene.c:149-193 | allocates one record per alignment line, and record i is the parse of the i-th alignment line |

## Left out

- File and console I/O are not modelled. This covers `print_usage`,
  `parse_arguments`, `main`, `fopen`/`fclose`, `rewind`, the output files and
  the `exit` calls on an unopenable file. Input arrives as a sequence of lines,
  and output is returned as values.
- The `printf` of the organism and accession, and the "ceshi" debug prints in
  `find_transfer_genes`, are left out because they are console output only.
- The BLASTN identity column and its `%.2f` formatting are left out, because
  they are floating point and only pass through to the report.
- `fgets` splitting of lines longer than the 1024-byte buffer is left out.
  Lines are taken whole, each ending in its "\n".
- Fixed buffer sizes are not modelled. This covers the 100-entry list
  capacity, the 10000-byte `hgt_gene` and `incomplete_gene` buffers, the
  temp_loc/temp_seq/gene_id buffers and overflow by `strcat`, `strcpy` or
  `sscanf`. Strings and lists are unbounded.
- Transfer.ReadGenes and Transfer.ReadBlastn take the per-line `sscanf` as a
  `parse` function parameter. The model does not capture a record left
  unset by a failed conversion.
- Origin.FirstPass treats a header line shorter than 12 characters as
  Undefined, because `line + 12` reads past the string. Undefined
  behaviour from reading past a string in the second pass, such as
  `location[i+11]` beyond the terminator, is also a failure, `Undefined`,
  rather than a prediction of what the C code would do.
- Text.ScanInt and Location.ScanRange read location coordinates as unbounded
  integers. The C code reads them with `%d` into 32-bit `int`s, where a value
  out of range is undefined behaviour (glibc keeps its low 32 bits). Such
  overflow is not modelled: a coordinate beyond the `int` range is taken at its
  written value, so the slice fails with InvalidLocation rather than becoming
  `Undefined` or the truncated value.
- Sequence.Subseq requires a start within 1..end+1 once the end passes the
  check, because otherwise `strncpy` copies from outside the string;
  Location.Slice turns such a call into Undefined.
- Sequence.ReverseComplement requires a string of bases, because another
  character leaves an unwritten byte in the C buffer; Location.Complemented
  turns such a call into Undefined.
- The `join_flag` variable of `extract_sequence` is never set in the source.
  The model has no such variable.
- Locations nested more deeply than the four forms of LocationForms are
  evaluated by Location.Extract as the code does. No meaning is stated
  for them.
- The ACCESSION value is read but not used by the core, so only its
  readability check is modelled.
- FeatureEntries.RnaEntry and FeatureEntries.CdsEntry hold under the Locus
  hypothesis on the location's first part: it is a blank-free word (what
  `%s` reads), and for a tRNA it holds no 'R'. The 'R' condition keeps the
  proof that a tRNA header line lacks the rRNA key short; it excludes more
  than that key's text.
- FeatureLines.GeneLineFacts, FeatureLines.StepOnGene, FeatureLines.GeneOutcome,
  FeatureEntries.CdsQualifiers, FeatureEntries.CdsEntry and
  FeatureEntries.RnaEntry hold for a /gene value without two blanks side by
  side. `%[^"]` reads any non-empty value without a quote, and the branch
  taken is the same. The restriction keeps a run of blanks, and so a feature
  key, out of the line.
- Origin.MissingOriginFails and Origin.FirstPass give `MissingOrigin` when no
  line contains "ORIGIN". In the C code the test at get_seq.c:431 then reads
  `(*faa)->sequence`, a field of the struct allocated uninitialised at
  get_seq.c:351 and written only at get_seq.c:407. That read is undefined
  behaviour; the model takes the format-error exit the test intends rather
  than `Undefined`.
- Memory management (`malloc`, `free`, `free_memory`) is not modelled: the
  origin buffer starts as the empty string, and records not yet written are
  `None`.
