/**
 * The second pass of extract_annotation (get_seq.c:448-742): a scan of the
 * GenBank feature table, line by line, driven by per-feature flags.  CDS,
 * rRNA and tRNA features each fill the record at the end of their list
 * (list[count]) and are counted when complete: a CDS at the closing quote
 * of its /translation, an rRNA or tRNA at its /gene qualifier.  Every CDS
 * also fills the peptide record of the same index.
 */
module Features {
  import opened Outcome
  import opened Text
  import Origin
  import Location

  /**
   * A Cds, Rrn or Trn record.  The lists are malloc'd and never cleared, so
   * a field the scan has not written yet holds nothing usable: `None`.
   */
  datatype Feature = Feature(gene: Option<string>, location: Option<string>, sequence: Option<string>)

  /** A Pep record: the gene and the translation of one CDS. */
  datatype Peptide = Peptide(gene: Option<string>, sequence: Option<string>)

  const Unwritten := Feature(None, None, None)
  const UnwrittenPeptide := Peptide(None, None)

  datatype Kind = Cds | Rrn | Trn

  /**
   * The state of one feature list: the feature flag (cds_flag, rrn_flag,
   * trn_flag), the flag saying that the location continues on the next line
   * (cds_loc_flag, …), the record being filled, list[count], and the counted
   * records list[0..count).
   */
  datatype Track = Track(active: bool, continued: bool, current: Feature, records: seq<Feature>)

  /**
   * Everything the scan carries from line to line: the three lists, the
   * translation flag seq_flag with the peptide being filled and the counted
   * peptides, and the three scanf buffers, which keep their contents when a
   * conversion fails.
   */
  datatype Scan = Scan(
    cds: Track, rrn: Track, trn: Track,
    inTranslation: bool, peptide: Peptide, peptides: seq<Peptide>,
    tempLoc: string, tempSeq: string, geneId: string)

  /** What one line does to the scan: it goes on, it stops at the peptide length check (`break`), or it fails. */
  datatype Progress = Next(scan: Scan) | Halt(scan: Scan) | Fail(failure: Failure)

  /** The whole output of extract_annotation. */
  datatype Annotation = Annotation(
    genome: Origin.Genome, cds: seq<Feature>, peptides: seq<Peptide>, rrna: seq<Feature>, trna: seq<Feature>)

  /** A peptide of this many residues stops the scan (MIN_SEQUENCE_LEN). */
  const MinSequenceLen := 10000

  /** The feature keys the scan looks for, with the columns around them. */
  const CdsKey := "     CDS             "
  const RrnKey := "     rRNA            "
  const TrnKey := "     tRNA            "

  /** The literal parts of the scanf formats. */
  const CdsFormat := "     CDS             "
  const RrnFormat := "     rRNA             "
  const TrnFormat := "     tRNA             "
  const Indent := "                     "
  const GeneFormat := Indent + "/gene=\""
  const TranslationFormat := Indent + "/translation=\""

  const Empty := Track(false, false, Unwritten, [])

  /** The scan before the first line: flags clear, lists empty, buffers "". */
  const Initial := Scan(Empty, Empty, Empty, false, UnwrittenPeptide, [], "", "", "")

  function Key(k: Kind): string
  {
    match k
    case Cds => CdsKey
    case Rrn => RrnKey
    case Trn => TrnKey
  }

  function Format(k: Kind): string
  {
    match k
    case Cds => CdsFormat
    case Rrn => RrnFormat
    case Trn => TrnFormat
  }

  function TrackOf(s: Scan, k: Kind): Track
  {
    match k
    case Cds => s.cds
    case Rrn => s.rrn
    case Trn => s.trn
  }

  function WithTrack(s: Scan, k: Kind, t: Track): (s': Scan)
    ensures TrackOf(s', k) == t
  {
    match k
    case Cds => s.(cds := t)
    case Rrn => s.(rrn := t)
    case Trn => s.(trn := t)
  }

  // ------------------------------------------------------------ line reading

  /** `line[strlen(line) - 2]`, the character before the newline; a line of one character has none. */
  function Penultimate(line: string): Option<char>
  {
    if |line| >= 2 then Some(line[|line| - 2]) else None
  }

  /** `sscanf(line, "<fmt>%s", buffer)`: the word after the format, or the buffer's old contents. */
  function WordAfter(line: string, fmt: string, buffer: string): string
  {
    match MatchFormat(line, fmt)
    case None => buffer
    case Some(rest) =>
      match ScanWord(rest)
      case None => buffer
      case Some((word, _)) => word
  }

  /** `sscanf(line, "<fmt>%[^stop]", buffer)`: the run before `stop`, or the buffer's old contents. */
  function RunAfter(line: string, fmt: string, stop: char, buffer: string): string
  {
    match MatchFormat(line, fmt)
    case None => buffer
    case Some(rest) =>
      match ScanUntil(rest, stop)
      case None => buffer
      case Some(run) => run
  }

  // ---------------------------------------------------------------- branches

  /** The location is complete: evaluate it against the genome and store both. */
  function Evaluate(origin: string, s: Scan, k: Kind, t: Track, loc: string): Progress
  {
    match Location.Extract(origin, loc)
    case Err(e) => Fail(e)
    case Ok(bases) => Next(WithTrack(s, k, t.(current := t.current.(location := Some(loc), sequence := Some(bases)))))
  }

  /** A feature header line: the location starts here; a trailing comma says it continues. */
  function Header(origin: string, s: Scan, k: Kind, line: string): Progress
  {
    var loc := WordAfter(line, Format(k), s.tempLoc);
    var s' := s.(tempLoc := loc);
    var t := TrackOf(s, k).(active := true);
    match Penultimate(line)
    case None => Fail(Undefined)
    case Some(c) =>
      if c == ',' then Next(WithTrack(s', k, t.(continued := true, current := t.current.(location := Some(loc)))))
      else Evaluate(origin, s', k, t.(continued := false), loc)
  }

  /** A continuation line of a location: appended; without a trailing comma it is the last one. */
  function Continuation(origin: string, s: Scan, k: Kind, line: string): Progress
  {
    var piece := WordAfter(line, Indent, s.tempLoc);
    var s' := s.(tempLoc := piece);
    var t := TrackOf(s, k);
    match Penultimate(line)
    case None => Fail(Undefined)
    case Some(c) =>
      match t.current.location
      case None => Fail(Undefined)
      case Some(start) =>
        var loc := start + piece;
        if c == ',' then Next(WithTrack(s', k, t.(current := t.current.(location := Some(loc)))))
        else Evaluate(origin, s', k, t.(continued := false), loc)
  }

  /** Count the CDS being filled and its peptide; the next ones start unwritten. */
  function CommitCds(s: Scan): (s': Scan)
    ensures s'.cds.records == s.cds.records + [s.cds.current]
    ensures s'.peptides == s.peptides + [s.peptide]
  {
    s.(cds := s.cds.(current := Unwritten, records := s.cds.records + [s.cds.current]),
       peptide := UnwrittenPeptide, peptides := s.peptides + [s.peptide])
  }

  /**
   * A /gene qualifier: names the record being filled.  For a CDS it names
   * the peptide too; an rRNA or tRNA is complete and counted, and its flag
   * cleared.
   */
  function Gene(s: Scan, k: Kind, line: string): Progress
  {
    var g := RunAfter(line, GeneFormat, '"', s.geneId);
    var s' := s.(geneId := g);
    var t := TrackOf(s, k);
    if k == Cds then
      Next(s'.(cds := t.(current := t.current.(gene := Some(g))), peptide := s.peptide.(gene := Some(g))))
    else
      Next(WithTrack(s', k, t.(active := false, current := Unwritten, records := t.records + [t.current.(gene := Some(g))])))
  }

  /**
   * The /translation qualifier's first line.  With the closing quote on the
   * same line the peptide is complete and the CDS counted; otherwise the
   * translation continues.  A peptide of MinSequenceLen residues stops the
   * scan before anything is stored.
   */
  function Translation(s: Scan, line: string): Progress
  {
    match Penultimate(line)
    case None => Fail(Undefined)
    case Some(c) =>
      var closing := c == '"';
      var p := RunAfter(line, TranslationFormat, if closing then '"' else '\n', s.tempSeq);
      var s' := s.(inTranslation := !closing, cds := s.cds.(active := !closing), tempSeq := p);
      if |p| >= MinSequenceLen then Halt(s')
      else
        var s'' := s'.(peptide := s'.peptide.(sequence := Some(p)));
        if closing then Next(CommitCds(s'')) else Next(s'')
  }

  /** A later line of a translation: appended to the peptide; the closing quote completes the CDS. */
  function TranslationLine(s: Scan, line: string): Progress
  {
    match Penultimate(line)
    case None => Fail(Undefined)
    case Some(c) =>
      var closing := c == '"';
      var p := RunAfter(line, Indent, if closing then '"' else '\n', s.tempSeq);
      var s' := s.(inTranslation := !closing, cds := s.cds.(active := !closing), tempSeq := p);
      match s.peptide.sequence
      case None => Fail(Undefined)
      case Some(q) =>
        if |q| + |p| >= MinSequenceLen then Halt(s')
        else
          var s'' := s'.(peptide := s'.peptide.(sequence := Some(q + p)));
          if closing then Next(CommitCds(s'')) else Next(s'')
  }

  /** One line of the feature table: the first branch of the chain whose condition holds. */
  function Step(origin: string, s: Scan, line: string): Progress
  {
    if Contains(line, CdsKey) then Header(origin, s, Cds, line)
    else if s.cds.continued && s.cds.active then Continuation(origin, s, Cds, line)
    else if s.cds.active && Contains(line, "/gene=") then Gene(s, Cds, line)
    else if s.cds.active && Contains(line, "/translation") then Translation(s, line)
    else if s.cds.active && s.inTranslation then TranslationLine(s, line)
    else if Contains(line, RrnKey) then Header(origin, s, Rrn, line)
    else if s.rrn.continued && s.rrn.active then Continuation(origin, s, Rrn, line)
    else if s.rrn.active && Contains(line, "/gene=") then Gene(s, Rrn, line)
    else if Contains(line, TrnKey) then Header(origin, s, Trn, line)
    else if s.trn.continued && s.trn.active then Continuation(origin, s, Trn, line)
    else if s.trn.active && Contains(line, "/gene=") then Gene(s, Trn, line)
    else Next(s)
  }

  /** The lines one after the other, until one halts or fails. */
  function Steps(origin: string, s: Scan, lines: seq<string>): Progress
    decreases |lines|
  {
    if lines == [] then Next(s)
    else
      match Step(origin, s, lines[0])
      case Next(s') => Steps(origin, s', lines[1..])
      case Halt(s') => Halt(s')
      case Fail(e) => Fail(e)
  }

  /** The second pass over a whole file: a halt ends it normally, a failure does not. */
  function Run(origin: string, lines: seq<string>): Result<Scan>
  {
    match Steps(origin, Initial, lines)
    case Next(s) => Ok(s)
    case Halt(s) => Ok(s)
    case Fail(e) => Err(e)
  }

  /** extract_annotation: the first pass, then the second over the same lines. */
  function Annotate(lines: seq<string>): Result<Annotation>
  {
    match Origin.FirstPass(lines)
    case Err(e) => Err(e)
    case Ok(genome) =>
      match Run(genome.origin, lines)
      case Err(e) => Err(e)
      case Ok(s) => Ok(Annotation(genome, s.cds.records, s.peptides, s.rrn.records, s.trn.records))
  }

  // ----------------------------------------------------------------- methods

  /** The second pass's loop over the lines. */
  method ScanFeatures(origin: string, lines: seq<string>) returns (r: Result<Scan>)
    ensures r == Run(origin, lines)
  {
    var s := Initial;
    var i := 0;
    while i < |lines|
      invariant 0 <= i <= |lines|
      invariant Steps(origin, Initial, lines) == Steps(origin, s, lines[i..])
    {
      assert lines[i..][1..] == lines[i + 1..];
      match Step(origin, s, lines[i]) {
        case Next(s') =>
          s := s';
        case Halt(s') =>
          return Ok(s');
        case Fail(e) =>
          return Err(e);
      }
      i := i + 1;
    }
    r := Ok(s);
  }

  /** extract_annotation: both passes over the lines of the file. */
  method ExtractAnnotation(lines: seq<string>) returns (r: Result<Annotation>)
    ensures r == Annotate(lines)
  {
    var genome := Origin.ReadGenome(lines);
    if genome.Err? {
      return Err(genome.error);
    }
    var scan := ScanFeatures(genome.value.origin, lines);
    if scan.Err? {
      return Err(scan.error);
    }
    var s := scan.value;
    r := Ok(Annotation(genome.value, s.cds.records, s.peptides, s.rrn.records, s.trn.records));
  }
}
