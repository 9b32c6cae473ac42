/**
 * What the feature scan guarantees over runs of lines: the records only
 * grow, at most one per line; each CDS is counted together with its
 * peptide; a halt stores nothing.
 */
module FeatureProperties {
  import opened Outcome
  import opened Text
  import opened Features

  // ------------------------------------------------------- steps in sequence

  /** Scanning two blocks of lines is scanning the first, then the second from where the first stopped. */
  lemma {:induction false} StepsAppend(origin: string, s: Scan, a: seq<string>, b: seq<string>)
    ensures Steps(origin, s, a + b) ==
      match Steps(origin, s, a)
      case Next(s') => Steps(origin, s', b)
      case other => other
    decreases |a|
  {
    if a == [] {
      assert a + b == b;
    } else {
      assert (a + b)[0] == a[0] && (a + b)[1..] == a[1..] + b;
      match Step(origin, s, a[0])
      case Next(s') => StepsAppend(origin, s', a[1..], b);
      case Halt(_) =>
      case Fail(_) =>
    }
  }

  /** Scanning one line more. */
  lemma StepsSnoc(origin: string, s: Scan, a: seq<string>, line: string)
    ensures Steps(origin, s, a + [line]) ==
      match Steps(origin, s, a)
      case Next(s') => Step(origin, s', line)
      case other => other
  {
    StepsAppend(origin, s, a, [line]);
    match Steps(origin, s, a)
    case Next(s') =>
      assert [line][1..] == [];
    case Halt(_) =>
    case Fail(_) =>
  }

  // ------------------------------------------------------- records only grow

  /** `s'` holds every record and peptide `s` holds, in the same places. */
  predicate Extends(s: Scan, s': Scan)
  {
    s.cds.records <= s'.cds.records && s.rrn.records <= s'.rrn.records &&
    s.trn.records <= s'.trn.records && s.peptides <= s'.peptides
  }

  /** The features counted so far, of all three kinds. */
  function Counted(s: Scan): nat
  {
    |s.cds.records| + |s.rrn.records| + |s.trn.records|
  }

  /** The scan went on from `s` to `p`, keeping what `s` counted and counting at most `n` more. */
  predicate GrewBy(s: Scan, p: Progress, n: nat)
  {
    match p
    case Next(s') => Extends(s, s') && Counted(s') <= Counted(s) + n
    case Halt(s') => Extends(s, s') && Counted(s') <= Counted(s) + n
    case Fail(_) => true
  }

  /** The two scans hold the same records and peptides. */
  predicate SameCounts(s: Scan, s': Scan)
  {
    s.cds.records == s'.cds.records && s.rrn.records == s'.rrn.records &&
    s.trn.records == s'.trn.records && s.peptides == s'.peptides
  }

  /** Replacing a track by one with the same records keeps every record. */
  lemma WithTrackKeeps(s0: Scan, s: Scan, k: Kind, t: Track)
    requires SameCounts(s0, s) && t.records == TrackOf(s, k).records
    ensures GrewBy(s0, Next(WithTrack(s, k, t)), 0)
  {
    var s' := WithTrack(s, k, t);
    assert TrackOf(s', k) == t;
    match k
    case Cds =>
    case Rrn =>
    case Trn =>
  }

  lemma EvaluateKeeps(origin: string, s0: Scan, s: Scan, k: Kind, t: Track, loc: string)
    requires SameCounts(s0, s) && t.records == TrackOf(s, k).records
    ensures GrewBy(s0, Evaluate(origin, s, k, t, loc), 0)
  {
    match Location.Extract(origin, loc)
    case Err(_) =>
    case Ok(bases) =>
      WithTrackKeeps(s0, s, k, t.(current := t.current.(location := Some(loc), sequence := Some(bases))));
  }

  lemma HeaderKeeps(origin: string, s: Scan, k: Kind, line: string)
    ensures GrewBy(s, Header(origin, s, k, line), 0)
  {
    var loc := WordAfter(line, Format(k), s.tempLoc);
    var s' := s.(tempLoc := loc);
    var t := TrackOf(s, k).(active := true);
    match Penultimate(line)
    case None =>
    case Some(c) =>
      if c == ',' {
        WithTrackKeeps(s, s', k, t.(continued := true, current := t.current.(location := Some(loc))));
      } else {
        EvaluateKeeps(origin, s, s', k, t.(continued := false), loc);
      }
  }

  lemma ContinuationKeeps(origin: string, s: Scan, k: Kind, line: string)
    ensures GrewBy(s, Continuation(origin, s, k, line), 0)
  {
    var piece := WordAfter(line, Indent, s.tempLoc);
    var s' := s.(tempLoc := piece);
    var t := TrackOf(s, k);
    match Penultimate(line)
    case None =>
    case Some(c) =>
      match t.current.location
      case None =>
      case Some(start) =>
        if c == ',' {
          WithTrackKeeps(s, s', k, t.(current := t.current.(location := Some(start + piece))));
        } else {
          EvaluateKeeps(origin, s, s', k, t.(continued := false), start + piece);
        }
  }

  lemma GeneGrows(s: Scan, k: Kind, line: string)
    ensures GrewBy(s, Gene(s, k, line), 1)
  {
  }

  lemma TranslationGrows(s: Scan, line: string)
    ensures GrewBy(s, Translation(s, line), 1)
  {
  }

  lemma TranslationLineGrows(s: Scan, line: string)
    ensures GrewBy(s, TranslationLine(s, line), 1)
  {
  }

  /** A line counts at most one feature and loses none. */
  lemma StepGrowsByOne(origin: string, s: Scan, line: string)
    ensures GrewBy(s, Step(origin, s, line), 1)
  {
    if Contains(line, CdsKey) {
      HeaderKeeps(origin, s, Cds, line);
    } else if s.cds.continued && s.cds.active {
      ContinuationKeeps(origin, s, Cds, line);
    } else if s.cds.active && Contains(line, "/gene=") {
      GeneGrows(s, Cds, line);
    } else if s.cds.active && Contains(line, "/translation") {
      TranslationGrows(s, line);
    } else if s.cds.active && s.inTranslation {
      TranslationLineGrows(s, line);
    } else if Contains(line, RrnKey) {
      HeaderKeeps(origin, s, Rrn, line);
    } else if s.rrn.continued && s.rrn.active {
      ContinuationKeeps(origin, s, Rrn, line);
    } else if s.rrn.active && Contains(line, "/gene=") {
      GeneGrows(s, Rrn, line);
    } else if Contains(line, TrnKey) {
      HeaderKeeps(origin, s, Trn, line);
    } else if s.trn.continued && s.trn.active {
      ContinuationKeeps(origin, s, Trn, line);
    } else if s.trn.active && Contains(line, "/gene=") {
      GeneGrows(s, Trn, line);
    }
  }

  /** Every line counts at most one feature: the counts never exceed the lines scanned, and nothing counted is lost. */
  lemma {:induction false} StepsGrow(origin: string, s: Scan, lines: seq<string>)
    ensures GrewBy(s, Steps(origin, s, lines), |lines|)
    decreases |lines|
  {
    if lines != [] {
      StepGrowsByOne(origin, s, lines[0]);
      match Step(origin, s, lines[0]) {
        case Next(s') =>
          StepsGrow(origin, s', lines[1..]);
        case Halt(_) =>
        case Fail(_) =>
      }
    }
  }

  /** A file of `n` lines yields at most `n` features. */
  lemma RunCountsAtMostLines(origin: string, lines: seq<string>)
    ensures Run(origin, lines).Ok? ==> Counted(Run(origin, lines).value) <= |lines|
  {
    StepsGrow(origin, Initial, lines);
  }

  /** A halt, the peptide of MinSequenceLen residues, stores neither the peptide nor its CDS. */
  lemma HaltStoresNothing(origin: string, s: Scan, line: string)
    ensures Step(origin, s, line).Halt? ==>
      var s' := Step(origin, s, line).scan;
      s'.cds.records == s.cds.records && s'.rrn.records == s.rrn.records &&
      s'.trn.records == s.trn.records && s'.peptides == s.peptides && s'.peptide == s.peptide
  {
  }

  /** Once a peptide of MinSequenceLen residues halts the scan, the lines after it are never read and the run succeeds with what it had. */
  lemma RunEndsAtHalt(origin: string, a: seq<string>, b: seq<string>)
    requires Steps(origin, Initial, a).Halt?
    ensures Run(origin, a + b) == Ok(Steps(origin, Initial, a).scan)
  {
    StepsAppend(origin, Initial, a, b);
  }

  // ------------------------------------------------- peptides pair with CDSs

  /** The peptides pair up with the CDS records, and the peptide being filled with the CDS being filled. */
  predicate Paired(s: Scan)
  {
    |s.peptides| == |s.cds.records| &&
    s.peptide.gene == s.cds.current.gene &&
    forall i :: 0 <= i < |s.peptides| ==> s.peptides[i].gene == s.cds.records[i].gene
  }

  predicate PairedAfter(p: Progress)
  {
    match p
    case Next(s) => Paired(s)
    case Halt(s) => Paired(s)
    case Fail(_) => true
  }

  lemma CommitPaired(s: Scan)
    requires Paired(s)
    ensures Paired(CommitCds(s))
  {
    var s' := CommitCds(s);
    forall i | 0 <= i < |s'.peptides|
      ensures s'.peptides[i].gene == s'.cds.records[i].gene
    {
      if i < |s.peptides| {
        assert s'.peptides[i] == s.peptides[i] && s'.cds.records[i] == s.cds.records[i];
      }
    }
  }

  lemma EvaluatePaired(origin: string, s: Scan, k: Kind, t: Track, loc: string)
    requires Paired(s) && (k == Cds ==> t.records == s.cds.records && t.current.gene == s.cds.current.gene)
    ensures PairedAfter(Evaluate(origin, s, k, t, loc))
  {
  }

  /** Pairing depends only on the peptides, the CDS records and the two names being filled. */
  lemma PairedFrame(s: Scan, s': Scan)
    requires Paired(s) && s'.peptides == s.peptides && s'.cds.records == s.cds.records
    requires s'.peptide.gene == s'.cds.current.gene
    ensures Paired(s')
  {
  }

  lemma HeaderPaired(origin: string, s: Scan, k: Kind, line: string)
    requires Paired(s)
    ensures PairedAfter(Header(origin, s, k, line))
  {
    var loc := WordAfter(line, Format(k), s.tempLoc);
    var s' := s.(tempLoc := loc);
    var t := TrackOf(s, k).(active := true);
    if Penultimate(line) == Some(',') {
      PairedFrame(s, WithTrack(s', k, t.(continued := true, current := t.current.(location := Some(loc)))));
    } else {
      EvaluatePaired(origin, s', k, t.(continued := false), loc);
    }
  }

  lemma ContinuationPaired(origin: string, s: Scan, k: Kind, line: string)
    requires Paired(s)
    ensures PairedAfter(Continuation(origin, s, k, line))
  {
    var t := TrackOf(s, k);
    var piece := WordAfter(line, Indent, s.tempLoc);
    var s' := s.(tempLoc := piece);
    if t.current.location.Some? {
      var loc := t.current.location.value + piece;
      if Penultimate(line) == Some(',') {
        PairedFrame(s, WithTrack(s', k, t.(current := t.current.(location := Some(loc)))));
      } else {
        EvaluatePaired(origin, s', k, t.(continued := false), loc);
      }
    }
  }

  lemma GenePaired(s: Scan, k: Kind, line: string)
    requires Paired(s)
    ensures PairedAfter(Gene(s, k, line))
  {
  }

  lemma TranslationPaired(s: Scan, line: string)
    requires Paired(s)
    ensures PairedAfter(Translation(s, line))
  {
    var closing := Penultimate(line) == Some('"');
    var p := RunAfter(line, TranslationFormat, if closing then '"' else '\n', s.tempSeq);
    var s' := s.(inTranslation := !closing, cds := s.cds.(active := !closing), tempSeq := p);
    CommitPaired(s'.(peptide := s'.peptide.(sequence := Some(p))));
  }

  lemma TranslationLinePaired(s: Scan, line: string)
    requires Paired(s)
    ensures PairedAfter(TranslationLine(s, line))
  {
    var closing := Penultimate(line) == Some('"');
    var p := RunAfter(line, Indent, if closing then '"' else '\n', s.tempSeq);
    var s' := s.(inTranslation := !closing, cds := s.cds.(active := !closing), tempSeq := p);
    if s.peptide.sequence.Some? {
      CommitPaired(s'.(peptide := s'.peptide.(sequence := Some(s.peptide.sequence.value + p))));
    }
  }

  /** No line breaks the pairing. */
  lemma StepPaired(origin: string, s: Scan, line: string)
    requires Paired(s)
    ensures PairedAfter(Step(origin, s, line))
  {
    if Contains(line, CdsKey) {
      HeaderPaired(origin, s, Cds, line);
    } else if s.cds.continued && s.cds.active {
      ContinuationPaired(origin, s, Cds, line);
    } else if s.cds.active && Contains(line, "/gene=") {
      GenePaired(s, Cds, line);
    } else if s.cds.active && Contains(line, "/translation") {
      TranslationPaired(s, line);
    } else if s.cds.active && s.inTranslation {
      TranslationLinePaired(s, line);
    } else if Contains(line, RrnKey) {
      HeaderPaired(origin, s, Rrn, line);
    } else if s.rrn.continued && s.rrn.active {
      ContinuationPaired(origin, s, Rrn, line);
    } else if s.rrn.active && Contains(line, "/gene=") {
      GenePaired(s, Rrn, line);
    } else if Contains(line, TrnKey) {
      HeaderPaired(origin, s, Trn, line);
    } else if s.trn.continued && s.trn.active {
      ContinuationPaired(origin, s, Trn, line);
    } else if s.trn.active && Contains(line, "/gene=") {
      GenePaired(s, Trn, line);
    }
  }

  lemma {:induction false} StepsPaired(origin: string, s: Scan, lines: seq<string>)
    requires Paired(s)
    ensures PairedAfter(Steps(origin, s, lines))
    decreases |lines|
  {
    if lines != [] {
      StepPaired(origin, s, lines[0]);
      match Step(origin, s, lines[0])
      case Next(s') => StepsPaired(origin, s', lines[1..]);
      case Halt(_) =>
      case Fail(_) =>
    }
  }

  /** The n-th peptide written is the translation of the n-th CDS counted: as many peptides as CDSs, with the same gene names. */
  lemma AnnotationPaired(lines: seq<string>)
    ensures Annotate(lines).Ok? ==>
      var a := Annotate(lines).value;
      |a.peptides| == |a.cds| && forall i :: 0 <= i < |a.cds| ==> a.peptides[i].gene == a.cds[i].gene
  {
    match Origin.FirstPass(lines)
    case Err(_) =>
    case Ok(genome) =>
      StepsPaired(genome.origin, Initial, lines);
  }
}
