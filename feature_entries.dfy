/**
 * Whole feature entries as GenBank writes them: a location wrapped over
 * several lines reads as its concatenation, a translation wrapped over
 * several lines reads as its concatenation, and a complete CDS, rRNA or
 * tRNA entry adds exactly one record.
 */
module FeatureEntries {
  import opened Outcome
  import opened Text
  import opened Features
  import opened FeatureLines
  import opened FeatureProperties

  // ------------------------------------------------------------ helpers

  /** A scan of one line is that line's step. */
  lemma StepsOne(origin: string, s: Scan, line: string)
    ensures Steps(origin, s, [line]) == Step(origin, s, line)
  {
    assert [line][1..] == [];
  }

  /** Scanning past a first line that leaves the scan going. */
  lemma StepsFirst(origin: string, s: Scan, lines: seq<string>, s': Scan)
    requires lines != [] && Step(origin, s, lines[0]) == Next(s')
    ensures Steps(origin, s, lines) == Steps(origin, s', lines[1..])
  {
  }

  lemma ConcatCons(w: string, ws: seq<string>)
    ensures Concat([w] + ws) == w + Concat(ws)
  {
    assert ([w] + ws)[1..] == ws;
  }

  lemma WithTrackTwice(s: Scan, k: Kind, t: Track, u: Track)
    ensures WithTrack(WithTrack(s, k, t), k, u) == WithTrack(s, k, u)
  {
  }

  /** Evaluation replaces the location being built and the track of `k`, so neither matters beforehand. */
  lemma EvaluateForgets(origin: string, s: Scan, k: Kind, t: Track, u: Track, x: Option<string>, loc: string)
    ensures Evaluate(origin, WithTrack(s, k, u), k, t.(current := t.current.(location := x)), loc) ==
            Evaluate(origin, s, k, t, loc)
  {
    WithTrackTwice(s, k, u, t.(current := t.current.(location := Some(loc), sequence := Some([]))));
    match Location.Extract(origin, loc)
    case Err(_) =>
    case Ok(bases) =>
      WithTrackTwice(s, k, u, t.(current := t.current.(location := Some(loc), sequence := Some(bases))));
  }

  // ------------------------------------------------------ wrapped locations

  /** The lines after a location's header line, one part each. */
  function ContinuationLines(ws: seq<string>): (lines: seq<string>)
    ensures |lines| == |ws|
    ensures forall i :: 0 <= i < |ws| ==> lines[i] == ContinuationLine(ws[i])
    decreases |ws|
  {
    if ws == [] then [] else [ContinuationLine(ws[0])] + ContinuationLines(ws[1..])
  }

  /** A `k` location written over as many lines as it has parts. */
  function LocationLines(k: Kind, ws: seq<string>): (lines: seq<string>)
    requires ws != []
    ensures |lines| == |ws| && lines[0] == HeaderLine(k, ws[0])
  {
    [HeaderLine(k, ws[0])] + ContinuationLines(ws[1..])
  }

  function Last(ws: seq<string>): string
    requires ws != []
  {
    ws[|ws| - 1]
  }

  /** A location cut into lines as GenBank cuts it: words, each but the last ending in a comma. */
  predicate Wrapped(ws: seq<string>)
  {
    ws != [] &&
    (forall i :: 0 <= i < |ws| ==> IsWord(ws[i])) &&
    (forall i :: 0 <= i < |ws| - 1 ==> ws[i][|ws[i]| - 1] == ',') &&
    Last(ws)[|Last(ws)| - 1] != ','
  }

  lemma WrappedTail(ws: seq<string>)
    requires Wrapped(ws) && |ws| > 1
    ensures Wrapped(ws[1..]) && Last(ws[1..]) == Last(ws)
  {
    var t := ws[1..];
    assert forall i :: 0 <= i < |t| ==> t[i] == ws[i + 1];
  }

  /** The continuation lines of a location of `k` whose first `start` has been read. */
  lemma {:induction false} ContinuationsRead(origin: string, s: Scan, k: Kind, ws: seq<string>, start: string)
    requires Wrapped(ws) && Reaches(s, k)
    requires TrackOf(s, k).active && TrackOf(s, k).continued && TrackOf(s, k).current.location == Some(start)
    ensures Steps(origin, s, ContinuationLines(ws)) ==
      Evaluate(origin, s.(tempLoc := Last(ws)), k, TrackOf(s, k).(continued := false), start + Concat(ws))
    decreases |ws|
  {
    if |ws| == 1 {
      ContinuationsReadLast(origin, s, k, ws, start);
    } else {
      var t := TrackOf(s, k);
      var u := t.(current := t.current.(location := Some(start + ws[0])));
      var s1 := WithTrack(s.(tempLoc := ws[0]), k, u);
      ContinuationsReadFirst(origin, s, k, ws, start);
      WrappedTail(ws);
      assert Reaches(s1, k) && TrackOf(s1, k) == u;
      ContinuationsRead(origin, s1, k, ws[1..], start + ws[0]);
      ContinuationsReadRest(origin, s, k, ws, start);
    }
  }

  /** The last continuation line ends the location. */
  lemma ContinuationsReadLast(origin: string, s: Scan, k: Kind, ws: seq<string>, start: string)
    requires Wrapped(ws) && |ws| == 1 && Reaches(s, k)
    requires TrackOf(s, k).active && TrackOf(s, k).continued && TrackOf(s, k).current.location == Some(start)
    ensures Steps(origin, s, ContinuationLines(ws)) ==
      Evaluate(origin, s.(tempLoc := Last(ws)), k, TrackOf(s, k).(continued := false), start + Concat(ws))
  {
    var w := ws[0];
    StepOnContinuation(origin, s, k, w);
    ContinuationOutcome(origin, s, k, w, start);
    assert ContinuationLines(ws) == [ContinuationLine(w)];
    StepsOne(origin, s, ContinuationLine(w));
    ConcatCons(w, ws[1..]);
    assert ws == [w] + ws[1..];
    assert Concat(ws[1..]) == "";
    assert start + Concat(ws) == start + w;
  }

  /** A continuation line ending in a comma extends the location and leaves the scan going. */
  lemma ContinuationsReadFirst(origin: string, s: Scan, k: Kind, ws: seq<string>, start: string)
    requires Wrapped(ws) && |ws| > 1 && Reaches(s, k)
    requires TrackOf(s, k).active && TrackOf(s, k).continued && TrackOf(s, k).current.location == Some(start)
    ensures var t := TrackOf(s, k);
      Steps(origin, s, ContinuationLines(ws)) ==
        Steps(origin, WithTrack(s.(tempLoc := ws[0]), k, t.(current := t.current.(location := Some(start + ws[0])))),
              ContinuationLines(ws[1..]))
  {
    var w := ws[0];
    var t := TrackOf(s, k);
    assert w[|w| - 1] == ',';
    StepOnContinuation(origin, s, k, w);
    ContinuationOutcome(origin, s, k, w, start);
    StepsFirst(origin, s, ContinuationLines(ws), WithTrack(s.(tempLoc := w), k, t.(current := t.current.(location := Some(start + w)))));
  }

  /** What the rest of the lines evaluate is what the whole location evaluates. */
  lemma ContinuationsReadRest(origin: string, s: Scan, k: Kind, ws: seq<string>, start: string)
    requires |ws| > 1
    ensures var t := TrackOf(s, k);
      var u := t.(current := t.current.(location := Some(start + ws[0])));
      var s1 := WithTrack(s.(tempLoc := ws[0]), k, u);
      Evaluate(origin, s1.(tempLoc := Last(ws[1..])), k, u.(continued := false), start + ws[0] + Concat(ws[1..])) ==
        Evaluate(origin, s.(tempLoc := Last(ws)), k, t.(continued := false), start + Concat(ws))
  {
    var w := ws[0];
    var t := TrackOf(s, k);
    var u := t.(current := t.current.(location := Some(start + w)));
    var s1 := WithTrack(s.(tempLoc := w), k, u);
    assert Last(ws[1..]) == Last(ws);
    assert s1.(tempLoc := Last(ws)) == WithTrack(s.(tempLoc := Last(ws)), k, u);
    EvaluateForgets(origin, s.(tempLoc := Last(ws)), k, t.(continued := false), u, Some(start + w), start + w + Concat(ws[1..]));
    assert t.(continued := false).(current := t.current.(location := Some(start + w))) == u.(continued := false);
    ConcatCons(w, ws[1..]);
    assert ws == [w] + ws[1..];
    ConcatAssoc(start, w, Concat(ws[1..]));
  }

  /**
   * A location wrapped over several lines is evaluated once, as the
   * concatenation of its parts, when its last part is read; the result
   * depends on how it was wrapped only through the buffer's last part.
   */
  lemma LocationRead(origin: string, s: Scan, k: Kind, ws: seq<string>)
    requires Wrapped(ws) && Locus(k, ws[0]) && Reaches(s, k)
    ensures Steps(origin, s, LocationLines(k, ws)) ==
      Evaluate(origin, s.(tempLoc := Last(ws)), k, TrackOf(s, k).(active := true, continued := false), Concat(ws))
  {
    if |ws| == 1 {
      LocationReadSingle(origin, s, k, ws);
    } else {
      LocationReadWrapped(origin, s, k, ws);
    }
  }

  lemma LocationReadSingle(origin: string, s: Scan, k: Kind, ws: seq<string>)
    requires Wrapped(ws) && |ws| == 1 && Locus(k, ws[0]) && Reaches(s, k)
    ensures Steps(origin, s, LocationLines(k, ws)) ==
      Evaluate(origin, s.(tempLoc := Last(ws)), k, TrackOf(s, k).(active := true, continued := false), Concat(ws))
  {
    LocationReadOne(origin, s, k, ws[0]);
    assert LocationLines(k, ws) == [HeaderLine(k, ws[0])];
    assert Concat(ws) == ws[0] + Concat([]) == ws[0];
    assert Last(ws) == ws[0];
  }

  lemma LocationReadWrapped(origin: string, s: Scan, k: Kind, ws: seq<string>)
    requires Wrapped(ws) && |ws| > 1 && Locus(k, ws[0]) && Reaches(s, k)
    ensures Steps(origin, s, LocationLines(k, ws)) ==
      Evaluate(origin, s.(tempLoc := Last(ws)), k, TrackOf(s, k).(active := true, continued := false), Concat(ws))
  {
    assert ws[0][|ws[0]| - 1] == ',';
    StepOnHeader(origin, s, k, ws[0]);
    HeaderOutcome(origin, s, k, ws[0]);
    WrappedLocationRead(origin, s, k, ws);
    ConcatCons(ws[0], ws[1..]);
    assert ws == [ws[0]] + ws[1..];
  }

  lemma LocationReadOne(origin: string, s: Scan, k: Kind, w: string)
    requires Locus(k, w) && Reaches(s, k) && w[|w| - 1] != ','
    ensures Steps(origin, s, [HeaderLine(k, w)]) ==
      Evaluate(origin, s.(tempLoc := w), k, TrackOf(s, k).(active := true, continued := false), w)
  {
    StepOnHeader(origin, s, k, w);
    HeaderOutcome(origin, s, k, w);
    StepsOne(origin, s, HeaderLine(k, w));
  }

  lemma WrappedLocationRead(origin: string, s: Scan, k: Kind, ws: seq<string>)
    requires Wrapped(ws) && |ws| > 1 && Reaches(s, k)
    requires var t := TrackOf(s, k).(active := true);
      Step(origin, s, HeaderLine(k, ws[0])) ==
        Next(WithTrack(s.(tempLoc := ws[0]), k, t.(continued := true, current := t.current.(location := Some(ws[0])))))
    ensures Steps(origin, s, LocationLines(k, ws)) ==
      Evaluate(origin, s.(tempLoc := Last(ws)), k, TrackOf(s, k).(active := true, continued := false), ws[0] + Concat(ws[1..]))
  {
    var w := ws[0];
    var t := TrackOf(s, k).(active := true);
    var u := t.(continued := true, current := t.current.(location := Some(w)));
    var s1 := WithTrack(s.(tempLoc := w), k, u);
    StepsFirst(origin, s, LocationLines(k, ws), s1);
    WrappedTail(ws);
    ContinuationsRead(origin, s1, k, ws[1..], w);
    assert s1.(tempLoc := Last(ws)) == WithTrack(s.(tempLoc := Last(ws)), k, u);
    EvaluateForgets(origin, s.(tempLoc := Last(ws)), k, t.(continued := false), u, Some(w), w + Concat(ws[1..]));
    assert t.(continued := false).(current := t.current.(location := Some(w))) == u.(continued := false);
  }

  // --------------------------------------------------- wrapped translations

  /** The state once a translation with residues `q` is closed, the last line read being `last`: the CDS and its peptide counted. */
  function Filled(s: Scan, q: string, last: string): (s': Scan)
    ensures s'.cds.records == s.cds.records + [s.cds.current]
    ensures s'.peptides == s.peptides + [s.peptide.(sequence := Some(q))]
    ensures !s'.cds.active && !s'.inTranslation
  {
    CommitCds(s.(inTranslation := false, cds := s.cds.(active := false), tempSeq := last, peptide := s.peptide.(sequence := Some(q))))
  }

  /** Nothing counted so far has changed, and nothing has been added. */
  predicate Kept(s: Scan, s': Scan)
  {
    s'.cds.records == s.cds.records && s'.rrn.records == s.rrn.records &&
    s'.trn.records == s.trn.records && s'.peptides == s.peptides
  }

  /** The lines of a translation after its first: residue lines, then the closing one. */
  function TailLines(ps: seq<string>): (lines: seq<string>)
    requires ps != []
    ensures |lines| == |ps|
    decreases |ps|
  {
    if |ps| == 1 then [ClosingLine(ps[0])] else [ResidueLine(ps[0])] + TailLines(ps[1..])
  }

  /** A /translation qualifier written over as many lines as it has parts. */
  function TranslationLines(ps: seq<string>): (lines: seq<string>)
    requires ps != []
    ensures |lines| == |ps|
  {
    if |ps| == 1 then [ClosedTranslation(ps[0])] else [OpenTranslation(ps[0])] + TailLines(ps[1..])
  }

  predicate AllResidues(ps: seq<string>)
  {
    ps != [] && forall i :: 0 <= i < |ps| ==> Residues(ps[i])
  }

  lemma AllResiduesTail(ps: seq<string>)
    requires AllResidues(ps) && |ps| > 1
    ensures AllResidues(ps[1..]) && Last(ps[1..]) == Last(ps)
  {
    var t := ps[1..];
    assert forall i :: 0 <= i < |t| ==> t[i] == ps[i + 1];
  }

  /** What a closing line does: the residues are appended and the CDS counted, unless the peptide reaches MinSequenceLen. */
  lemma ClosingOutcome(s: Scan, p: string, q: string)
    requires Residues(p) && s.peptide.sequence == Some(q)
    ensures var s' := s.(inTranslation := false, cds := s.cds.(active := false), tempSeq := p);
      TranslationLine(s, ClosingLine(p)) ==
        if |q| + |p| >= MinSequenceLen then Halt(s') else Next(Filled(s, q + p, p))
  {
    ResidueLineReads(p, "\"\n", s.tempSeq);
  }

  /** What a residue line does: the residues are appended, unless the peptide reaches MinSequenceLen. */
  lemma ResidueOutcome(s: Scan, p: string, q: string)
    requires Residues(p) && s.peptide.sequence == Some(q)
    ensures var s' := s.(inTranslation := true, cds := s.cds.(active := true), tempSeq := p);
      TranslationLine(s, ResidueLine(p)) ==
        if |q| + |p| >= MinSequenceLen then Halt(s') else Next(s'.(peptide := s.peptide.(sequence := Some(q + p))))
  {
    var line := ResidueLine(p);
    ResidueLineReads(p, "\n", s.tempSeq);
    assert p[|p| - 1] != '"';
    assert Penultimate(line) == Some(p[|p| - 1]);
    assert RunAfter(line, Indent, '\n', s.tempSeq) == p;
    var s' := s.(inTranslation := true, cds := s.cds.(active := true), tempSeq := p);
    if |q| + |p| >= MinSequenceLen {
      assert TranslationLine(s, line) == Halt(s');
    } else {
      assert TranslationLine(s, line) == Next(s'.(peptide := s'.peptide.(sequence := Some(q + p))));
    }
  }

  /** What a one-line translation does. */
  lemma ClosedOutcome(s: Scan, p: string)
    requires Residues(p)
    ensures var s' := s.(inTranslation := false, cds := s.cds.(active := false), tempSeq := p);
      Translation(s, ClosedTranslation(p)) ==
        if |p| >= MinSequenceLen then Halt(s') else Next(Filled(s, p, p))
  {
    TranslationLineReads(p, "\"\n", s.tempSeq);
  }

  /** What the first line of a wrapped translation does. */
  lemma OpenOutcome(s: Scan, p: string)
    requires Residues(p)
    ensures var s' := s.(inTranslation := true, cds := s.cds.(active := true), tempSeq := p);
      Translation(s, OpenTranslation(p)) ==
        if |p| >= MinSequenceLen then Halt(s') else Next(s'.(peptide := s.peptide.(sequence := Some(p))))
  {
    TranslationLineReads(p, "\n", s.tempSeq);
    assert p[|p| - 1] != '"';
  }

  /** The lines after a translation's first, residues `q` read so far: their residues are appended, and the CDS counted with the whole peptide unless it reaches MinSequenceLen, which halts with nothing more counted. */
  lemma {:induction false} TailRead(origin: string, s: Scan, ps: seq<string>, q: string)
    requires AllResidues(ps) && s.peptide.sequence == Some(q)
    requires s.cds.active && !s.cds.continued && s.inTranslation
    ensures var r := Steps(origin, s, TailLines(ps));
      if |q| + |Concat(ps)| >= MinSequenceLen then r.Halt? && Kept(s, r.scan)
      else r == Next(Filled(s, q + Concat(ps), Last(ps)))
    decreases |ps|
  {
    if |ps| == 1 {
      TailReadOne(origin, s, ps, q);
    } else {
      TailReadMore(origin, s, ps, q);
    }
  }

  lemma TailReadOne(origin: string, s: Scan, ps: seq<string>, q: string)
    requires AllResidues(ps) && |ps| == 1 && s.peptide.sequence == Some(q)
    requires s.cds.active && !s.cds.continued && s.inTranslation
    ensures var r := Steps(origin, s, TailLines(ps));
      if |q| + |Concat(ps)| >= MinSequenceLen then r.Halt? && Kept(s, r.scan)
      else r == Next(Filled(s, q + Concat(ps), Last(ps)))
  {
    var p := ps[0];
    assert Residues(p);
    assert TailLines(ps) == [ClosingLine(p)];
    assert Concat(ps) == p + Concat([]) == p;
    assert Last(ps) == p;
    StepOnResidues(origin, s, p, "\"\n");
    ClosingOutcome(s, p, q);
    StepsOne(origin, s, ClosingLine(p));
  }

  lemma {:induction false} TailReadMore(origin: string, s: Scan, ps: seq<string>, q: string)
    requires AllResidues(ps) && |ps| > 1 && s.peptide.sequence == Some(q)
    requires s.cds.active && !s.cds.continued && s.inTranslation
    ensures var r := Steps(origin, s, TailLines(ps));
      if |q| + |Concat(ps)| >= MinSequenceLen then r.Halt? && Kept(s, r.scan)
      else r == Next(Filled(s, q + Concat(ps), Last(ps)))
    decreases |ps|, 0
  {
    var p := ps[0];
    assert Residues(p);
    var lines := TailLines(ps);
    assert lines == [ResidueLine(p)] + TailLines(ps[1..]);
    assert lines[1..] == TailLines(ps[1..]);
    StepOnResidues(origin, s, p, "\n");
    ResidueOutcome(s, p, q);
    ConcatCons(p, ps[1..]);
    assert ps == [p] + ps[1..];
    ConcatAssoc(q, p, Concat(ps[1..]));
    var s' := s.(inTranslation := true, cds := s.cds.(active := true), tempSeq := p);
    if |q| + |p| < MinSequenceLen {
      var s1 := s'.(peptide := s.peptide.(sequence := Some(q + p)));
      StepsFirst(origin, s, lines, s1);
      AllResiduesTail(ps);
      TailRead(origin, s1, ps[1..], q + p);
      assert Filled(s1, q + Concat(ps), Last(ps)) == Filled(s, q + Concat(ps), Last(ps));
    }
  }

  /**
   * A /translation qualifier wrapped over several lines yields the
   * concatenation of its parts: the CDS is counted with that peptide, or,
   * once the peptide reaches MinSequenceLen, the scan halts with nothing
   * more counted.  How it was wrapped matters only to the buffer's last part.
   */
  lemma TranslationRead(origin: string, s: Scan, ps: seq<string>)
    requires AllResidues(ps) && s.cds.active && !s.cds.continued
    ensures var r := Steps(origin, s, TranslationLines(ps));
      if |Concat(ps)| >= MinSequenceLen then r.Halt? && Kept(s, r.scan)
      else r == Next(Filled(s, Concat(ps), Last(ps)))
  {
    if |ps| == 1 {
      TranslationReadOne(origin, s, ps);
    } else {
      TranslationReadMore(origin, s, ps);
    }
  }

  lemma TranslationReadOne(origin: string, s: Scan, ps: seq<string>)
    requires AllResidues(ps) && |ps| == 1 && s.cds.active && !s.cds.continued
    ensures var r := Steps(origin, s, TranslationLines(ps));
      if |Concat(ps)| >= MinSequenceLen then r.Halt? && Kept(s, r.scan)
      else r == Next(Filled(s, Concat(ps), Last(ps)))
  {
    var p := ps[0];
    assert Residues(p);
    assert TranslationLines(ps) == [ClosedTranslation(p)];
    assert Concat(ps) == p + Concat([]) == p;
    assert Last(ps) == p;
    StepOnTranslation(origin, s, p, "\"\n");
    ClosedOutcome(s, p);
    StepsOne(origin, s, ClosedTranslation(p));
  }

  lemma TranslationReadMore(origin: string, s: Scan, ps: seq<string>)
    requires AllResidues(ps) && |ps| > 1 && s.cds.active && !s.cds.continued
    ensures var r := Steps(origin, s, TranslationLines(ps));
      if |Concat(ps)| >= MinSequenceLen then r.Halt? && Kept(s, r.scan)
      else r == Next(Filled(s, Concat(ps), Last(ps)))
  {
    var p := ps[0];
    assert Residues(p);
    var lines := TranslationLines(ps);
    assert lines == [OpenTranslation(p)] + TailLines(ps[1..]);
    assert lines[1..] == TailLines(ps[1..]);
    StepOnTranslation(origin, s, p, "\n");
    OpenOutcome(s, p);
    ConcatCons(p, ps[1..]);
    assert ps == [p] + ps[1..];
    var s' := s.(inTranslation := true, cds := s.cds.(active := true), tempSeq := p);
    if |p| < MinSequenceLen {
      var s1 := s'.(peptide := s.peptide.(sequence := Some(p)));
      StepsFirst(origin, s, lines, s1);
      AllResiduesTail(ps);
      TailRead(origin, s1, ps[1..], p);
      assert Filled(s1, Concat(ps), Last(ps)) == Filled(s, Concat(ps), Last(ps));
    }
  }

  // ---------------------------------------------------------- whole entries

  /** A CDS entry: its location, its /gene qualifier, its /translation qualifier. */
  function CdsLines(ws: seq<string>, g: string, ps: seq<string>): seq<string>
    requires ws != [] && ps != []
  {
    LocationLines(Cds, ws) + ([GeneLine(g)] + TranslationLines(ps))
  }

  /** An rRNA or tRNA entry: its location and its /gene qualifier. */
  function RnaLines(k: Kind, ws: seq<string>, g: string): seq<string>
    requires ws != []
  {
    LocationLines(k, ws) + [GeneLine(g)]
  }

  /** The qualifiers of a CDS whose location is read: the CDS is counted with its name and its peptide, unless the peptide is too long. */
  lemma CdsQualifiers(origin: string, s: Scan, g: string, ps: seq<string>)
    requires GeneName(g) && AllResidues(ps) && s.cds.active && !s.cds.continued
    ensures var r := Steps(origin, s, [GeneLine(g)] + TranslationLines(ps));
      if |Concat(ps)| >= MinSequenceLen then r.Halt? && Kept(s, r.scan)
      else (r.Next? && r.scan.cds.records == s.cds.records + [s.cds.current.(gene := Some(g))] &&
        r.scan.peptides == s.peptides + [Peptide(Some(g), Some(Concat(ps)))] &&
        r.scan.rrn.records == s.rrn.records && r.scan.trn.records == s.trn.records && !r.scan.cds.active)
  {
    var t := s.cds;
    var s1 := s.(geneId := g, cds := t.(current := t.current.(gene := Some(g))), peptide := s.peptide.(gene := Some(g)));
    StepOnGene(origin, s, Cds, g);
    GeneOutcome(s, Cds, g);
    var lines := [GeneLine(g)] + TranslationLines(ps);
    assert lines[1..] == TranslationLines(ps);
    StepsFirst(origin, s, lines, s1);
    TranslationRead(origin, s1, ps);
  }

  /**
   * A whole CDS entry, its location and translation wrapped however GenBank
   * wraps them, adds one CDS record (its gene name, the location as one
   * string, the bases the location selects) and one peptide (the same name,
   * the translation as one string), and nothing else.  A location that does
   * not evaluate fails the scan; a peptide of MinSequenceLen residues halts
   * it with nothing counted.
   */
  lemma CdsEntry(origin: string, s: Scan, ws: seq<string>, g: string, ps: seq<string>)
    requires Wrapped(ws) && Locus(Cds, ws[0]) && GeneName(g) && AllResidues(ps)
    ensures var r := Steps(origin, s, CdsLines(ws, g, ps));
      match Location.Extract(origin, Concat(ws))
      case Err(e) => r == Fail(e)
      case Ok(bases) =>
        if |Concat(ps)| >= MinSequenceLen then r.Halt? && Kept(s, r.scan)
        else (r.Next? &&
          r.scan.cds.records == s.cds.records + [Feature(Some(g), Some(Concat(ws)), Some(bases))] &&
          r.scan.peptides == s.peptides + [Peptide(Some(g), Some(Concat(ps)))] &&
          r.scan.rrn.records == s.rrn.records && r.scan.trn.records == s.trn.records)
  {
    LocationRead(origin, s, Cds, ws);
    StepsAppend(origin, s, LocationLines(Cds, ws), [GeneLine(g)] + TranslationLines(ps));
    match Location.Extract(origin, Concat(ws))
    case Err(e) =>
    case Ok(bases) =>
      var t := s.cds.(active := true, continued := false);
      var s1 := s.(tempLoc := Last(ws), cds := t.(current := t.current.(location := Some(Concat(ws)), sequence := Some(bases))));
      assert Steps(origin, s, LocationLines(Cds, ws)) == Next(s1);
      CdsQualifiers(origin, s1, g, ps);
  }

  /**
   * A whole rRNA or tRNA entry adds one record of its kind (its gene name,
   * the location as one string, the bases it selects) and closes the
   * feature; nothing else is counted.  A location that does not evaluate
   * fails the scan.
   */
  lemma RnaEntry(origin: string, s: Scan, k: Kind, ws: seq<string>, g: string)
    requires k != Cds && Reaches(s, k) && Wrapped(ws) && Locus(k, ws[0]) && GeneName(g)
    ensures var r := Steps(origin, s, RnaLines(k, ws, g));
      match Location.Extract(origin, Concat(ws))
      case Err(e) => r == Fail(e)
      case Ok(bases) =>
        r.Next? && !TrackOf(r.scan, k).active &&
        TrackOf(r.scan, k).records == TrackOf(s, k).records + [Feature(Some(g), Some(Concat(ws)), Some(bases))] &&
        r.scan.cds.records == s.cds.records && r.scan.peptides == s.peptides &&
        (k == Rrn ==> r.scan.trn.records == s.trn.records) &&
        (k == Trn ==> r.scan.rrn.records == s.rrn.records)
  {
    LocationRead(origin, s, k, ws);
    StepsAppend(origin, s, LocationLines(k, ws), [GeneLine(g)]);
    match Location.Extract(origin, Concat(ws))
    case Err(e) =>
    case Ok(bases) =>
      var t := TrackOf(s, k).(active := true, continued := false);
      var s1 := WithTrack(s.(tempLoc := Last(ws)), k, t.(current := t.current.(location := Some(Concat(ws)), sequence := Some(bases))));
      assert Steps(origin, s, LocationLines(k, ws)) == Next(s1);
      StepOnGene(origin, s1, k, g);
      GeneOutcome(s1, k, g);
      StepsOne(origin, s1, GeneLine(g));
  }
}
