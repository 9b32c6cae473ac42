/**
 * The lines of a GenBank feature table as the feature scan meets them, and
 * which branch of the scan each one takes.  Each shape is the one GenBank
 * writes: keys in column 6, qualifiers and continuations in column 22.
 */
module FeatureLines {
  import opened Outcome
  import opened Text
  import opened Features

  /** A feature key line: the key, then the location (or its first part). */
  function HeaderLine(k: Kind, w: string): string
  {
    Key(k) + w + "\n"
  }

  /** A later line of a location. */
  function ContinuationLine(w: string): string
  {
    Indent + w + "\n"
  }

  /** A /gene qualifier line. */
  function GeneLine(g: string): string
  {
    GeneFormat + g + "\"\n"
  }

  /** The first line of a /translation qualifier that continues on the next line. */
  function OpenTranslation(p: string): string
  {
    TranslationFormat + p + "\n"
  }

  /** A /translation qualifier on one line. */
  function ClosedTranslation(p: string): string
  {
    TranslationFormat + p + "\"\n"
  }

  /** A line inside a translation, the closing quote still to come. */
  function ResidueLine(p: string): string
  {
    Indent + p + "\n"
  }

  /** The last line of a translation. */
  function ClosingLine(p: string): string
  {
    Indent + p + "\"\n"
  }

  /** A location as the header of a `k` feature can carry it (a tRNA location without 'R', so that the line cannot hold the rRNA key). */
  predicate Locus(k: Kind, w: string)
  {
    IsWord(w) && (k == Trn ==> 'R' !in w)
  }

  /**
   * A /gene value `%[^"]` reads whole: not empty and without a quote.  It
   * may hold blanks, as in "12S rRNA", but no two side by side, so that the
   * line cannot hold a feature key, whose name follows a run of blanks.
   */
  predicate GeneName(g: string)
  {
    g != [] && '"' !in g && forall j :: 0 <= j < |g| - 1 ==> !(g[j] == ' ' && g[j + 1] == ' ')
  }

  /** Translation text: no blanks, no quote, no slash. */
  predicate Residues(p: string)
  {
    IsWord(p) && '"' !in p && '/' !in p
  }

  /** No feature earlier in the branch chain than `k` is open. */
  predicate Reaches(s: Scan, k: Kind)
  {
    k == Cds || (!s.cds.active && (k == Trn ==> !s.rrn.active))
  }

  // ------------------------------------------------------------ line facts

  lemma WordFacts(w: string)
    requires IsWord(w)
    ensures ' ' !in w && '\n' !in w
    ensures ' ' !in w + "\n" && ' ' !in w + "\"\n"
    ensures Penultimate(w + "\n") == Some(w[|w| - 1])
  {
    forall j | 0 <= j < |w|
      ensures w[j] != ' ' && w[j] != '\n'
    {
      assert !IsSpace(w[j]);
    }
    assert (w + "\n")[|w|] == '\n';
  }

  lemma PenultimateOfSuffix(a: string, b: string)
    requires |b| >= 2
    ensures Penultimate(a + b) == Penultimate(b)
  {
    assert (a + b)[|a + b| - 2] == b[|b| - 2];
  }

  /** The key a header line starts with is in it; no key before it in the chain is. */
  lemma HeaderKeys(k: Kind, w: string)
    requires Locus(k, w)
    ensures Contains(HeaderLine(k, w), Key(k))
    ensures k != Cds ==> !Contains(HeaderLine(k, w), CdsKey)
    ensures k == Trn ==> !Contains(HeaderLine(k, w), RrnKey)
  {
    ContainsAt(HeaderLine(k, w), Key(k), 0);
    if k != Cds {
      HeaderLacksCdsKey(k, w);
    }
    if k == Trn {
      HeaderLacksRrnKey(w);
    }
  }

  lemma HeaderLacksCdsKey(k: Kind, w: string)
    requires IsWord(w) && k != Cds
    ensures !Contains(HeaderLine(k, w), CdsKey)
  {
    WordFacts(w);
    ConcatAssoc(Key(k), w, "\n");
    assert CdsKey[7] == 'S' && CdsKey[8] == ' ';
    assert 'S' !in Key(k);
    AbsentPair(Key(k), w + "\n", CdsKey, 7);
  }

  lemma HeaderLacksRrnKey(w: string)
    requires Locus(Trn, w)
    ensures !Contains(HeaderLine(Trn, w), RrnKey)
  {
    ConcatAssoc(TrnKey, w, "\n");
    assert RrnKey[5] == 'r' && RrnKey[6] == 'R';
    assert 'r' !in TrnKey;
    assert 'R' !in w + "\n";
    AbsentPair(TrnKey, w + "\n", RrnKey, 5);
  }

  /** `%[^stop]` after a format ending in a non-blank reads the run that follows the format. */
  lemma RunAfterOfItself(fmt: string, run: string, tail: string, stop: char, buffer: string)
    requires fmt != [] && !IsSpace(fmt[|fmt| - 1])
    requires run != [] && stop !in run && tail != [] && tail[0] == stop
    ensures RunAfter(fmt + run + tail, fmt, stop, buffer) == run
  {
    ConcatAssoc(fmt, run, tail);
    MatchFormatOfItself(fmt, run + tail);
    ScanUntilOfRun(run, stop, tail);
  }

  /** `%s` after a format reads the word that follows it. */
  lemma WordAfterOfItself(fmt: string, w: string, buffer: string)
    requires IsWord(w)
    ensures WordAfter(fmt + w + "\n", fmt, buffer) == w
  {
    ConcatAssoc(fmt, w, "\n");
    MatchFormatOfItself(fmt, w + "\n");
    ScanWordOfWord([], w, "\n");
    assert [] + w + "\n" == w + "\n";
  }

  /** A format of a name and blanks reads the word after the same name and any other run of blanks. */
  lemma WordAfterPadded(name: string, pad: string, fpad: string, w: string, buffer: string)
    requires name != [] && !IsSpace(name[|name| - 1])
    requires Blank(pad) && fpad != [] && Blank(fpad)
    requires IsWord(w)
    ensures WordAfter(name + pad + w + "\n", name + fpad, buffer) == w
  {
    var rest := w + "\n";
    assert name + pad + w + "\n" == name + (pad + rest);
    assert rest[0] == w[0];
    PaddedFormat(name, pad, fpad, rest);
    ScanWordOfWord([], w, "\n");
    assert [] + w + "\n" == rest;
  }

  /** The name matches itself and the format blanks take up the input blanks. */
  lemma PaddedFormat(name: string, pad: string, fpad: string, rest: string)
    requires name != [] && !IsSpace(name[|name| - 1])
    requires Blank(pad) && fpad != [] && Blank(fpad)
    requires rest != [] && !IsSpace(rest[0])
    ensures MatchFormat(name + (pad + rest), name + fpad) == Some(rest)
  {
    MatchFormatOfItself(name, pad + rest);
    MatchFormatOfBlanks(pad, rest, fpad);
    MatchFormatConcat(name + (pad + rest), name, fpad);
  }

  /** `%s` after the header format reads the location. */
  lemma HeaderWord(k: Kind, w: string, buffer: string)
    requires IsWord(w)
    ensures WordAfter(HeaderLine(k, w), Format(k), buffer) == w
  {
    match k
    case Cds =>
      WordAfterOfItself(CdsFormat, w, buffer);
    case Rrn =>
      assert RrnKey == "     rRNA" + "            " && RrnFormat == "     rRNA" + "             ";
      PaddedHeaderWord("     rRNA", RrnKey, RrnFormat, w, buffer);
    case Trn =>
      assert TrnKey == "     tRNA" + "            " && TrnFormat == "     tRNA" + "             ";
      PaddedHeaderWord("     tRNA", TrnKey, TrnFormat, w, buffer);
  }

  /** The rRNA and tRNA formats have one blank more than their keys, which reads the same. */
  lemma PaddedHeaderWord(name: string, key: string, fmt: string, w: string, buffer: string)
    requires name != [] && !IsSpace(name[|name| - 1]) && IsWord(w)
    requires key == name + "            " && fmt == name + "             "
    ensures WordAfter(key + w + "\n", fmt, buffer) == w
  {
    var twelve, thirteen := "            ", "             ";
    assert Blank(twelve) && Blank(thirteen);
    WordAfterPadded(name, twelve, thirteen, w, buffer);
  }

  lemma HeaderPenultimate(k: Kind, w: string)
    requires IsWord(w)
    ensures Penultimate(HeaderLine(k, w)) == Some(w[|w| - 1])
  {
    WordFacts(w);
    ConcatAssoc(Key(k), w, "\n");
    PenultimateOfSuffix(Key(k), w + "\n");
  }

  /** A line starting with blanks and a slash holds no key: the keys' 'S' and 'A' are each followed by a blank. */
  lemma IndentedLacksKeys(prefix: string, rest: string)
    requires 'S' !in prefix && 'A' !in prefix && ' ' !in rest
    ensures !Contains(prefix + rest, CdsKey)
    ensures !Contains(prefix + rest, RrnKey)
    ensures !Contains(prefix + rest, TrnKey)
  {
    assert CdsKey[7] == 'S' && CdsKey[8] == ' ';
    AbsentPair(prefix, rest, CdsKey, 7);
    assert RrnKey[8] == 'A' && RrnKey[9] == ' ';
    AbsentPair(prefix, rest, RrnKey, 8);
    assert TrnKey[8] == 'A' && TrnKey[9] == ' ';
    AbsentPair(prefix, rest, TrnKey, 8);
  }

  /** A continuation line holds no key. */
  lemma ContinuationKeys(w: string)
    requires IsWord(w)
    ensures !Contains(ContinuationLine(w), CdsKey)
    ensures !Contains(ContinuationLine(w), RrnKey)
    ensures !Contains(ContinuationLine(w), TrnKey)
  {
    WordFacts(w);
    ConcatAssoc(Indent, w, "\n");
    IndentedLacksKeys(Indent, w + "\n");
  }

  lemma ContinuationWord(w: string, buffer: string)
    requires IsWord(w)
    ensures WordAfter(ContinuationLine(w), Indent, buffer) == w
    ensures Penultimate(ContinuationLine(w)) == Some(w[|w| - 1])
  {
    WordFacts(w);
    WordAfterOfItself(Indent, w, buffer);
    ConcatAssoc(Indent, w, "\n");
    PenultimateOfSuffix(Indent, w + "\n");
  }

  /** A gene line holds "/gene=" and no key; the conversion reads the name. */
  lemma GeneLineFacts(g: string, buffer: string)
    requires GeneName(g)
    ensures Contains(GeneLine(g), "/gene=")
    ensures !Contains(GeneLine(g), CdsKey) && !Contains(GeneLine(g), RrnKey) && !Contains(GeneLine(g), TrnKey)
    ensures RunAfter(GeneLine(g), GeneFormat, '"', buffer) == g
  {
    GeneLineHasGene(g);
    assert CdsKey[3..6] == "  C" && RrnKey[3..6] == "  r" && TrnKey[3..6] == "  t";
    GeneLineLacksKey(g, CdsKey);
    GeneLineLacksKey(g, RrnKey);
    GeneLineLacksKey(g, TrnKey);
    GeneLineName(g, buffer);
  }

  /** A key, whose name follows two blanks, is not in a gene line: there two blanks stand side by side only in the indent. */
  lemma GeneLineLacksKey(g: string, key: string)
    requires GeneName(g)
    requires |key| >= 6 && key[3] == ' ' && key[4] == ' ' && key[5] != ' ' && key[5] != '/'
    ensures !Contains(GeneLine(g), key)
  {
    var line := GeneLine(g);
    if Contains(line, key) {
      var i := ContainsIndex(line, key);
      assert line[i..i + |key|][3] == line[i + 3] && line[i..i + |key|][4] == line[i + 4];
      assert line[i..i + |key|][5] == line[i + 5];
      DoubleBlankInIndent(g, i + 3);
      assert false;
    }
  }

  /** In a gene line two blanks stand side by side only within the indent. */
  lemma DoubleBlankInIndent(g: string, j: nat)
    requires GeneName(g)
    requires j + 1 < |GeneLine(g)| && GeneLine(g)[j] == ' ' && GeneLine(g)[j + 1] == ' '
    ensures j + 1 < |Indent|
  {
    var line := GeneLine(g);
    var a := GeneFormat;
    assert line == a + g + "\"\n";
    assert a == Indent + "/gene=\"" && |a| == 28;
    assert forall m :: |Indent| <= m < |a| ==> line[m] == a[m] != ' ';
    assert forall m :: |a| <= m < |a| + |g| ==> line[m] == g[m - |a|];
    assert forall m :: |a| + |g| <= m < |line| ==> line[m] != ' ';
  }


  lemma GeneLineHasGene(g: string)
    ensures Contains(GeneLine(g), "/gene=")
  {
    var line := GeneLine(g);
    assert line == Indent + ("/gene=" + ("\"" + g + "\"\n"));
    assert line[21..27] == "/gene=";
    ContainsAt(line, "/gene=", 21);
  }

  lemma GeneLineName(g: string, buffer: string)
    requires GeneName(g)
    ensures RunAfter(GeneLine(g), GeneFormat, '"', buffer) == g
  {
    RunAfterOfItself(GeneFormat, g, "\"\n", '"', buffer);
  }

  lemma ResiduesFacts(p: string, tail: string)
    requires Residues(p) && (tail == "\n" || tail == "\"\n")
    ensures ' ' !in p + tail && '/' !in p + tail && '\n' !in p && |p + tail| >= 2
    ensures Penultimate(p + tail) == Some(if tail == "\n" then p[|p| - 1] else '"')
  {
    WordFacts(p);
    assert '/' !in tail;
    var s := p + tail;
    assert s[|s| - 2] == if tail == "\n" then p[|p| - 1] else '"';
  }

  /** The first line of a translation holds "/translation" and no key or "/gene=". */
  lemma TranslationLineKeys(p: string, tail: string)
    requires Residues(p) && (tail == "\n" || tail == "\"\n")
    ensures var line := TranslationFormat + p + tail;
      Contains(line, "/translation") && !Contains(line, "/gene=") && !Contains(line, CdsKey)
  {
    ResiduesFacts(p, tail);
    ConcatAssoc(TranslationFormat, p, tail);
    TranslationHasQualifier(p + tail);
    TranslationLacksSlashed(p + tail, "/gene=");
    IndentedLacksKeys(TranslationFormat, p + tail);
  }

  /** The conversion of a translation's first line reads the residues on it. */
  lemma TranslationLineReads(p: string, tail: string, buffer: string)
    requires Residues(p) && (tail == "\n" || tail == "\"\n")
    ensures var line := TranslationFormat + p + tail;
      Penultimate(line) == Some(if tail == "\n" then p[|p| - 1] else '"') &&
      RunAfter(line, TranslationFormat, if tail == "\n" then '\n' else '"', buffer) == p
  {
    ResiduesFacts(p, tail);
    ConcatAssoc(TranslationFormat, p, tail);
    PenultimateOfSuffix(TranslationFormat, p + tail);
    RunAfterOfItself(TranslationFormat, p, tail, if tail == "\n" then '\n' else '"', buffer);
  }

  lemma TranslationHasQualifier(rest: string)
    ensures Contains(TranslationFormat + rest, "/translation")
  {
    var line := TranslationFormat + rest;
    assert line[21..33] == "/translation";
    ContainsAt(line, "/translation", 21);
  }

  /** A pattern of a slash and anything but 't' is not in a translation's first line, such as "/gene=". */
  lemma TranslationLacksSlashed(rest: string, p: string)
    requires '/' !in rest && |p| >= 2 && p[0] == '/' && p[1] != 't'
    ensures !Contains(TranslationFormat + rest, p)
  {
    var after := "translation=\"" + rest;
    TranslationFormatSplit(rest);
    assert '/' !in Indent && '/' !in after && after[0] == 't';
    AbsentPairIn(TranslationFormat + rest, Indent, '/', after, p, 0);
  }

  /** The translation format is the indent, a slash, and the qualifier's name. */
  lemma TranslationFormatSplit(rest: string)
    ensures TranslationFormat + rest == Indent + ['/'] + ("translation=\"" + rest)
  {
    assert "/translation=\"" == ['/'] + "translation=\"";
  }

  /** A later line of a translation holds no key and no qualifier. */
  lemma ResidueLineLacks(p: string, tail: string)
    requires Residues(p) && (tail == "\n" || tail == "\"\n")
    ensures var line := Indent + p + tail;
      !Contains(line, "/gene=") && !Contains(line, "/translation") && !Contains(line, CdsKey)
  {
    var rest := p + tail;
    ResiduesFacts(p, tail);
    ConcatAssoc(Indent, p, tail);
    IndentLacksSlash(rest);
    NotContainsWithoutChar(Indent + rest, "/gene=", '/');
    NotContainsWithoutChar(Indent + rest, "/translation", '/');
    assert CdsKey[7] == 'S' && CdsKey[8] == ' ';
    AbsentPair(Indent, rest, CdsKey, 7);
  }

  lemma IndentLacksSlash(rest: string)
    requires '/' !in rest
    ensures '/' !in Indent + rest && 'S' !in Indent
  {
  }

  /** The conversion of a later line of a translation reads the residues on it. */
  lemma ResidueLineReads(p: string, tail: string, buffer: string)
    requires Residues(p) && (tail == "\n" || tail == "\"\n")
    ensures var line := Indent + p + tail;
      Penultimate(line) == Some(if tail == "\n" then p[|p| - 1] else '"') &&
      RunAfter(line, Indent, if tail == "\n" then '\n' else '"', buffer) == p
  {
    ResiduesFacts(p, tail);
    ConcatAssoc(Indent, p, tail);
    PenultimateOfSuffix(Indent, p + tail);
    assert (p + tail)[0] == p[0];
    RunAfterOfWord(Indent, p, tail, if tail == "\n" then '\n' else '"', buffer);
  }

  /** `%[^stop]` after a format reads the run that follows it, when the run starts with a non-blank. */
  lemma RunAfterOfWord(fmt: string, run: string, tail: string, stop: char, buffer: string)
    requires run != [] && !IsSpace(run[0]) && stop !in run && tail != [] && tail[0] == stop
    ensures RunAfter(fmt + (run + tail), fmt, stop, buffer) == run
  {
    assert (run + tail)[0] == run[0];
    MatchFormatOfItself(fmt, run + tail);
    ScanUntilOfRun(run, stop, tail);
  }

  // ------------------------------------------------- which branch a line takes

  /** A header line of kind `k` takes the header branch of its kind. */
  lemma StepOnHeader(origin: string, s: Scan, k: Kind, w: string)
    requires Locus(k, w) && Reaches(s, k)
    ensures Step(origin, s, HeaderLine(k, w)) == Header(origin, s, k, HeaderLine(k, w))
  {
    HeaderKeys(k, w);
  }

  /** What a header line does: store the location, and evaluate it unless a comma says it continues. */
  lemma HeaderOutcome(origin: string, s: Scan, k: Kind, w: string)
    requires IsWord(w)
    ensures var t := TrackOf(s, k).(active := true);
      Header(origin, s, k, HeaderLine(k, w)) ==
        if w[|w| - 1] == ',' then Next(WithTrack(s.(tempLoc := w), k, t.(continued := true, current := t.current.(location := Some(w)))))
        else Evaluate(origin, s.(tempLoc := w), k, t.(continued := false), w)
  {
    HeaderWord(k, w, s.tempLoc);
    HeaderPenultimate(k, w);
  }

  /** A continuation line, while the location of `k` continues, takes the continuation branch of `k`. */
  lemma StepOnContinuation(origin: string, s: Scan, k: Kind, w: string)
    requires IsWord(w) && Reaches(s, k)
    requires TrackOf(s, k).active && TrackOf(s, k).continued
    ensures Step(origin, s, ContinuationLine(w)) == Continuation(origin, s, k, ContinuationLine(w))
  {
    ContinuationKeys(w);
  }

  /** What a continuation line does: append its part; evaluate unless a comma says more follows. */
  lemma ContinuationOutcome(origin: string, s: Scan, k: Kind, w: string, start: string)
    requires IsWord(w) && TrackOf(s, k).current.location == Some(start)
    ensures var t := TrackOf(s, k);
      Continuation(origin, s, k, ContinuationLine(w)) ==
        if w[|w| - 1] == ',' then Next(WithTrack(s.(tempLoc := w), k, t.(current := t.current.(location := Some(start + w)))))
        else Evaluate(origin, s.(tempLoc := w), k, t.(continued := false), start + w)
  {
    ContinuationWord(w, s.tempLoc);
  }

  /** A gene line, while `k` is open and its location complete, takes the gene branch of `k`. */
  lemma StepOnGene(origin: string, s: Scan, k: Kind, g: string)
    requires GeneName(g) && Reaches(s, k)
    requires TrackOf(s, k).active && !TrackOf(s, k).continued
    ensures Step(origin, s, GeneLine(g)) == Gene(s, k, GeneLine(g))
  {
    GeneLineFacts(g, s.geneId);
  }

  /** What a gene line does: a CDS and its peptide get the name; an rRNA or tRNA gets it and is counted. */
  lemma GeneOutcome(s: Scan, k: Kind, g: string)
    requires GeneName(g)
    ensures var t := TrackOf(s, k);
      Gene(s, k, GeneLine(g)) ==
        if k == Cds then Next(s.(geneId := g, cds := t.(current := t.current.(gene := Some(g))), peptide := s.peptide.(gene := Some(g))))
        else Next(WithTrack(s.(geneId := g), k, t.(active := false, current := Unwritten, records := t.records + [t.current.(gene := Some(g))])))
  {
    GeneLineFacts(g, s.geneId);
  }

  /** A translation's first line, while a CDS is open with its location complete, takes the translation branch. */
  lemma StepOnTranslation(origin: string, s: Scan, p: string, tail: string)
    requires Residues(p) && (tail == "\n" || tail == "\"\n")
    requires s.cds.active && !s.cds.continued
    ensures Step(origin, s, TranslationFormat + p + tail) == Translation(s, TranslationFormat + p + tail)
  {
    TranslationLineKeys(p, tail);
  }

  /** A later translation line, inside a translation, takes the peptide branch. */
  lemma StepOnResidues(origin: string, s: Scan, p: string, tail: string)
    requires Residues(p) && (tail == "\n" || tail == "\"\n")
    requires s.cds.active && !s.cds.continued && s.inTranslation
    ensures Step(origin, s, Indent + p + tail) == TranslationLine(s, Indent + p + tail)
  {
    ResidueLineLacks(p, tail);
  }
}
