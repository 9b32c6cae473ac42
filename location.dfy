/**
 * extract_sequence (get_seq.c:204-328): the location-expression evaluator.
 *
 * It works in two steps.  A character loop rewrites the location text into
 * a token string: partial markers '<' and '>' vanish, a complemented range
 * becomes '-' followed by the range, `complement(join(` becomes a single
 * 'c' followed by the comma-separated ranges, and join members are
 * separated by spaces.  Then the token string is dispatched on which of
 * ' ' and ',' it holds, slicing the origin with subseq and
 * reverse-complementing.
 */
module Location {
  import opened Outcome
  import opened Text
  import opened Sequence

  /** location[k]; the index |loc| reads the string's terminator. */
  function CharAt(loc: string, k: nat): char
    requires k <= |loc|
  {
    if k < |loc| then loc[k] else '\0'
  }

  /** What one turn of the character loop does. */
  datatype Move =
    /** append `text` to tk_loc and go on at `next` with the two flags */
    | Emit(text: string, next: nat, cj: bool, com: bool)
    /** the `break` at a ')' among the last two characters */
    | Finish
    /** location[i+11] lies past the terminator */
    | Stuck

  /**
   * One turn of the character loop (get_seq.c:214-267) at position i, where
   * `cj` and `com` are cj_flag and com_flag (join_flag is never set, so it is
   * left out).  `location[i+11]` is read whenever a 'c' reaches the keyword
   * tests.
   */
  function Turn(loc: string, i: nat, cj: bool, com: bool): (m: Move)
    requires i < |loc|
    ensures m.Emit? ==> m.next > i
  {
    var c := loc[i];
    if c == '>' || c == '<' then Emit("", i + 1, cj, com)
    else if !com && !cj && c != 'j' && c != 'c' then
      if c == ',' then Emit(" ", i + 1, cj, com)
      else if c == ')' then Emit("", i + 1, cj, com)
      else Emit([c], i + 1, cj, com)
    else if c == 'c' && i + 11 > |loc| then Stuck
    else if c == 'c' && CharAt(loc, i + 11) == 'j' then Emit("c", i + 16, true, com)
    else if cj then
      if c != ')' then Emit([c], i + 1, cj, com)
      else if i < |loc| - 2 then Emit(" ", i + 1, false, com)
      else Finish
    else if c == 'j' then Emit("", i + 5, cj, com)
    else if c == 'c' then Emit("-", i + 11, cj, true)
    else
      // here com_flag is set
      if c != ')' then Emit([c], i + 1, cj, com)
      else if i < |loc| - 2 then Emit(" ", i + 1, cj, false)
      else Finish
  }

  /** The text the character loop writes into tk_loc from position i on. */
  function Tokens(loc: string, i: nat, cj: bool, com: bool): Result<string>
    decreases |loc| - i
  {
    if i >= |loc| then Ok("")
    else
      match Turn(loc, i, cj, com)
      case Finish => Ok("")
      case Stuck => Err(Undefined)
      case Emit(text, next, cj', com') => PrefixWith(text, Tokens(loc, next, cj', com'))
  }

  /**
   * sscanf(tok, "%d..%d", &l_loc, &r_loc): a variable whose conversion
   * fails keeps the value it had.
   */
  function ScanRange(tok: string, l: int, r: int): (int, int)
  {
    match ScanInt(tok)
    case None => (l, r)
    case Some((a, rest)) =>
      match ScanLiteral(rest, "..")
      case None => (a, r)
      case Some(rest') =>
        match ScanInt(rest')
        case None => (a, r)
        case Some((b, _)) => (a, b)
  }

  /** subseq(seq, l, r), or Undefined where the C would copy from outside the origin. */
  function Slice(origin: string, l: int, r: int): Result<string>
  {
    if SubseqDefined(origin, l, r) then Subseq(origin, l, r) else Err(Undefined)
  }

  /** reverse_complement of a computed piece; Undefined where a character of it is no base. */
  function Complemented(piece: Result<string>): Result<string>
  {
    match piece
    case Err(e) => Err(e)
    case Ok(s) => if IsDna(s) then Ok(ReverseComplement(s)) else Err(Undefined)
  }

  /**
   * One token of the space branch (get_seq.c:309-323), and the whole token
   * string when it holds neither ' ' nor ',' (get_seq.c:274-287): with a
   * '-' anywhere, the first character is dropped and the slice is
   * reverse-complemented.  l_loc and r_loc start at 0 for each token.
   */
  function Piece(origin: string, tok: string): Result<string>
  {
    if '-' in tok then
      var lr := ScanRange(tok[1..], 0, 0);
      Complemented(Slice(origin, lr.0, lr.1))
    else
      var lr := ScanRange(tok, 0, 0);
      Slice(origin, lr.0, lr.1)
  }

  /** The space branch's strtok/strcat loop (get_seq.c:305-325): pieces concatenated left to right. */
  function Pieces(origin: string, toks: seq<string>): Result<string>
  {
    if toks == [] then Ok("")
    else
      match Piece(origin, toks[0])
      case Err(e) => Err(e)
      case Ok(s) => PrefixWith(s, Pieces(origin, toks[1..]))
  }

  /**
   * The comma branch's strtok/strcat loop (get_seq.c:293-301): slices
   * concatenated left to right.  l_loc and r_loc are declared outside the
   * loop, so a token whose scan fails reuses the previous token's values.
   */
  function CommaSlices(origin: string, toks: seq<string>, l: int, r: int): Result<string>
  {
    if toks == [] then Ok("")
    else
      var lr := ScanRange(toks[0], l, r);
      match Slice(origin, lr.0, lr.1)
      case Err(e) => Err(e)
      case Ok(s) => PrefixWith(s, CommaSlices(origin, toks[1..], lr.0, lr.1))
  }

  /**
   * The dispatch on the token string (get_seq.c:272-326).  The comma branch
   * is reached by a token string that keeps its commas, which happens while
   * a complement is open: `complement(join(...))`, but also `complement(...)`
   * around several comma-separated ranges.  It drops the leading 'c',
   * concatenates the slices and reverse-complements the concatenation once.
   */
  function Dispatch(origin: string, tk: string): Result<string>
  {
    if ' ' !in tk then
      if ',' !in tk then Piece(origin, tk)
      else Complemented(CommaSlices(origin, Split(tk[1..], ','), 0, 0))
    else
      Pieces(origin, Split(tk, ' '))
  }

  /** What extract_sequence(origin, loc) returns, or why the program stops. */
  function Extract(origin: string, loc: string): Result<string>
  {
    match Tokens(loc, 0, false, false)
    case Err(e) => Err(e)
    case Ok(tk) => Dispatch(origin, tk)
  }

  /** Pieces from the k-th token on: the k-th piece, then the rest. */
  lemma PiecesAt(origin: string, toks: seq<string>, k: nat)
    requires k < |toks|
    ensures Piece(origin, toks[k]).Err? ==> Pieces(origin, toks[k..]) == Err(Piece(origin, toks[k]).error)
    ensures Piece(origin, toks[k]).Ok? ==>
      Pieces(origin, toks[k..]) == PrefixWith(Piece(origin, toks[k]).value, Pieces(origin, toks[k + 1..]))
  {
    assert toks[k..][0] == toks[k];
    assert toks[k..][1..] == toks[k + 1..];
  }

  /** CommaSlices from the k-th token on: the k-th slice, then the rest with the bounds it scanned. */
  lemma CommaSlicesAt(origin: string, toks: seq<string>, k: nat, l: int, r: int)
    requires k < |toks|
    ensures var lr := ScanRange(toks[k], l, r);
      && (Slice(origin, lr.0, lr.1).Err? ==> CommaSlices(origin, toks[k..], l, r) == Err(Slice(origin, lr.0, lr.1).error))
      && (Slice(origin, lr.0, lr.1).Ok? ==>
            CommaSlices(origin, toks[k..], l, r) == PrefixWith(Slice(origin, lr.0, lr.1).value, CommaSlices(origin, toks[k + 1..], lr.0, lr.1)))
  {
    assert toks[k..][0] == toks[k];
    assert toks[k..][1..] == toks[k + 1..];
  }

  /** subseq followed, for a complemented token, by reverse_complement. */
  method EvaluatePiece(origin: string, tok: string) returns (r: Result<string>)
    ensures r == Piece(origin, tok)
  {
    var l, rr := 0, 0;
    var complemented := '-' in tok;
    var lr := if complemented then ScanRange(tok[1..], l, rr) else ScanRange(tok, l, rr);
    l, rr := lr.0, lr.1;
    if !SubseqDefined(origin, l, rr) {
      return Err(Undefined);
    }
    var slice := Subseq(origin, l, rr);
    if slice.Err? || !complemented {
      return slice;
    }
    if !IsDna(slice.value) {
      return Err(Undefined);
    }
    var rc := ReverseComplementBuffer(slice.value);
    r := Ok(rc);
  }

  /** The character loop of extract_sequence (get_seq.c:214-267). */
  method Tokenize(loc: string) returns (r: Result<string>)
    ensures r == Tokens(loc, 0, false, false)
  {
    var loclen := |loc|;
    var cj, com := false, false;
    var tk := "";
    var i := 0;
    PrefixWithNothing(Tokens(loc, 0, false, false));
    while i < loclen
      invariant Tokens(loc, 0, false, false) == PrefixWith(tk, Tokens(loc, i, cj, com))
      decreases loclen - i
    {
      var c := loc[i];
      if c == '>' || c == '<' {
        PrefixWithNothing(Tokens(loc, i + 1, cj, com));
        i := i + 1;
      } else if !com && !cj && c != 'j' && c != 'c' {
        if c == ',' {
          PrefixWithTwice(tk, " ", Tokens(loc, i + 1, cj, com));
          tk := tk + " ";
        } else if c != ')' {
          PrefixWithTwice(tk, [c], Tokens(loc, i + 1, cj, com));
          tk := tk + [c];
        } else {
          PrefixWithNothing(Tokens(loc, i + 1, cj, com));
        }
        i := i + 1;
      } else if c == 'c' && i + 11 > loclen {
        return Err(Undefined);
      } else if c == 'c' && CharAt(loc, i + 11) == 'j' {
        PrefixWithTwice(tk, "c", Tokens(loc, i + 16, true, com));
        cj := true;
        tk := tk + "c";
        i := i + 16;
      } else if cj {
        if c == ')' {
          if i < loclen - 2 {
            PrefixWithTwice(tk, " ", Tokens(loc, i + 1, false, com));
            tk := tk + " ";
            cj := false;
          } else {
            assert tk + "" == tk;
            return Ok(tk);
          }
        } else {
          PrefixWithTwice(tk, [c], Tokens(loc, i + 1, cj, com));
          tk := tk + [c];
        }
        i := i + 1;
      } else if c == 'j' {
        PrefixWithNothing(Tokens(loc, i + 5, cj, com));
        i := i + 5;
      } else if c == 'c' {
        PrefixWithTwice(tk, "-", Tokens(loc, i + 11, cj, true));
        com := true;
        tk := tk + "-";
        i := i + 11;
      } else {
        if c == ')' {
          if i < loclen - 2 {
            PrefixWithTwice(tk, " ", Tokens(loc, i + 1, cj, false));
            tk := tk + " ";
            com := false;
          } else {
            assert tk + "" == tk;
            return Ok(tk);
          }
        } else {
          PrefixWithTwice(tk, [c], Tokens(loc, i + 1, cj, com));
          tk := tk + [c];
        }
        i := i + 1;
      }
    }
    assert tk + "" == tk;
    r := Ok(tk);
  }

  /** The comma branch (get_seq.c:288-302): strtok over the text after the leading 'c', then one reverse_complement. */
  method ComplementJoin(origin: string, tk: string) returns (r: Result<string>)
    requires tk != []
    ensures r == Complemented(CommaSlices(origin, Split(tk[1..], ','), 0, 0))
  {
    var toks := Split(tk[1..], ',');
    var cm := "";
    var l, rr := 0, 0;
    var k := 0;
    PrefixWithNothing(CommaSlices(origin, toks, 0, 0));
    while k < |toks|
      invariant 0 <= k <= |toks|
      invariant CommaSlices(origin, toks, 0, 0) == PrefixWith(cm, CommaSlices(origin, toks[k..], l, rr))
    {
      CommaSlicesAt(origin, toks, k, l, rr);
      var lr := ScanRange(toks[k], l, rr);
      l, rr := lr.0, lr.1;
      if !SubseqDefined(origin, l, rr) {
        return Err(Undefined);
      }
      var slice := Subseq(origin, l, rr);
      if slice.Err? {
        return Err(slice.error);
      }
      PrefixWithTwice(cm, slice.value, CommaSlices(origin, toks[k + 1..], l, rr));
      cm := cm + slice.value;
      k := k + 1;
    }
    assert cm + "" == cm;
    if !IsDna(cm) {
      return Err(Undefined);
    }
    var rc := ReverseComplementBuffer(cm);
    r := Ok(rc);
  }

  /** The space branch (get_seq.c:304-326): strtok on ' ', each piece appended in turn. */
  method JoinPieces(origin: string, tk: string) returns (r: Result<string>)
    ensures r == Pieces(origin, Split(tk, ' '))
  {
    var toks := Split(tk, ' ');
    var acc := "";
    var k := 0;
    PrefixWithNothing(Pieces(origin, toks));
    while k < |toks|
      invariant 0 <= k <= |toks|
      invariant Pieces(origin, toks) == PrefixWith(acc, Pieces(origin, toks[k..]))
    {
      PiecesAt(origin, toks, k);
      var piece := EvaluatePiece(origin, toks[k]);
      if piece.Err? {
        return piece;
      }
      PrefixWithTwice(acc, piece.value, Pieces(origin, toks[k + 1..]));
      acc := acc + piece.value;
      k := k + 1;
    }
    assert acc + "" == acc;
    r := Ok(acc);
  }

  /** extract_sequence (get_seq.c:204-328): the character loop, then the dispatch. */
  method ExtractSequence(origin: string, loc: string) returns (r: Result<string>)
    ensures r == Extract(origin, loc)
  {
    var tokens := Tokenize(loc);
    if tokens.Err? {
      return Err(tokens.error);
    }
    var tk := tokens.value;
    if ' ' !in tk {
      if ',' !in tk {
        r := EvaluatePiece(origin, tk);
      } else {
        r := ComplementJoin(origin, tk);
      }
    } else {
      r := JoinPieces(origin, tk);
    }
  }
}
