/**
 * The GenBank location forms extract_sequence recognises, what each of them
 * means, and the theorem that the evaluator of get_seq.c:204-328 computes
 * that meaning from the written text.
 *
 *   Span           <10..>20             bases 10 to 20 of the origin
 *   Complement     complement(10..20)   their reverse complement
 *   Join           join(1..5,complement(8..9),12..14)
 *                                       the members' bases, left to right
 *   ComplementJoin complement(join(1..5,8..9))
 *                                       the reverse complement of the
 *                                       concatenation of the ranges
 */
module LocationForms {
  import opened Outcome
  import opened Text
  import Sequence
  import Location

  /** A range lo..hi of 1-based inclusive positions; either end may carry a partial marker ('<' or '>'). */
  datatype Range = Range(lo: nat, hi: nat, loPartial: bool, hiPartial: bool)

  /** A member of a join: a range read forwards, or complement(range). */
  datatype Member = Forward(range: Range) | Reverse(range: Range)

  datatype Form =
    | Span(range: Range)
    | Complement(range: Range)
    | Join(members: seq<Member>)
    | ComplementJoin(ranges: seq<Range>)

  predicate ValidRange(r: Range)
  {
    1 <= r.lo <= r.hi
  }

  /** Ranges that start at 1 and do not run backwards; joins that are not empty. */
  predicate WellFormed(f: Form)
  {
    match f
    case Span(r) => ValidRange(r)
    case Complement(r) => ValidRange(r)
    case Join(ms) => ms != [] && forall k :: 0 <= k < |ms| ==> ValidRange(ms[k].range)
    case ComplementJoin(rs) => rs != [] && forall k :: 0 <= k < |rs| ==> ValidRange(rs[k])
  }

  // ---------------------------------------------------------------------
  // The written text

  function RangeText(r: Range): string
  {
    (if r.loPartial then "<" else "") + NatToString(r.lo) + ".." + (if r.hiPartial then ">" else "") + NatToString(r.hi)
  }

  function MemberText(m: Member): string
  {
    match m
    case Forward(r) => RangeText(r)
    case Reverse(r) => "complement(" + RangeText(r) + ")"
  }

  function MembersText(ms: seq<Member>): string
  {
    if ms == [] then ""
    else if |ms| == 1 then MemberText(ms[0])
    else MemberText(ms[0]) + "," + MembersText(ms[1..])
  }

  function RangesText(rs: seq<Range>): string
  {
    if rs == [] then ""
    else if |rs| == 1 then RangeText(rs[0])
    else RangeText(rs[0]) + "," + RangesText(rs[1..])
  }

  /** The location as it stands after a feature key in a GenBank file. */
  function Render(f: Form): string
  {
    match f
    case Span(r) => RangeText(r)
    case Complement(r) => "complement(" + RangeText(r) + ")"
    case Join(ms) => "join(" + MembersText(ms) + ")"
    case ComplementJoin(rs) => "complement(join(" + RangesText(rs) + "))"
  }

  // ---------------------------------------------------------------------
  // The meaning

  /** Bases lo..hi of the origin; a range past its end is an invalid location. */
  function Bases(origin: string, r: Range): Result<string>
    requires ValidRange(r)
  {
    if r.hi <= |origin| then Ok(origin[r.lo - 1..r.hi]) else Err(InvalidLocation(r.lo - 1, r.hi - 1))
  }

  /** `a` followed by `b`; the first failure wins. */
  function Then(a: Result<string>, b: Result<string>): Result<string>
  {
    match a
    case Err(e) => Err(e)
    case Ok(s) => PrefixWith(s, b)
  }

  function MemberMeaning(origin: string, m: Member): Result<string>
    requires ValidRange(m.range)
  {
    match m
    case Forward(r) => Bases(origin, r)
    case Reverse(r) => Location.Complemented(Bases(origin, r))
  }

  function MembersMeaning(origin: string, ms: seq<Member>): Result<string>
    requires forall k :: 0 <= k < |ms| ==> ValidRange(ms[k].range)
  {
    if ms == [] then Ok("") else Then(MemberMeaning(origin, ms[0]), MembersMeaning(origin, ms[1..]))
  }

  function RangesMeaning(origin: string, rs: seq<Range>): Result<string>
    requires forall k :: 0 <= k < |rs| ==> ValidRange(rs[k])
  {
    if rs == [] then Ok("") else Then(Bases(origin, rs[0]), RangesMeaning(origin, rs[1..]))
  }

  /** The sequence a location denotes; partial markers do not change it. */
  function Meaning(origin: string, f: Form): Result<string>
    requires WellFormed(f)
  {
    match f
    case Span(r) => Bases(origin, r)
    case Complement(r) => Location.Complemented(Bases(origin, r))
    case Join(ms) => MembersMeaning(origin, ms)
    case ComplementJoin(rs) => Location.Complemented(RangesMeaning(origin, rs))
  }

  // ---------------------------------------------------------------------
  // The token string the character loop writes

  /** A range with its markers dropped. */
  function Bare(r: Range): string
  {
    NatToString(r.lo) + ".." + NatToString(r.hi)
  }

  function MemberToken(m: Member): string
  {
    match m
    case Forward(r) => Bare(r)
    case Reverse(r) => "-" + Bare(r)
  }

  /** A complement member closes with ')' before the ',', so it is followed by two spaces. */
  function Separator(m: Member): string
  {
    if m.Forward? then " " else "  "
  }

  function JoinTokens(ms: seq<Member>): string
  {
    if ms == [] then ""
    else if |ms| == 1 then MemberToken(ms[0])
    else MemberToken(ms[0]) + Separator(ms[0]) + JoinTokens(ms[1..])
  }

  function MemberTokens(ms: seq<Member>): seq<string>
  {
    if ms == [] then [] else [MemberToken(ms[0])] + MemberTokens(ms[1..])
  }

  function CommaTokens(rs: seq<Range>): string
  {
    if rs == [] then ""
    else if |rs| == 1 then Bare(rs[0])
    else Bare(rs[0]) + "," + CommaTokens(rs[1..])
  }

  function Bares(rs: seq<Range>): seq<string>
  {
    if rs == [] then [] else [Bare(rs[0])] + Bares(rs[1..])
  }

  /** Characters the character loop copies (digits, '.') or drops (partial markers) in every state. */
  predicate Inert(c: char)
  {
    IsDigit(c) || c == '.' || c == '<' || c == '>'
  }

  predicate AllInert(s: string)
  {
    forall k :: 0 <= k < |s| ==> Inert(s[k])
  }

  /** `s` without its partial markers. */
  function Strip(s: string): string
  {
    if s == [] then []
    else (if s[0] == '<' || s[0] == '>' then [] else [s[0]]) + Strip(s[1..])
  }

  // ---------------------------------------------------------------------
  // The character loop on the pieces of a rendered location

  /** A move seen from `d` characters further on. */
  function Shifted(m: Location.Move, d: nat): Location.Move
  {
    if m.Emit? && m.next >= d then m.(next := m.next - d) else m
  }

  /** A turn of the character loop only looks at the distance to the end of the text. */
  lemma TurnDrop(loc: string, d: nat, i: nat, cj: bool, com: bool)
    requires d + i < |loc|
    ensures Location.Turn(loc[d..], i, cj, com) == Shifted(Location.Turn(loc, d + i, cj, com), d)
  {
    var rest := loc[d..];
    assert rest[i] == loc[d + i];
    if i + 11 <= |rest| {
      assert Location.CharAt(rest, i + 11) == Location.CharAt(loc, d + i + 11);
    }
  }

  /** So the loop from a position on depends only on the text from there on. */
  lemma {:induction false} TokensDrop(loc: string, d: nat, i: nat, cj: bool, com: bool)
    requires d <= |loc|
    ensures Location.Tokens(loc, d + i, cj, com) == Location.Tokens(loc[d..], i, cj, com)
    decreases |loc| - d - i
  {
    if d + i < |loc| {
      var m := Location.Turn(loc, d + i, cj, com);
      TurnDrop(loc, d, i, cj, com);
      if m.Emit? {
        TokensDrop(loc, d, m.next - d, m.cj, m.com);
        TokensEmit(loc, d, i, cj, com);
      }
    }
  }

  /** One emitting turn, taken at the same place of `loc` and of `loc[d..]`. */
  lemma TokensEmit(loc: string, d: nat, i: nat, cj: bool, com: bool)
    requires d + i < |loc|
    requires var m := Location.Turn(loc, d + i, cj, com);
      && m.Emit?
      && Location.Turn(loc[d..], i, cj, com) == Shifted(m, d)
      && Location.Tokens(loc, m.next, m.cj, m.com) == Location.Tokens(loc[d..], m.next - d, m.cj, m.com)
    ensures Location.Tokens(loc, d + i, cj, com) == Location.Tokens(loc[d..], i, cj, com)
  {
  }

  /** The loop copies digits and '.' and drops markers whatever its state. */
  lemma {:induction false} InertPrefix(t: string, rest: string, cj: bool, com: bool)
    requires AllInert(t)
    ensures Location.Tokens(t + rest, 0, cj, com) == PrefixWith(Strip(t), Location.Tokens(rest, 0, cj, com))
    decreases |t|
  {
    if t == [] {
      assert t + rest == rest;
      PrefixWithNothing(Location.Tokens(rest, 0, cj, com));
    } else {
      var s := t + rest;
      assert s[0] == t[0];
      assert s[1..] == t[1..] + rest;
      TokensDrop(s, 1, 0, cj, com);
      InertPrefix(t[1..], rest, cj, com);
      if t[0] != '<' && t[0] != '>' {
        assert Strip(t) == [t[0]] + Strip(t[1..]);
        PrefixWithTwice([t[0]], Strip(t[1..]), Location.Tokens(rest, 0, cj, com));
      } else {
        assert Strip(t) == Strip(t[1..]);
        PrefixWithNothing(Location.Tokens(s, 1, cj, com));
      }
    }
  }

  lemma {:induction false} StripConcat(a: string, b: string)
    ensures Strip(a + b) == Strip(a) + Strip(b)
    decreases |a|
  {
    if a == [] {
      assert a + b == b;
    } else {
      assert (a + b)[0] == a[0];
      assert (a + b)[1..] == a[1..] + b;
      StripConcat(a[1..], b);
    }
  }

  lemma {:induction false} StripDigits(s: string)
    requires forall k :: 0 <= k < |s| ==> IsDigit(s[k])
    ensures Strip(s) == s
    decreases |s|
  {
    if s != [] {
      StripDigits(s[1..]);
    }
  }

  lemma AllInertConcat(a: string, b: string)
    requires AllInert(a) && AllInert(b)
    ensures AllInert(a + b)
  {
    forall k | 0 <= k < |a + b|
      ensures Inert((a + b)[k])
    {
      if k < |a| {
        assert (a + b)[k] == a[k];
      } else {
        assert (a + b)[k] == b[k - |a|];
      }
    }
  }

  /** An optional marker, then a number. */
  lemma MarkedNumber(m: string, n: nat)
    requires m == "" || m == "<" || m == ">"
    ensures AllInert(m + NatToString(n))
    ensures Strip(m + NatToString(n)) == NatToString(n)
  {
    var d := NatToString(n);
    assert AllInert(d);
    AllInertConcat(m, d);
    StripConcat(m, d);
    StripDigits(d);
    assert Strip(m) == "";
  }

  lemma RangeTextParts(r: Range)
    ensures AllInert(RangeText(r))
    ensures Strip(RangeText(r)) == Bare(r)
  {
    var m1: string := if r.loPartial then "<" else "";
    var m2: string := if r.hiPartial then ">" else "";
    var left, right := m1 + NatToString(r.lo), m2 + NatToString(r.hi);
    assert RangeText(r) == left + (".." + right);
    assert Bare(r) == NatToString(r.lo) + (".." + NatToString(r.hi));
    MarkedNumber(m1, r.lo);
    MarkedNumber(m2, r.hi);
    assert AllInert(left + (".." + right)) by {
      assert AllInert("..");
      AllInertConcat("..", right);
      AllInertConcat(left, ".." + right);
    }
    assert Strip(left + (".." + right)) == NatToString(r.lo) + (".." + NatToString(r.hi)) by {
      assert Strip("..") == "..";
      StripConcat("..", right);
      StripConcat(left, ".." + right);
    }
  }

  /** "join(" is skipped unread. */
  lemma JoinOpens(x: string)
    ensures Location.Tokens("join(" + x, 0, false, false) == Location.Tokens(x, 0, false, false)
  {
    var s := "join(" + x;
    assert s[0] == 'j' && s[5..] == x;
    TokensDrop(s, 5, 0, false, false);
    PrefixWithNothing(Location.Tokens(s, 5, false, false));
  }

  /** "complement(" before a range becomes '-' and sets com_flag. */
  lemma ComplementOpens(x: string)
    requires x != [] && x[0] != 'j'
    ensures Location.Tokens("complement(" + x, 0, false, false) == PrefixWith("-", Location.Tokens(x, 0, false, true))
  {
    var s := "complement(" + x;
    assert s[0] == 'c' && s[11] == x[0] && s[11..] == x;
    assert Location.Turn(s, 0, false, false) == Location.Emit("-", 11, false, true);
    TokensDrop(s, 11, 0, false, true);
  }

  /** "complement(join(" becomes 'c' and sets cj_flag. */
  lemma ComplementJoinOpens(x: string)
    ensures Location.Tokens("complement(join(" + x, 0, false, false) == PrefixWith("c", Location.Tokens(x, 0, true, false))
  {
    var s := "complement(join(" + x;
    assert s[0] == 'c' && s[11] == 'j' && s[16..] == x;
    TokensDrop(s, 16, 0, true, false);
  }

  /** Outside any complement, a ',' becomes a space. */
  lemma CommaOutside(x: string)
    ensures Location.Tokens("," + x, 0, false, false) == PrefixWith(" ", Location.Tokens(x, 0, false, false))
  {
    var s := "," + x;
    assert s[1..] == x;
    TokensDrop(s, 1, 0, false, false);
  }

  /** Inside complement(join(, a ',' is copied. */
  lemma CommaInComplementJoin(x: string)
    ensures Location.Tokens("," + x, 0, true, false) == PrefixWith(",", Location.Tokens(x, 0, true, false))
  {
    var s := "," + x;
    assert s[1..] == x;
    TokensDrop(s, 1, 0, true, false);
  }

  /** A complement member's ')' that is not among the last two characters becomes a space and clears com_flag. */
  lemma ComplementCloses(x: string)
    requires |x| >= 2
    ensures Location.Tokens(")" + x, 0, false, true) == PrefixWith(" ", Location.Tokens(x, 0, false, false))
  {
    var s := ")" + x;
    assert s[1..] == x;
    assert Location.Turn(s, 0, false, true) == Location.Emit(" ", 1, false, false);
    TokensDrop(s, 1, 0, false, false);
  }

  lemma MembersTextLength(ms: seq<Member>)
    requires ms != []
    ensures |MembersText(ms)| >= 4
  {
  }

  /** A range is copied without its markers, whatever the state of the loop. */
  lemma RangeRun(r: Range, tail: string, cj: bool, com: bool)
    ensures Location.Tokens(RangeText(r) + tail, 0, cj, com) == PrefixWith(Bare(r), Location.Tokens(tail, 0, cj, com))
  {
    RangeTextParts(r);
    InertPrefix(RangeText(r), tail, cj, com);
  }

  /** A complement member opens with '-' and sets com_flag: "complement(" followed by a range is never taken for "complement(join(". */
  lemma ReverseOpens(r: Range, tail: string)
    ensures Location.Tokens(MemberText(Reverse(r)) + tail, 0, false, false)
         == PrefixWith("-", Location.Tokens(RangeText(r) + (")" + tail), 0, false, true))
  {
    var t := RangeText(r);
    assert MemberText(Reverse(r)) + tail == "complement(" + (t + (")" + tail));
    assert t[0] == NatToString(r.lo)[0] || t[0] == '<';
    assert (t + (")" + tail))[0] == t[0];
    ComplementOpens(t + (")" + tail));
  }

  /** Inside a complement member that is not the last one: the bare range, then a space for its ')'. */
  lemma ReverseBody(r: Range, tail: string)
    requires |tail| >= 2
    ensures Location.Tokens(RangeText(r) + (")" + tail), 0, false, true)
         == PrefixWith(Bare(r) + " ", Location.Tokens(tail, 0, false, false))
  {
    RangeRun(r, ")" + tail, false, true);
    ComplementCloses(tail);
    PrefixWithTwice(Bare(r), " ", Location.Tokens(tail, 0, false, false));
  }

  /** A complement member that is not the last one becomes '-', the bare range and a space. */
  lemma ReverseRun(r: Range, tail: string)
    requires |tail| >= 2
    ensures Location.Tokens(MemberText(Reverse(r)) + tail, 0, false, false)
         == PrefixWith("-" + Bare(r) + " ", Location.Tokens(tail, 0, false, false))
  {
    ReverseOpens(r, tail);
    ReverseBody(r, tail);
    PrefixWithTwice("-", Bare(r) + " ", Location.Tokens(tail, 0, false, false));
    assert "-" + (Bare(r) + " ") == "-" + Bare(r) + " ";
  }

  /** The last member, a complement, stops the loop at its ')'. */
  lemma ReverseLast(r: Range)
    ensures Location.Tokens(MemberText(Reverse(r)) + ")", 0, false, false) == Ok("-" + Bare(r))
  {
    ReverseOpens(r, ")");
    assert ")" + ")" == "))";
    RangeRun(r, "))", false, true);
    assert Bare(r) + "" == Bare(r);
  }

  /** The last member of a join, followed by the join's ')'. */
  lemma JoinLast(m: Member)
    ensures Location.Tokens(MemberText(m) + ")", 0, false, false) == Ok(MemberToken(m))
  {
    if m.Forward? {
      RangeRun(m.range, ")", false, false);
      assert Bare(m.range) + "" == Bare(m.range);
    } else {
      ReverseLast(m.range);
    }
  }

  /** A member followed by ',' becomes its token and its separator. */
  lemma MemberThenComma(m: Member, y: string)
    requires y != []
    ensures Location.Tokens(MemberText(m) + ("," + y), 0, false, false)
         == PrefixWith(MemberToken(m) + Separator(m), Location.Tokens(y, 0, false, false))
  {
    var rest := Location.Tokens(y, 0, false, false);
    CommaOutside(y);
    if m.Forward? {
      RangeRun(m.range, "," + y, false, false);
      PrefixWithTwice(Bare(m.range), " ", rest);
    } else {
      ReverseRun(m.range, "," + y);
      PrefixWithTwice("-" + Bare(m.range) + " ", " ", rest);
      assert "-" + Bare(m.range) + " " + " " == MemberToken(m) + Separator(m);
    }
  }

  /** A member followed by ',' and the rest of the join. */
  lemma JoinNext(ms: seq<Member>)
    requires |ms| > 1
    requires Location.Tokens(MembersText(ms[1..]) + ")", 0, false, false) == Ok(JoinTokens(ms[1..]))
    ensures Location.Tokens(MembersText(ms) + ")", 0, false, false) == Ok(JoinTokens(ms))
  {
    var a, b := MemberText(ms[0]), MembersText(ms[1..]);
    assert MembersText(ms) == a + "," + b;
    ConcatAssoc(a + ",", b, ")");
    ConcatAssoc(a, ",", b + ")");
    MemberThenComma(ms[0], b + ")");
  }

  /** The loop on the members of a join, followed by the join's ')'. */
  lemma {:induction false} JoinRun(ms: seq<Member>)
    requires ms != []
    ensures Location.Tokens(MembersText(ms) + ")", 0, false, false) == Ok(JoinTokens(ms))
    decreases |ms|
  {
    if |ms| == 1 {
      JoinLast(ms[0]);
    } else {
      JoinRun(ms[1..]);
      JoinNext(ms);
    }
  }

  /** The loop on the ranges of complement(join(, followed by the two closing parentheses. */
  lemma {:induction false} ComplementJoinRun(rs: seq<Range>)
    requires rs != []
    ensures Location.Tokens(RangesText(rs) + "))", 0, true, false) == Ok(CommaTokens(rs))
    decreases |rs|
  {
    var b := Bare(rs[0]);
    if |rs| == 1 {
      RangeRun(rs[0], "))", true, false);
      assert b + "" == b;
    } else {
      var y := RangesText(rs[1..]) + "))";
      var rest := CommaTokens(rs[1..]);
      assert Location.Tokens("," + y, 0, true, false) == Ok("," + rest) by {
        CommaInComplementJoin(y);
        ComplementJoinRun(rs[1..]);
      }
      var a, c := RangeText(rs[0]), RangesText(rs[1..]);
      assert RangesText(rs) == a + "," + c;
      ConcatAssoc(a + ",", c, "))");
      ConcatAssoc(a, ",", y);
      RangeRun(rs[0], "," + y, true, false);
      assert b + ("," + rest) == CommaTokens(rs);
    }
  }

  // ---------------------------------------------------------------------
  // The dispatch on the token string

  lemma BareParts(r: Range)
    ensures Bare(r) != [] && IsDigit(Bare(r)[0])
    ensures ' ' !in Bare(r) && ',' !in Bare(r) && '-' !in Bare(r)
  {
    var d1, d2 := NatToString(r.lo), NatToString(r.hi);
    assert Bare(r)[0] == d1[0];
    forall k | 0 <= k < |Bare(r)|
      ensures Bare(r)[k] != ' ' && Bare(r)[k] != ',' && Bare(r)[k] != '-'
    {
      if k < |d1| {
        assert Bare(r)[k] == d1[k];
      } else if k >= |d1| + 2 {
        assert Bare(r)[k] == d2[k - |d1| - 2];
      }
    }
  }

  /** sscanf "%d..%d" reads back both ends of a bare range, whatever l_loc and r_loc held. */
  lemma ScanBare(r: Range, l: int, h: int)
    ensures Location.ScanRange(Bare(r), l, h) == (r.lo as int, r.hi as int)
  {
    var d2 := NatToString(r.hi);
    assert Bare(r) == NatToString(r.lo) + (".." + d2);
    ScanIntOfNat(r.lo, ".." + d2);
    assert ScanLiteral(".." + d2, "..") == Some(d2);
    assert d2 + [] == d2;
    ScanIntOfNat(r.hi, []);
  }

  lemma SliceOfRange(origin: string, r: Range)
    requires ValidRange(r)
    ensures Location.Slice(origin, r.lo, r.hi) == Bases(origin, r)
  {
  }

  lemma PieceOfMember(origin: string, m: Member)
    requires ValidRange(m.range)
    ensures Location.Piece(origin, MemberToken(m)) == MemberMeaning(origin, m)
  {
    BareParts(m.range);
    ScanBare(m.range, 0, 0);
    SliceOfRange(origin, m.range);
    if m.Reverse? {
      assert ("-" + Bare(m.range))[1..] == Bare(m.range);
    }
  }

  lemma MemberTokenParts(m: Member)
    ensures MemberToken(m) != [] && ' ' !in MemberToken(m) && ',' !in MemberToken(m)
  {
    BareParts(m.range);
    if m.Reverse? {
      assert MemberToken(m) == "-" + Bare(m.range);
    }
  }

  /** strtok on ' ' returns a member's token first. */
  lemma SplitAtMember(m: Member, sep: string, rest: string)
    requires sep != [] && forall k :: 0 <= k < |sep| ==> sep[k] == ' '
    ensures Split(MemberToken(m) + (sep + rest), ' ') == [MemberToken(m)] + Split(rest, ' ')
  {
    MemberTokenParts(m);
    SplitTokenThenDelimiters(MemberToken(m), sep, ' ', rest);
  }

  lemma SplitMember(m: Member)
    ensures Split(MemberToken(m), ' ') == [MemberToken(m)]
  {
    MemberTokenParts(m);
    SplitSingleToken(MemberToken(m), ' ');
  }

  lemma {:induction false} SplitJoinTokens(ms: seq<Member>)
    requires ms != []
    ensures Split(JoinTokens(ms), ' ') == MemberTokens(ms)
    decreases |ms|
  {
    if |ms| == 1 {
      assert JoinTokens(ms) == MemberToken(ms[0]);
      assert MemberTokens(ms) == [MemberToken(ms[0])] by { assert MemberTokens(ms[1..]) == []; }
      SplitMember(ms[0]);
    } else {
      var sep := Separator(ms[0]);
      var rest := JoinTokens(ms[1..]);
      assert JoinTokens(ms) == MemberToken(ms[0]) + (sep + rest);
      SplitAtMember(ms[0], sep, rest);
      SplitJoinTokens(ms[1..]);
    }
  }

  lemma JoinTokensCons(ms: seq<Member>)
    requires |ms| > 1
    ensures JoinTokens(ms) == MemberToken(ms[0]) + (Separator(ms[0]) + JoinTokens(ms[1..]))
    ensures Separator(ms[0]) != [] && Separator(ms[0])[0] == ' ' && ',' !in Separator(ms[0])
  {
  }

  /** Tokens without commas, joined by blanks: no comma, and a blank. */
  lemma SeparatedChars(w: string, sep: string, t: string)
    requires ',' !in w && ',' !in t
    requires sep != [] && sep[0] == ' ' && ',' !in sep
    ensures ',' !in w + (sep + t) && ' ' in w + (sep + t)
  {
    assert (w + (sep + t))[|w|] == ' ';
  }

  lemma {:induction false} JoinTokensChars(ms: seq<Member>)
    requires ms != []
    ensures ',' !in JoinTokens(ms)
    ensures ' ' in JoinTokens(ms) <==> |ms| > 1
    decreases |ms|
  {
    MemberTokenParts(ms[0]);
    if |ms| > 1 {
      JoinTokensChars(ms[1..]);
      JoinTokensCons(ms);
      SeparatedChars(MemberToken(ms[0]), Separator(ms[0]), JoinTokens(ms[1..]));
    } else {
      assert JoinTokens(ms) == MemberToken(ms[0]);
    }
  }

  lemma {:induction false} PiecesOfMembers(origin: string, ms: seq<Member>)
    requires forall k :: 0 <= k < |ms| ==> ValidRange(ms[k].range)
    ensures Location.Pieces(origin, MemberTokens(ms)) == MembersMeaning(origin, ms)
    decreases |ms|
  {
    if ms != [] {
      PieceOfMember(origin, ms[0]);
      PiecesOfMembers(origin, ms[1..]);
      assert MemberTokens(ms)[0] == MemberToken(ms[0]);
      assert MemberTokens(ms)[1..] == MemberTokens(ms[1..]);
    }
  }

  /** strtok on ',' returns a bare range first. */
  lemma SplitAtBare(r: Range, rest: string)
    ensures Split(Bare(r) + ("," + rest), ',') == [Bare(r)] + Split(rest, ',')
  {
    BareParts(r);
    SplitTokenThenDelimiters(Bare(r), ",", ',', rest);
  }

  lemma SplitBare(r: Range)
    ensures Split(Bare(r), ',') == [Bare(r)]
  {
    BareParts(r);
    SplitSingleToken(Bare(r), ',');
  }

  lemma {:induction false} SplitCommaTokens(rs: seq<Range>)
    requires rs != []
    ensures Split(CommaTokens(rs), ',') == Bares(rs)
    decreases |rs|
  {
    if |rs| == 1 {
      assert CommaTokens(rs) == Bare(rs[0]);
      assert Bares(rs) == [Bare(rs[0])] by { assert Bares(rs[1..]) == []; }
      SplitBare(rs[0]);
    } else {
      var rest := CommaTokens(rs[1..]);
      assert CommaTokens(rs) == Bare(rs[0]) + ("," + rest);
      SplitAtBare(rs[0], rest);
      SplitCommaTokens(rs[1..]);
    }
  }

  lemma {:induction false} CommaTokensChars(rs: seq<Range>)
    requires rs != []
    ensures ' ' !in CommaTokens(rs)
    ensures ',' in CommaTokens(rs) <==> |rs| > 1
    ensures CommaTokens(rs)[0] != '-'
    decreases |rs|
  {
    BareParts(rs[0]);
    if |rs| > 1 {
      CommaTokensChars(rs[1..]);
      var w := Bare(rs[0]);
      assert CommaTokens(rs) == w + ("," + CommaTokens(rs[1..]));
      assert CommaTokens(rs)[|w|] == ',';
    }
  }

  /** The ranges are read back exactly, so the values carried between tokens never matter. */
  lemma {:induction false} CommaSlicesOfRanges(origin: string, rs: seq<Range>, l: int, h: int)
    requires forall k :: 0 <= k < |rs| ==> ValidRange(rs[k])
    ensures Location.CommaSlices(origin, Bares(rs), l, h) == RangesMeaning(origin, rs)
    decreases |rs|
  {
    if rs != [] {
      ScanBare(rs[0], l, h);
      SliceOfRange(origin, rs[0]);
      assert Bares(rs)[0] == Bare(rs[0]);
      assert Bares(rs)[1..] == Bares(rs[1..]);
      CommaSlicesOfRanges(origin, rs[1..], rs[0].lo, rs[0].hi);
    }
  }

  // ---------------------------------------------------------------------
  // The theorem

  /** The token string the character loop writes for each form. */
  function FormTokens(f: Form): string
  {
    match f
    case Span(r) => Bare(r)
    case Complement(r) => "-" + Bare(r)
    case Join(ms) => JoinTokens(ms)
    case ComplementJoin(rs) => "c" + CommaTokens(rs)
  }

  lemma TokensOfSpan(r: Range)
    ensures Location.Tokens(Render(Span(r)), 0, false, false) == Ok(Bare(r))
  {
    RangeRun(r, "", false, false);
    assert RangeText(r) + "" == RangeText(r);
    assert Bare(r) + "" == Bare(r);
  }

  lemma TokensOfComplement(r: Range)
    ensures Location.Tokens(Render(Complement(r)), 0, false, false) == Ok("-" + Bare(r))
  {
    ReverseOpens(r, "");
    assert MemberText(Reverse(r)) + "" == Render(Complement(r));
    assert ")" + "" == ")";
    RangeRun(r, ")", false, true);
    assert Bare(r) + "" == Bare(r);
  }

  lemma TokensOfJoin(ms: seq<Member>)
    requires ms != []
    ensures Location.Tokens(Render(Join(ms)), 0, false, false) == Ok(JoinTokens(ms))
  {
    ConcatAssoc("join(", MembersText(ms), ")");
    JoinOpens(MembersText(ms) + ")");
    JoinRun(ms);
  }

  lemma TokensOfComplementJoin(rs: seq<Range>)
    requires rs != []
    ensures Location.Tokens(Render(ComplementJoin(rs)), 0, false, false) == Ok("c" + CommaTokens(rs))
  {
    ConcatAssoc("complement(join(", RangesText(rs), "))");
    ComplementJoinOpens(RangesText(rs) + "))");
    ComplementJoinRun(rs);
  }

  /** The character loop turns a rendered location into its token string. */
  lemma TokensOfForm(f: Form)
    requires WellFormed(f)
    ensures Location.Tokens(Render(f), 0, false, false) == Ok(FormTokens(f))
  {
    match f
    case Span(r) => TokensOfSpan(r);
    case Complement(r) => TokensOfComplement(r);
    case Join(ms) => TokensOfJoin(ms);
    case ComplementJoin(rs) => TokensOfComplementJoin(rs);
  }

  lemma DispatchJoin(origin: string, ms: seq<Member>)
    requires ms != [] && forall k :: 0 <= k < |ms| ==> ValidRange(ms[k].range)
    ensures Location.Dispatch(origin, JoinTokens(ms)) == MembersMeaning(origin, ms)
  {
    JoinTokensChars(ms);
    if |ms| == 1 {
      assert JoinTokens(ms) == MemberToken(ms[0]);
      PieceOfMember(origin, ms[0]);
      assert MembersMeaning(origin, ms[1..]) == Ok("");
      var first := MemberMeaning(origin, ms[0]);
      if first.Ok? {
        assert first.value + "" == first.value;
      }
    } else {
      SplitJoinTokens(ms);
      PiecesOfMembers(origin, ms);
    }
  }

  lemma DispatchComplementJoin(origin: string, rs: seq<Range>)
    requires |rs| > 1 && forall k :: 0 <= k < |rs| ==> ValidRange(rs[k])
    ensures Location.Dispatch(origin, "c" + CommaTokens(rs)) == Location.Complemented(RangesMeaning(origin, rs))
  {
    CommaTokensChars(rs);
    var tk := "c" + CommaTokens(rs);
    assert tk[1..] == CommaTokens(rs);
    assert ' ' !in tk;
    assert ',' in tk;
    SplitCommaTokens(rs);
    CommaSlicesOfRanges(origin, rs, 0, 0);
  }

  /** The dispatch turns a form's token string into the form's meaning. */
  lemma DispatchOfForm(origin: string, f: Form)
    requires WellFormed(f)
    requires f.ComplementJoin? ==> |f.ranges| > 1
    ensures Location.Dispatch(origin, FormTokens(f)) == Meaning(origin, f)
  {
    match f
    case Span(r) =>
      BareParts(r);
      PieceOfMember(origin, Forward(r));
    case Complement(r) =>
      MemberTokenParts(Reverse(r));
      PieceOfMember(origin, Reverse(r));
    case Join(ms) => DispatchJoin(origin, ms);
    case ComplementJoin(rs) => DispatchComplementJoin(origin, rs);
  }

  /**
   * extract_sequence computes the meaning of every well-formed location it
   * recognises, except complement(join(...)) with a single range (see
   * SingleComplementJoin).
   */
  lemma ExtractComputesMeaning(origin: string, f: Form)
    requires WellFormed(f)
    requires f.ComplementJoin? ==> |f.ranges| > 1
    ensures Location.Extract(origin, Render(f)) == Meaning(origin, f)
  {
    TokensOfForm(f);
    DispatchOfForm(origin, f);
  }

  // ---------------------------------------------------------------------
  // Consequences

  /**
   * complement(join(...)) with a single range: without a ',' the token
   * string "c<lo>..<hi>" goes down the plain-range path, where "%d" fails
   * on the 'c', so subseq is called with 0 and 0 and takes its "Invalid
   * location" exit.
   */
  lemma SingleComplementJoin(origin: string, r: Range)
    ensures Location.Extract(origin, Render(ComplementJoin([r]))) == Err(InvalidLocation(-1, -1))
  {
    TokensOfComplementJoin([r]);
    var tk := "c" + CommaTokens([r]);
    assert tk == "c" + Bare(r);
    BareParts(r);
    assert ' ' !in tk && ',' !in tk && '-' !in tk;
    assert SkipSpace(tk) == tk;
    assert DigitPrefix(tk) == [];
    assert Location.ScanRange(tk, 0, 0) == (0, 0);
  }

  /** complement(join(a,b)) is the reverse complement of b followed by that of a. */
  lemma ComplementJoinReversesOrder(origin: string, a: Range, b: Range)
    requires ValidRange(a) && ValidRange(b)
    requires a.hi <= |origin| && b.hi <= |origin|
    requires Sequence.IsDna(origin)
    ensures Location.Extract(origin, Render(ComplementJoin([a, b])))
         == Ok(Sequence.ReverseComplement(origin[b.lo - 1..b.hi]) + Sequence.ReverseComplement(origin[a.lo - 1..a.hi]))
  {
    var rs := [a, b];
    ExtractComputesMeaning(origin, ComplementJoin(rs));
    var x, y := origin[a.lo - 1..a.hi], origin[b.lo - 1..b.hi];
    assert rs[1..][1..] == [];
    assert RangesMeaning(origin, rs[1..]) == Ok(y + "");
    assert y + "" == y;
    assert RangesMeaning(origin, rs) == Ok(x + y);
    Sequence.ReverseComplementOfConcat(x, y);
  }

  /** The number of bases the members of a join denote. */
  function MembersSize(ms: seq<Member>): int
  {
    if ms == [] then 0 else ms[0].range.hi - ms[0].range.lo + 1 + MembersSize(ms[1..])
  }

  lemma {:induction false} MembersMeaningLength(origin: string, ms: seq<Member>)
    requires forall k :: 0 <= k < |ms| ==> ValidRange(ms[k].range)
    ensures MembersMeaning(origin, ms).Ok? ==> |MembersMeaning(origin, ms).value| == MembersSize(ms)
    decreases |ms|
  {
    if ms != [] {
      MembersMeaningLength(origin, ms[1..]);
    }
  }

  /** A join that succeeds has as many bases as its members together. */
  lemma JoinLength(origin: string, ms: seq<Member>)
    requires WellFormed(Join(ms))
    ensures Location.Extract(origin, Render(Join(ms))).Ok? ==>
      |Location.Extract(origin, Render(Join(ms))).value| == MembersSize(ms)
  {
    ExtractComputesMeaning(origin, Join(ms));
    MembersMeaningLength(origin, ms);
  }

  /** The number of bases a list of ranges denotes. */
  function RangesSize(rs: seq<Range>): int
  {
    if rs == [] then 0 else rs[0].hi - rs[0].lo + 1 + RangesSize(rs[1..])
  }

  lemma {:induction false} RangesMeaningLength(origin: string, rs: seq<Range>)
    requires forall k :: 0 <= k < |rs| ==> ValidRange(rs[k])
    ensures RangesMeaning(origin, rs).Ok? ==> |RangesMeaning(origin, rs).value| == RangesSize(rs)
    decreases |rs|
  {
    if rs != [] {
      RangesMeaningLength(origin, rs[1..]);
    }
  }

  /** A complement(join(...)) of several ranges that succeeds has as many bases as its ranges together. */
  lemma ComplementJoinLength(origin: string, rs: seq<Range>)
    requires WellFormed(ComplementJoin(rs)) && |rs| > 1
    ensures Location.Extract(origin, Render(ComplementJoin(rs))).Ok? ==>
      |Location.Extract(origin, Render(ComplementJoin(rs))).value| == RangesSize(rs)
  {
    ExtractComputesMeaning(origin, ComplementJoin(rs));
    RangesMeaningLength(origin, rs);
  }

  /** A range with both partial markers removed. */
  function Unmarked(r: Range): (u: Range)
    ensures u.lo == r.lo && u.hi == r.hi && !u.loPartial && !u.hiPartial
  {
    Range(r.lo, r.hi, false, false)
  }

  function UnmarkedMember(m: Member): (u: Member)
    ensures u.Forward? == m.Forward? && u.range == Unmarked(m.range)
  {
    match m
    case Forward(r) => Forward(Unmarked(r))
    case Reverse(r) => Reverse(Unmarked(r))
  }

  /** The form with every partial marker removed. */
  function UnmarkedForm(f: Form): (u: Form)
    ensures WellFormed(f) ==> WellFormed(u)
    ensures f.ComplementJoin? <==> u.ComplementJoin?
    ensures f.ComplementJoin? ==> |u.ranges| == |f.ranges|
  {
    match f
    case Span(r) => Span(Unmarked(r))
    case Complement(r) => Complement(Unmarked(r))
    case Join(ms) => Join(seq(|ms|, k requires 0 <= k < |ms| => UnmarkedMember(ms[k])))
    case ComplementJoin(rs) => ComplementJoin(seq(|rs|, k requires 0 <= k < |rs| => Unmarked(rs[k])))
  }

  lemma {:induction false} MembersMeaningUnmarked(origin: string, ms: seq<Member>, us: seq<Member>)
    requires forall k :: 0 <= k < |ms| ==> ValidRange(ms[k].range)
    requires |us| == |ms| && forall k :: 0 <= k < |ms| ==> us[k] == UnmarkedMember(ms[k])
    requires forall k :: 0 <= k < |us| ==> ValidRange(us[k].range)
    ensures MembersMeaning(origin, us) == MembersMeaning(origin, ms)
    decreases |ms|
  {
    if ms != [] {
      MembersMeaningUnmarked(origin, ms[1..], us[1..]);
    }
  }

  lemma {:induction false} RangesMeaningUnmarked(origin: string, rs: seq<Range>, us: seq<Range>)
    requires forall k :: 0 <= k < |rs| ==> ValidRange(rs[k])
    requires |us| == |rs| && forall k :: 0 <= k < |rs| ==> us[k] == Unmarked(rs[k])
    requires forall k :: 0 <= k < |us| ==> ValidRange(us[k])
    ensures RangesMeaning(origin, us) == RangesMeaning(origin, rs)
    decreases |rs|
  {
    if rs != [] {
      RangesMeaningUnmarked(origin, rs[1..], us[1..]);
    }
  }

  /** '<' and '>' never change what extract_sequence returns. */
  lemma PartialMarkersIgnored(origin: string, f: Form)
    requires WellFormed(f)
    requires f.ComplementJoin? ==> |f.ranges| > 1
    ensures Location.Extract(origin, Render(f)) == Location.Extract(origin, Render(UnmarkedForm(f)))
  {
    var u := UnmarkedForm(f);
    ExtractComputesMeaning(origin, f);
    ExtractComputesMeaning(origin, u);
    MeaningUnmarked(origin, f);
  }

  /** Dropping the markers keeps the meaning of every form. */
  lemma MeaningUnmarked(origin: string, f: Form)
    requires WellFormed(f)
    ensures Meaning(origin, f) == Meaning(origin, UnmarkedForm(f))
  {
    var u := UnmarkedForm(f);
    match f
    case Span(r) =>
    case Complement(r) =>
    case Join(ms) => MembersMeaningUnmarked(origin, ms, u.members);
    case ComplementJoin(rs) => RangesMeaningUnmarked(origin, rs, u.ranges);
  }
}
