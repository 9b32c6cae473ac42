/**
 * The C library's string routines that the extractor relies on, stated over
 * `string` (= seq<char>): strstr as `Contains`, the sscanf conversions
 * `%d`, `%s` and `%[^c]` with the whitespace a format's blanks skip, strtok
 * as `Split`, toupper, and the decimal notation `%d` reads.
 */
module Text {
  import opened Outcome

  /** isspace() in the C locale: ' ', '\t', '\n', '\v', '\f', '\r'. */
  predicate IsSpace(c: char) { c == ' ' || '\t' <= c <= '\r' }

  predicate IsDigit(c: char) { '0' <= c <= '9' }

  // ---------------------------------------------------------------- strstr

  /** strstr(s, p) != NULL. */
  predicate Contains(s: string, p: string)
    decreases |s|
  {
    p <= s || (s != [] && Contains(s[1..], p))
  }

  lemma {:induction false} ContainsAt(s: string, p: string, i: nat)
    requires i + |p| <= |s| && s[i..i + |p|] == p
    ensures Contains(s, p)
    decreases i
  {
    if i == 0 {
      assert s[..|p|] == p;
    } else {
      assert s[1..][i - 1..i - 1 + |p|] == s[i..i + |p|];
      ContainsAt(s[1..], p, i - 1);
    }
  }

  /** Where a pattern `s` contains occurs in it. */
  lemma {:induction false} ContainsIndex(s: string, p: string) returns (i: nat)
    requires Contains(s, p)
    ensures i + |p| <= |s| && s[i..i + |p|] == p
    decreases |s|
  {
    if p <= s {
      i := 0;
    } else {
      var j := ContainsIndex(s[1..], p);
      assert s[1..][j..j + |p|] == s[j + 1..j + 1 + |p|];
      i := j + 1;
    }
  }

  /** A pattern holding a character that `s` lacks does not occur in `s`. */
  lemma {:induction false} NotContainsWithoutChar(s: string, p: string, c: char)
    requires c in p && c !in s
    ensures !Contains(s, p)
    decreases |s|
  {
    if s != [] {
      NotContainsWithoutChar(s[1..], p, c);
    }
  }

  /** A pattern holding two adjacent characters that never stand side by side in `s` does not occur in `s`. */
  lemma {:induction false} NotContainsWithoutPair(s: string, p: string, m: nat)
    requires m + 1 < |p|
    requires forall j :: 0 <= j < |s| - 1 ==> !(s[j] == p[m] && s[j + 1] == p[m + 1])
    ensures !Contains(s, p)
    decreases |s|
  {
    if m + 1 < |s| {
      assert !(s[m] == p[m] && s[m + 1] == p[m + 1]);
    }
    if s != [] {
      forall j | 0 <= j < |s[1..]| - 1
        ensures !(s[1..][j] == p[m] && s[1..][j + 1] == p[m + 1])
      {
        assert s[1..][j] == s[j + 1] && s[1..][j + 1] == s[j + 2];
      }
      NotContainsWithoutPair(s[1..], p, m);
    }
  }

  /** What `%s` reads: one or more non-blank characters. */
  predicate IsWord(w: string)
  {
    w != [] && forall k :: 0 <= k < |w| ==> !IsSpace(w[k])
  }

  predicate Blank(s: string)
  {
    forall k :: 0 <= k < |s| ==> IsSpace(s[k])
  }

  lemma BlankTail(s: string)
    requires s != [] && Blank(s)
    ensures IsSpace(s[0]) && Blank(s[1..])
  {
    assert forall k :: 0 <= k < |s| - 1 ==> s[1..][k] == s[k + 1];
  }

  /** A pattern whose characters m and m+1 cannot stand side by side in `prefix + rest` does not occur there. */
  lemma AbsentPair(prefix: string, rest: string, p: string, m: nat)
    requires m + 1 < |p| && p[m] !in prefix && p[m + 1] !in rest
    ensures !Contains(prefix + rest, p)
  {
    var s := prefix + rest;
    forall j | 0 <= j < |s| - 1
      ensures !(s[j] == p[m] && s[j + 1] == p[m + 1])
    {
      if j < |prefix| {
        assert s[j] == prefix[j];
      } else {
        assert s[j + 1] == rest[j + 1 - |prefix|];
      }
    }
    NotContainsWithoutPair(s, p, m);
  }

  /** The same, where character m of the pattern occurs once, as `c`, and what follows `c` is not character m+1. */
  lemma AbsentPairAround(a: string, c: char, b: string, p: string, m: nat)
    requires m + 1 < |p| && p[m] !in a && p[m] !in b
    requires b != [] && b[0] != p[m + 1]
    ensures !Contains(a + [c] + b, p)
  {
    var s := a + [c] + b;
    forall j | 0 <= j < |s| - 1
      ensures !(s[j] == p[m] && s[j + 1] == p[m + 1])
    {
      if j < |a| {
        assert s[j] == a[j];
      } else if j == |a| {
        assert s[j + 1] == b[0];
      } else {
        assert s[j] == b[j - |a| - 1];
      }
    }
    NotContainsWithoutPair(s, p, m);
  }

  /** AbsentPairAround, for a string already known to be split that way. */
  lemma AbsentPairIn(s: string, a: string, c: char, b: string, p: string, m: nat)
    requires s == a + [c] + b
    requires m + 1 < |p| && p[m] !in a && p[m] !in b
    requires b != [] && b[0] != p[m + 1]
    ensures !Contains(s, p)
  {
    AbsentPairAround(a, c, b, p, m);
  }

  // ------------------------------------------------------ prefix scanners

  /** What a blank in a scanf format (or a conversion's own skipping) leaves of `s`. */
  function SkipSpace(s: string): (r: string)
    ensures |r| <= |s| && r == s[|s| - |r|..]
    ensures r != [] ==> !IsSpace(r[0])
    ensures (s == [] || !IsSpace(s[0])) ==> r == s
    decreases |s|
  {
    if s != [] && IsSpace(s[0]) then SkipSpace(s[1..]) else s
  }

  /** The longest prefix of `s` without whitespace. */
  function NonBlankPrefix(s: string): (w: string)
    ensures w <= s
    ensures forall k :: 0 <= k < |w| ==> !IsSpace(w[k])
    ensures |w| == |s| || IsSpace(s[|w|])
    decreases |s|
  {
    if s != [] && !IsSpace(s[0]) then [s[0]] + NonBlankPrefix(s[1..]) else []
  }

  /** The longest prefix of `s` without the character `stop`. */
  function PrefixBefore(s: string, stop: char): (w: string)
    ensures w <= s
    ensures stop !in w
    ensures |w| == |s| || s[|w|] == stop
    decreases |s|
  {
    if s != [] && s[0] != stop then [s[0]] + PrefixBefore(s[1..], stop) else []
  }

  /** The longest prefix of `s` made of decimal digits. */
  function DigitPrefix(s: string): (w: string)
    ensures w <= s
    ensures forall k :: 0 <= k < |w| ==> IsDigit(w[k])
    ensures |w| == |s| || !IsDigit(s[|w|])
    decreases |s|
  {
    if s != [] && IsDigit(s[0]) then [s[0]] + DigitPrefix(s[1..]) else []
  }

  lemma {:induction false} NonBlankPrefixOfWord(w: string, rest: string)
    requires forall k :: 0 <= k < |w| ==> !IsSpace(w[k])
    requires rest == [] || IsSpace(rest[0])
    ensures NonBlankPrefix(w + rest) == w
    decreases |w|
  {
    if w != [] {
      assert (w + rest)[1..] == w[1..] + rest;
      NonBlankPrefixOfWord(w[1..], rest);
    }
  }

  lemma {:induction false} PrefixBeforeOfRun(w: string, stop: char, rest: string)
    requires stop !in w
    requires rest == [] || rest[0] == stop
    ensures PrefixBefore(w + rest, stop) == w
    decreases |w|
  {
    if w != [] {
      assert (w + rest)[1..] == w[1..] + rest;
      PrefixBeforeOfRun(w[1..], stop, rest);
    }
  }

  lemma {:induction false} DigitPrefixOfDigits(d: string, rest: string)
    requires forall k :: 0 <= k < |d| ==> IsDigit(d[k])
    requires rest == [] || !IsDigit(rest[0])
    ensures DigitPrefix(d + rest) == d
    decreases |d|
  {
    if d != [] {
      assert (d + rest)[1..] == d[1..] + rest;
      DigitPrefixOfDigits(d[1..], rest);
    }
  }

  /** White space alone is skipped entirely. */
  lemma {:induction false} SkipSpaceOfBlank(b: string)
    requires Blank(b)
    ensures SkipSpace(b) == []
    decreases |b|
  {
    if b != [] {
      BlankTail(b);
      SkipSpaceOfBlank(b[1..]);
    }
  }

  /** Leading whitespace is skipped whatever follows it. */
  lemma {:induction false} SkipSpaceOfBlanks(b: string, s: string)
    requires Blank(b)
    ensures SkipSpace(b + s) == SkipSpace(s)
    decreases |b|
  {
    if b != [] {
      BlankTail(b);
      assert (b + s)[0] == b[0];
      assert (b + s)[1..] == b[1..] + s;
      SkipSpaceOfBlanks(b[1..], s);
    } else {
      assert b + s == s;
    }
  }

  // --------------------------------------------------- scanf conversions

  /** `%s`: skip whitespace, then read one or more non-whitespace characters; the rest of the input follows. */
  function ScanWord(s: string): (r: Option<(string, string)>)
    ensures r.Some? ==> r.value.0 != [] && forall k :: 0 <= k < |r.value.0| ==> !IsSpace(r.value.0[k])
  {
    var t := SkipSpace(s);
    var w := NonBlankPrefix(t);
    if w == [] then None else Some((w, t[|w|..]))
  }

  /** `%[^c]`: one or more characters other than `stop`, read without skipping whitespace. */
  function ScanUntil(s: string, stop: char): (r: Option<string>)
    ensures r.Some? ==> r.value != [] && r.value <= s && stop !in r.value
  {
    var w := PrefixBefore(s, stop);
    if w == [] then None else Some(w)
  }

  /** A literal run of format characters: matched exactly, or the scan stops. */
  function ScanLiteral(s: string, lit: string): (r: Option<string>)
    ensures r.Some? <==> lit <= s
    ensures r.Some? ==> s == lit + r.value
  {
    if lit <= s then Some(s[|lit|..]) else None
  }

  /**
   * The literal part of a scanf format: a white-space character matches any
   * amount of white space in the input (none included), any other character
   * must match itself, or the scan stops.
   */
  function MatchFormat(s: string, fmt: string): Option<string>
    decreases |fmt|
  {
    if fmt == [] then Some(s)
    else if IsSpace(fmt[0]) then MatchFormat(SkipSpace(s), fmt[1..])
    else if s != [] && s[0] == fmt[0] then MatchFormat(s[1..], fmt[1..])
    else None
  }

  lemma SkipSpaceTwice(s: string)
    ensures SkipSpace(SkipSpace(s)) == SkipSpace(s)
  {
  }

  /** Skipping white space before a format that starts with white space changes nothing. */
  lemma MatchFormatAfterSkip(s: string, fmt: string)
    requires fmt != [] && IsSpace(fmt[0])
    ensures MatchFormat(SkipSpace(s), fmt) == MatchFormat(s, fmt)
  {
    SkipSpaceTwice(s);
  }

  /**
   * A format's literal part matches itself; what follows is left over, as
   * long as the format ends with a non-blank or what follows does not start
   * with white space.
   */
  lemma {:induction false} MatchFormatOfItself(fmt: string, s: string)
    requires s == [] || !IsSpace(s[0]) || (fmt != [] && !IsSpace(fmt[|fmt| - 1]))
    ensures MatchFormat(fmt + s, fmt) == Some(s)
    decreases |fmt|
  {
    if fmt == [] {
      assert fmt + s == s;
    } else {
      var more := fmt[1..];
      assert fmt + s == [fmt[0]] + (more + s);
      assert more != [] ==> more[|more| - 1] == fmt[|fmt| - 1];
      if more != [] || s == [] || !IsSpace(s[0]) {
        MatchFormatOfItself(more, s);
      }
      if IsSpace(fmt[0]) {
        assert Blank([fmt[0]]);
        SkipSpaceOfBlanks([fmt[0]], more + s);
        MatchFormatBlankStep(fmt + s, fmt);
        MatchFormatRestart(more, s);
      } else {
        MatchFormatCharStep(more + s, fmt);
      }
    }
  }

  lemma MatchFormatBlankStep(s: string, fmt: string)
    requires fmt != [] && IsSpace(fmt[0])
    ensures MatchFormat(s, fmt) == MatchFormat(SkipSpace(s), fmt[1..])
  {
  }

  lemma MatchFormatCharStep(s: string, fmt: string)
    requires fmt != [] && !IsSpace(fmt[0])
    ensures MatchFormat([fmt[0]] + s, fmt) == MatchFormat(s, fmt[1..])
  {
    assert ([fmt[0]] + s)[1..] == s;
  }

  /** After a format blank, the rest of the format sees the input with its white space skipped, which is what it would skip itself. */
  lemma MatchFormatRestart(more: string, s: string)
    requires s == [] || !IsSpace(s[0]) || (more != [] && !IsSpace(more[|more| - 1]))
    ensures MatchFormat(SkipSpace(more + s), more) == MatchFormat(more + s, more)
  {
    if more == [] {
      assert more + s == s;
    } else if IsSpace(more[0]) {
      MatchFormatAfterSkip(more + s, more);
    } else {
      assert (more + s)[0] == more[0];
    }
  }

  /** A run of format blanks matches any run of input blanks before a non-blank. */
  lemma MatchFormatOfBlanks(b: string, s: string, fmt: string)
    requires Blank(b)
    requires fmt != [] && Blank(fmt)
    requires s == [] || !IsSpace(s[0])
    ensures MatchFormat(b + s, fmt) == Some(s)
  {
    SkipSpaceOfBlanks(b, s);
    MatchFormatBlankStep(b + s, fmt);
    BlankTail(fmt);
    BlankFormatKeeps(s, fmt[1..]);
  }

  /** Format blanks match nothing in front of a non-blank. */
  lemma {:induction false} BlankFormatKeeps(s: string, fmt: string)
    requires Blank(fmt)
    requires s == [] || !IsSpace(s[0])
    ensures MatchFormat(s, fmt) == Some(s)
    decreases |fmt|
  {
    if fmt != [] {
      BlankTail(fmt);
      assert SkipSpace(s) == s;
      assert MatchFormat(s, fmt) == MatchFormat(s, fmt[1..]);
      BlankFormatKeeps(s, fmt[1..]);
    }
  }

  /** Matching a format in two parts. */
  lemma {:induction false} MatchFormatConcat(s: string, f: string, g: string)
    ensures MatchFormat(s, f + g) == match MatchFormat(s, f) case None => None case Some(t) => MatchFormat(t, g)
    decreases |f|
  {
    if f == [] {
      assert f + g == g;
    } else {
      assert (f + g)[0] == f[0] && (f + g)[1..] == f[1..] + g;
      if IsSpace(f[0]) {
        MatchFormatConcat(SkipSpace(s), f[1..], g);
      } else if s != [] && s[0] == f[0] {
        MatchFormatConcat(s[1..], f[1..], g);
      }
    }
  }

  lemma {:induction false} ScanWordOfWord(b: string, w: string, rest: string)
    requires Blank(b) && IsWord(w)
    requires rest == [] || IsSpace(rest[0])
    ensures ScanWord(b + w + rest) == Some((w, rest))
  {
    assert b + w + rest == b + (w + rest);
    SkipSpaceOfBlanks(b, w + rest);
    assert SkipSpace(w + rest) == w + rest;
    NonBlankPrefixOfWord(w, rest);
    assert (w + rest)[|w|..] == rest;
  }

  lemma {:induction false} ScanUntilOfRun(w: string, stop: char, rest: string)
    requires w != [] && stop !in w
    requires rest == [] || rest[0] == stop
    ensures ScanUntil(w + rest, stop) == Some(w)
  {
    PrefixBeforeOfRun(w, stop, rest);
  }

  // ------------------------------------------------------------- decimals

  /** The value of a string of decimal digits. */
  function DigitsValue(d: string): nat
    requires forall k :: 0 <= k < |d| ==> IsDigit(d[k])
    decreases |d|
  {
    if d == [] then 0 else DigitsValue(d[..|d| - 1]) * 10 + DigitValue(d[|d| - 1])
  }

  function DigitValue(c: char): nat
    requires IsDigit(c)
  {
    c as int - '0' as int
  }

  function DigitChar(v: nat): (c: char)
    requires v < 10
    ensures IsDigit(c) && c as int - '0' as int == v
  {
    ('0' as int + v) as char
  }

  /** The decimal notation of `n` that `%d` reads, without leading zeros. */
  function NatToString(n: nat): (s: string)
    ensures s != [] && forall k :: 0 <= k < |s| ==> IsDigit(s[k])
  {
    if n < 10 then [DigitChar(n)] else NatToString(n / 10) + [DigitChar(n % 10)]
  }

  lemma {:induction false} NatToStringValue(n: nat)
    ensures DigitsValue(NatToString(n)) == n
  {
    var s := NatToString(n);
    if n < 10 {
      assert s[..0] == [];
    } else {
      NatToStringValue(n / 10);
      assert s[..|s| - 1] == NatToString(n / 10);
    }
  }

  /** `%d`: skip whitespace, an optional sign, one or more digits; the rest of the input follows. */
  function ScanInt(s: string): Option<(int, string)>
  {
    var t := SkipSpace(s);
    var negative := t != [] && t[0] == '-';
    var u := if t != [] && (t[0] == '-' || t[0] == '+') then t[1..] else t;
    var d := DigitPrefix(u);
    if d == [] then None
    else
      var v: int := if negative then -(DigitsValue(d) as int) else DigitsValue(d);
      Some((v, u[|d|..]))
  }

  /** `%d` on input that starts with a digit reads the leading digits. */
  lemma ScanIntOfUnsigned(t: string)
    requires t != [] && IsDigit(t[0])
    ensures ScanInt(t) == Some((DigitsValue(DigitPrefix(t)) as int, t[|DigitPrefix(t)|..]))
  {
    assert SkipSpace(t) == t;
    assert t[0] != '-' && t[0] != '+';
    assert DigitPrefix(t) != [];
  }

  /** `%d` reads an unsigned run of digits and stops at the first non-digit. */
  lemma ScanIntOfDigits(d: string, rest: string)
    requires d != [] && forall k :: 0 <= k < |d| ==> IsDigit(d[k])
    requires rest == [] || !IsDigit(rest[0])
    ensures ScanInt(d + rest) == Some((DigitsValue(d) as int, rest))
  {
    var s := d + rest;
    assert s[0] == d[0];
    ScanIntOfUnsigned(s);
    DigitPrefixOfDigits(d, rest);
    assert s[|d|..] == rest;
  }

  /** `%d` reads back a number written by NatToString and stops at the first non-digit. */
  lemma ScanIntOfNat(n: nat, rest: string)
    requires rest == [] || !IsDigit(rest[0])
    ensures ScanInt(NatToString(n) + rest) == Some((n, rest))
  {
    ScanIntOfDigits(NatToString(n), rest);
    NatToStringValue(n);
  }

  /** The strings one after the other, as `strcat` builds them. */
  function Concat(words: seq<string>): string
    decreases |words|
  {
    if words == [] then "" else words[0] + Concat(words[1..])
  }

  /** Regrouping a concatenation, stated once so that proofs need not rediscover it. */
  lemma ConcatAssoc(a: string, b: string, c: string)
    ensures (a + b) + c == a + (b + c)
  {
  }

  // ---------------------------------------------------------------- strtok

  /** `s` without its leading `d` characters. */
  function SkipChar(s: string, d: char): (r: string)
    ensures |r| <= |s| && r == s[|s| - |r|..]
    ensures r != [] ==> r[0] != d
    decreases |s|
  {
    if s != [] && s[0] == d then SkipChar(s[1..], d) else s
  }

  /** Tokens as strtok returns them: none empty, none holding the delimiter. */
  predicate Delimited(toks: seq<string>, d: char)
  {
    forall k :: 0 <= k < |toks| ==> toks[k] != [] && d !in toks[k]
  }

  lemma DelimitedCons(w: string, rest: seq<string>, d: char)
    requires w != [] && d !in w && Delimited(rest, d)
    ensures Delimited([w] + rest, d)
  {
    var toks := [w] + rest;
    forall k | 0 <= k < |toks|
      ensures toks[k] != [] && d !in toks[k]
    {
      if k > 0 {
        assert toks[k] == rest[k - 1];
      }
    }
  }

  /** The tokens successive strtok(…, d) calls return: the maximal non-empty runs without `d`, in order. */
  function Split(s: string, d: char): (toks: seq<string>)
    ensures Delimited(toks, d)
    decreases |s|
  {
    var t := SkipChar(s, d);
    if t == [] then []
    else
      var w := PrefixBefore(t, d);
      assert t[0] != d;
      var rest := Split(t[|w|..], d);
      DelimitedCons(w, rest, d);
      [w] + rest
  }

  lemma {:induction false} SkipCharOfRun(b: string, d: char, s: string)
    requires forall k :: 0 <= k < |b| ==> b[k] == d
    ensures SkipChar(b + s, d) == SkipChar(s, d)
    decreases |b|
  {
    if b != [] {
      assert (b + s)[0] == d;
      assert (b + s)[1..] == b[1..] + s;
      assert forall k :: 0 <= k < |b[1..]| ==> b[1..][k] == b[k + 1];
      SkipCharOfRun(b[1..], d, s);
    } else {
      assert b + s == s;
    }
  }

  /** Delimiters in front of the input produce no token. */
  lemma SplitSkipsDelimiters(b: string, d: char, s: string)
    requires forall k :: 0 <= k < |b| ==> b[k] == d
    ensures Split(b + s, d) == Split(s, d)
  {
    SkipCharOfRun(b, d, s);
  }

  /** A run without delimiters, ended by a delimiter or the end, is the next token. */
  lemma SplitFirstToken(w: string, d: char, rest: string)
    requires w != [] && d !in w
    requires rest == [] || rest[0] == d
    ensures Split(w + rest, d) == [w] + Split(rest, d)
  {
    assert SkipChar(w + rest, d) == w + rest;
    PrefixBeforeOfRun(w, d, rest);
    assert (w + rest)[|w|..] == rest;
  }

  /** A token followed by one or more delimiters: the token, then the tokens of what follows. */
  lemma SplitTokenThenDelimiters(w: string, b: string, d: char, rest: string)
    requires w != [] && d !in w
    requires b != [] && forall k :: 0 <= k < |b| ==> b[k] == d
    ensures Split(w + (b + rest), d) == [w] + Split(rest, d)
  {
    SplitFirstToken(w, d, b + rest);
    SplitSkipsDelimiters(b, d, rest);
  }

  /** A single run without delimiters is the only token. */
  lemma SplitSingleToken(w: string, d: char)
    requires w != [] && d !in w
    ensures Split(w, d) == [w]
  {
    SplitFirstToken(w, d, []);
    assert w + [] == w;
  }

  // --------------------------------------------------------------- toupper

  function UpperChar(c: char): char
  {
    if 'a' <= c <= 'z' then (c as int - 32) as char else c
  }

  /** toupper applied to every character. */
  function ToUpper(s: string): (r: string)
    ensures |r| == |s| && forall k :: 0 <= k < |s| ==> r[k] == UpperChar(s[k])
    decreases |s|
  {
    if s == [] then [] else [UpperChar(s[0])] + ToUpper(s[1..])
  }
}
