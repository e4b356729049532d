/** A reader for the fragment of Lua that learned rules are written in: blanks and line
    comments, words, symbols and quoted strings (section 2.1 of the Lua 5.1 manual).

    A string literal is read escape by escape; the cost lemma below says how much text any
    value needs, which is what decides when a printed literal is read back. */
module LuaLiterals {

  import opened Common

  predicate IsNewline(c: char) {
    c == '\n' || c == '\r'
  }

  predicate IsNameChar(c: char) {
    'a' <= c <= 'z' || 'A' <= c <= 'Z' || IsDigit(c) || c == '_'
  }

  // ---------------------------------------------------------------- string bodies

  /** The character a backslash and `c` stand for. */
  function Unescape(c: char): char {
    match c
    case 'a' => 7 as char
    case 'b' => 8 as char
    case 'f' => 12 as char
    case 'n' => '\n'
    case 'r' => '\r'
    case 't' => '\t'
    case 'v' => 11 as char
    case '\r' => '\n'
    case _ => c
  }

  /** How many of the first three characters are leading digits. */
  function DigitRun(s: string): (n: nat)
    ensures n <= 3 && n <= |s|
  {
    if |s| == 0 || !IsDigit(s[0]) then 0
    else if |s| == 1 || !IsDigit(s[1]) then 1
    else if |s| == 2 || !IsDigit(s[2]) then 2
    else 3
  }

  function Decimal(s: string): nat {
    if s == [] then 0
    else 10 * Decimal(s[..|s| - 1]) + (if IsDigit(s[|s| - 1]) then s[|s| - 1] as nat - '0' as nat else 0)
  }

  /** The value of a literal whose opening quote has been read, and the text after its
      closing quote. */
  function ReadBody(s: string): Option<(string, string)>
    decreases |s|
  {
    if s == [] || IsNewline(s[0]) then None
    else if s[0] == '"' then Some(("", s[1..]))
    else if s[0] != '\\' then Prepend(s[0], ReadBody(s[1..]))
    else if |s| == 1 then None
    else
      var n := DigitRun(s[1..]);
      if n == 0 then Prepend(Unescape(s[1]), ReadBody(s[2..]))
      else if Decimal(s[1..1 + n]) > 255 then None
      else Prepend(Decimal(s[1..1 + n]) as char, ReadBody(s[1 + n..]))
  }

  function Prepend(c: char, r: Option<(string, string)>): Option<(string, string)> {
    if r.None? then None else Some(([c] + r.value.0, r.value.1))
  }

  /** The characters a literal cannot contain as themselves. */
  predicate IsSpecial(c: char) {
    c == '"' || c == '\\' || IsNewline(c)
  }

  /** The escapes of section 2.1 of the Lua 5.1 manual; every other character stands for
      itself, and three digits are a decimal number. */
  lemma EscapesAre(c: char, x: char, y: char, z: char)
    ensures Unescape('a') == 7 as char && Unescape('b') == 8 as char && Unescape('t') == 9 as char
    ensures Unescape('n') == 10 as char && Unescape('v') == 11 as char && Unescape('f') == 12 as char
    ensures Unescape('r') == 13 as char && Unescape('\n') == Unescape('\r') == '\n'
    ensures c !in {'a', 'b', 't', 'n', 'v', 'f', 'r', '\r'} ==> Unescape(c) == c
    ensures IsDigit(x) && IsDigit(y) && IsDigit(z) ==>
              Decimal([x, y, z]) == 100 * (x as int - 48) + 10 * (y as int - 48) + (z as int - 48)
  {
    assert [x, y, z][..2] == [x, y] && [x, y][..1] == [x] && [x][..0] == [];
    assert Decimal([x]) == if IsDigit(x) then x as int - 48 else 0;
    assert Decimal([x, y]) == 10 * Decimal([x]) + (if IsDigit(y) then y as int - 48 else 0);
  }

  function Count(s: string, p: char -> bool): nat {
    if s == [] then 0 else (if p(s[0]) then 1 else 0) + Count(s[1..], p)
  }

  lemma {:induction false} CountZero(s: string, p: char -> bool)
    ensures Count(s, p) == 0 <==> forall i | 0 <= i < |s| :: !p(s[i])
  {
    if s != [] {
      CountZero(s[1..], p);
      forall i | 0 < i < |s|
        ensures s[i] == s[1..][i - 1]
      {
      }
    }
  }

  lemma {:induction false} CountSplits(s: string, p: char -> bool, q: char -> bool, r: char -> bool)
    requires forall c :: p(c) <==> q(c) || r(c)
    requires forall c :: !(q(c) && r(c))
    ensures Count(s, p) == Count(s, q) + Count(s, r)
  {
    if s != [] {
      CountSplits(s[1..], p, q, r);
    }
  }

  /** Every character of a value costs at least one character of text, and a special one at
      least two. */
  lemma {:induction false} LiteralCost(s: string)
    ensures ReadBody(s).Some? ==>
              var (v, rest) := ReadBody(s).value;
              |s| >= |v| + Count(v, IsSpecial) + 1 + |rest|
    decreases |s|
  {
    if ReadBody(s).Some? && s[0] != '"' {
      var tail := if s[0] != '\\' then s[1..]
                  else if DigitRun(s[1..]) == 0 then s[2..]
                  else s[1 + DigitRun(s[1..])..];
      LiteralCost(tail);
      var (v, rest) := ReadBody(s).value;
      assert v[1..] == ReadBody(tail).value.0;
    }
  }

  // ---------------------------------------------------------------- printed literals

  /** ReplaceAll of each quote by backslash and quote. */
  function EscapeQuotes(s: string): string {
    if s == [] then []
    else (if s[0] == '"' then ['\\', '"'] else [s[0]]) + EscapeQuotes(s[1..])
  }

  predicate IsQuote(c: char) {
    c == '"'
  }

  predicate IsBreaking(c: char) {
    c == '\\' || IsNewline(c)
  }

  /** Neither backslash nor line break. */
  predicate Plain(s: string) {
    forall i | 0 <= i < |s| :: !IsBreaking(s[i])
  }

  /** Plain, and without quotes. */
  predicate Clean(s: string) {
    forall i | 0 <= i < |s| :: !IsSpecial(s[i])
  }

  lemma {:induction false} EscapeLength(s: string)
    ensures |EscapeQuotes(s)| == |s| + Count(s, IsQuote)
  {
    if s != [] {
      EscapeLength(s[1..]);
    }
  }

  lemma ReadPlainChar(c: char, tail: string)
    requires !IsSpecial(c)
    ensures ReadBody([c] + tail) == Prepend(c, ReadBody(tail))
  {
    assert ([c] + tail)[1..] == tail;
  }

  lemma ReadEscapedQuote(tail: string)
    ensures ReadBody(['\\', '"'] + tail) == Prepend('"', ReadBody(tail))
  {
    var s := ['\\', '"'] + tail;
    assert s[2..] == tail && s[1..][0] == '"';
  }

  lemma ReadEnd(rest: string)
    ensures ReadBody("\"" + rest) == Some(("", rest))
  {
    assert ("\"" + rest)[1..] == rest;
  }

  lemma {:induction false} PlainReadsBack(s: string, rest: string)
    requires Plain(s)
    ensures ReadBody(EscapeQuotes(s) + ("\"" + rest)) == Some((s, rest))
    decreases |s|
  {
    var end := "\"" + rest;
    if s == [] {
      ReadEnd(rest);
      assert [] + end == end;
    } else {
      var head := if s[0] == '"' then ['\\', '"'] else [s[0]];
      var tail := EscapeQuotes(s[1..]);
      PlainReadsBack(s[1..], rest);
      assert head + tail + end == head + (tail + end);
      assert !IsBreaking(s[0]);
      if s[0] == '"' {
        ReadEscapedQuote(tail + end);
      } else {
        ReadPlainChar(s[0], tail + end);
      }
      assert [s[0]] + s[1..] == s;
    }
  }

  /** A literal printed with escaped quotes is read back, with the reader stopping where the
      printer did, exactly when its value has no backslash and no line break. */
  lemma EscapedReadsBackIff(s: string, rest: string)
    ensures ReadBody(EscapeQuotes(s) + ("\"" + rest)) == Some((s, rest)) <==> Plain(s)
  {
    var text := EscapeQuotes(s) + ("\"" + rest);
    if Plain(s) {
      PlainReadsBack(s, rest);
    } else if ReadBody(text) == Some((s, rest)) {
      LiteralCost(text);
      EscapeLength(s);
      CountSplits(s, IsSpecial, IsQuote, IsBreaking);
      CountZero(s, IsBreaking);
    }
  }

  lemma {:induction false} CleanHasNoQuotes(s: string)
    requires Clean(s)
    ensures EscapeQuotes(s) == s && Plain(s)
  {
    if s != [] {
      CleanHasNoQuotes(s[1..]);
      assert !IsSpecial(s[0]);
    }
  }

  /** A literal printed without escaping is read back exactly when its value is clean. */
  lemma RawReadsBackIff(s: string, rest: string)
    ensures ReadBody(s + ("\"" + rest)) == Some((s, rest)) <==> Clean(s)
  {
    var text := s + ("\"" + rest);
    if Clean(s) {
      CleanHasNoQuotes(s);
      PlainReadsBack(s, rest);
    } else if ReadBody(text) == Some((s, rest)) {
      LiteralCost(text);
      CountZero(s, IsSpecial);
    }
  }

  // ---------------------------------------------------------------- tokens

  /** The text after the current line. */
  function AfterLine(s: string): (r: string)
    ensures |r| <= |s|
  {
    if s == [] then [] else if IsNewline(s[0]) then s[1..] else AfterLine(s[1..])
  }

  /** After the two dashes of a comment: an opening long bracket of some level. */
  predicate OpensLong(s: string) {
    s != [] && s[0] == '[' && ClosesOpening(s[1..])
  }

  predicate ClosesOpening(s: string) {
    s != [] && (s[0] == '[' || (s[0] == '=' && ClosesOpening(s[1..])))
  }

  predicate IsBlank(c: char) {
    c == ' ' || c == '\t' || IsNewline(c)
  }

  /** Skips blanks and line comments; a long comment is not part of the fragment and stays. */
  function Skip(s: string): (r: string)
    ensures |r| <= |s|
    decreases |s|
  {
    if s == [] then []
    else if IsBlank(s[0]) then Skip(s[1..])
    else if "--" <= s && !OpensLong(s[2..]) then Skip(AfterLine(s[2..]))
    else s
  }

  predicate Boundary(s: string) {
    s == [] || !IsNameChar(s[0])
  }

  /** Reads the keyword or name `w`. */
  function Word(s: string, w: string): (r: Option<string>)
    ensures r.Some? ==> |r.value| + |w| <= |s|
  {
    var t := Skip(s);
    if w <= t && Boundary(t[|w|..]) then Some(t[|w|..]) else None
  }

  function Symbol(s: string, p: string): (r: Option<string>)
    ensures r.Some? ==> |r.value| + |p| <= |s|
  {
    var t := Skip(s);
    if p <= t then Some(t[|p|..]) else None
  }

  function Literal(s: string): Option<(string, string)> {
    var t := Skip(s);
    if t != [] && t[0] == '"' then ReadBody(t[1..]) else None
  }

  /** A text whose first character starts a token. */
  predicate StartsToken(s: string) {
    s != [] && s[0] != ' ' && s[0] != '\t' && !IsNewline(s[0]) && s[0] != '-'
  }

  lemma SkipStops(s: string)
    requires StartsToken(s)
    ensures Skip(s) == s
  {
  }

  /** A blank or line break in front of a token does not matter. */
  lemma BlankBefore(blank: char, s: string, w: string)
    requires blank == ' ' || blank == '\n'
    ensures Skip([blank] + s) == Skip(s)
    ensures Word([blank] + s, w) == Word(s, w)
    ensures Symbol([blank] + s, w) == Symbol(s, w)
    ensures Literal([blank] + s) == Literal(s)
  {
    assert ([blank] + s)[1..] == s;
  }

  lemma {:induction false} AfterLineStops(line: string, rest: string)
    requires OneLine(line)
    ensures AfterLine(line + (['\n'] + rest)) == rest
    decreases |line|
  {
    var s := line + (['\n'] + rest);
    if line == [] {
      assert s == ['\n'] + rest;
      assert s[1..] == rest;
    } else {
      assert s[1..] == line[1..] + (['\n'] + rest);
      assert !IsNewline(line[0]);
      AfterLineStops(line[1..], rest);
    }
  }

  predicate OneLine(s: string) {
    forall i | 0 <= i < |s| :: !IsNewline(s[i])
  }

  /** A comment line, followed by `rest`. */
  function CommentLine(text: string, rest: string): string {
    ['-', '-', ' '] + (text + (['\n'] + rest))
  }

  lemma CommentBefore(text: string, rest: string, w: string)
    requires OneLine(text)
    ensures Skip(CommentLine(text, rest)) == Skip(rest)
    ensures Word(CommentLine(text, rest), w) == Word(rest, w)
  {
    var s := CommentLine(text, rest);
    var line := [' '] + text;
    assert s[2..] == line + (['\n'] + rest);
    AfterLineStops(line, rest);
  }

  lemma WordAt(w: string, rest: string)
    requires StartsToken(w) && Boundary(rest)
    ensures Word(w + rest, w) == Some(rest)
  {
    SkipStops(w + rest);
    assert (w + rest)[|w|..] == rest;
  }

  lemma OtherWord(s: string, w: string)
    requires StartsToken(s) && w != "" && s[0] != w[0]
    ensures Word(s, w) == None
  {
    SkipStops(s);
  }

  lemma SymbolAt(p: string, rest: string)
    requires StartsToken(p)
    ensures Symbol(p + rest, p) == Some(rest)
  {
    SkipStops(p + rest);
    assert (p + rest)[|p|..] == rest;
  }

  /** A quoted text, followed by `rest`. */
  function Quote(text: string, rest: string): string {
    ['"'] + (text + ("\"" + rest))
  }

  lemma LiteralAt(text: string, value: string, rest: string)
    requires ReadBody(text + ("\"" + rest)) == Some((value, rest))
    ensures Literal(Quote(text, rest)) == Some((value, rest))
  {
    var s := Quote(text, rest);
    SkipStops(s);
    assert s[1..] == text + ("\"" + rest);
  }

  // ---------------------------------------------------------------- reading a text that goes on

  // A text `a` followed by a line break and `last`: what is read of it leaves the end of `a`,
  // the line break and `last` to be read, unless a string literal escapes the line break.

  function Followed(a: string, last: string): string {
    FollowedBy(a, '\n', last)
  }

  /** The same with either kind of line break. */
  function FollowedBy(a: string, c: char, last: string): string {
    a + ([c] + last)
  }

  predicate IsSuffix(b: string, a: string) {
    |b| <= |a| && a[|a| - |b|..] == b
  }

  lemma FollowedDrop(a: string, c: char, last: string, n: nat)
    requires n <= |a|
    ensures FollowedBy(a, c, last)[n..] == FollowedBy(a[n..], c, last)
    ensures IsSuffix(a[n..], a)
  {
  }

  lemma SuffixOfSuffix(c: string, b: string, a: string)
    requires IsSuffix(c, b) && IsSuffix(b, a)
    ensures IsSuffix(c, a)
  {
  }

  lemma PrefixStaysInside(t: string, c: char, last: string, w: string)
    requires OneLine(w) && IsNewline(c)
    ensures w <= FollowedBy(t, c, last) <==> w <= t
  {
    var s := FollowedBy(t, c, last);
    assert s[|t|] == c;
  }

  lemma {:induction false} ClosesOpeningFollowed(a: string, c: char, last: string)
    requires IsNewline(c)
    ensures ClosesOpening(FollowedBy(a, c, last)) <==> ClosesOpening(a)
  {
    if a != [] {
      FollowedDrop(a, c, last, 1);
      ClosesOpeningFollowed(a[1..], c, last);
    }
  }

  lemma OpensLongFollowed(a: string, c: char, last: string)
    requires IsNewline(c)
    ensures OpensLong(FollowedBy(a, c, last)) <==> OpensLong(a)
  {
    if a != [] {
      FollowedDrop(a, c, last, 1);
      ClosesOpeningFollowed(a[1..], c, last);
    }
  }

  lemma {:induction false} AfterLineFollowed(a: string, c: char, last: string)
    requires IsNewline(c)
    ensures AfterLine(FollowedBy(a, c, last)) == if OneLine(a) then last else FollowedBy(AfterLine(a), c, last)
    ensures OneLine(a) ==> AfterLine(a) == []
    decreases |a|
  {
    if a == [] {
      assert FollowedBy(a, c, last)[1..] == last;
    } else {
      FollowedDrop(a, c, last, 1);
      AfterLineFollowed(a[1..], c, last);
      assert OneLine(a) <==> !IsNewline(a[0]) && OneLine(a[1..]) by {
        assert forall i | 0 < i < |a| :: a[i] == a[1..][i - 1];
      }
    }
  }

  lemma {:induction false} AfterLineIsSuffix(s: string)
    ensures IsSuffix(AfterLine(s), s)
  {
    if s != [] {
      AfterLineIsSuffix(s[1..]);
    }
  }

  lemma SkipUnfolds(s: string)
    requires "--" <= s && !OpensLong(s[2..])
    ensures Skip(s) == Skip(AfterLine(s[2..]))
  {
  }

  lemma SkipComment(a: string, c: char, last: string)
    requires "--" <= a && !OpensLong(a[2..]) && IsNewline(c)
    ensures Skip(FollowedBy(a, c, last)) ==
            if OneLine(a[2..]) then Skip(last) else Skip(FollowedBy(AfterLine(a[2..]), c, last))
    ensures Skip(a) == Skip(AfterLine(a[2..]))
    ensures OneLine(a[2..]) ==> Skip(a) == []
  {
    FollowedDrop(a, c, last, 2);
    OpensLongFollowed(a[2..], c, last);
    AfterLineFollowed(a[2..], c, last);
    SkipUnfolds(FollowedBy(a, c, last));
    SkipUnfolds(a);
  }

  /** Skipping ends inside `a`, or passes on to `last` if `a` is nothing but blanks and
      comments. */
  lemma {:induction false} SkipFollowed(a: string, c: char, last: string)
    requires IsNewline(c)
    ensures Skip(FollowedBy(a, c, last)) == if Skip(a) == [] then Skip(last) else FollowedBy(Skip(a), c, last)
    ensures IsSuffix(Skip(a), a)
    decreases |a|
  {
    var s := FollowedBy(a, c, last);
    if a == [] {
      assert s[1..] == last;
    } else if IsBlank(a[0]) {
      FollowedDrop(a, c, last, 1);
      SkipFollowed(a[1..], c, last);
      SuffixOfSuffix(Skip(a), a[1..], a);
    } else if "--" <= a {
      FollowedDrop(a, c, last, 2);
      OpensLongFollowed(a[2..], c, last);
      if !OpensLong(a[2..]) {
        SkipComment(a, c, last);
        SkipFollowed(AfterLine(a[2..]), c, last);
        AfterLineIsSuffix(a[2..]);
        SuffixOfSuffix(AfterLine(a[2..]), a[2..], a);
        SuffixOfSuffix(Skip(a), AfterLine(a[2..]), a);
      }
    } else {
      PrefixStaysInside(a, c, last, "--");
    }
  }

  /** A token `w` cannot be the first one of `last`, or something in `a` comes before. */
  predicate StaysIn(a: string, last: string, w: string) {
    w != "" && OneLine(w) && (Skip(a) != [] || !(w <= Skip(last)))
  }

  /** Reading a symbol leaves a suffix of `a` and what follows. */
  lemma SymbolFollowed(a: string, last: string, p: string) returns (b: string)
    requires StaysIn(a, last, p) && Symbol(Followed(a, last), p).Some?
    ensures IsSuffix(b, a) && Symbol(Followed(a, last), p) == Some(Followed(b, last))
  {
    SkipFollowed(a, '\n', last);
    var t := Skip(a);
    PrefixStaysInside(t, '\n', last, p);
    FollowedDrop(t, '\n', last, |p|);
    b := t[|p|..];
    SuffixOfSuffix(b, t, a);
  }

  /** So does reading a word. */
  lemma WordFollowed(a: string, last: string, w: string) returns (b: string)
    requires StaysIn(a, last, w) && Word(Followed(a, last), w).Some?
    ensures IsSuffix(b, a) && Word(Followed(a, last), w) == Some(Followed(b, last))
  {
    b := SymbolFollowed(a, last, w);
  }

  lemma DigitRunFollowed(a: string, last: string)
    ensures DigitRun(Followed(a, last)) == DigitRun(a)
  {
    assert forall i | 0 <= i < |a| :: Followed(a, last)[i] == a[i];
    assert Followed(a, last)[|a|] == '\n';
  }

  /** The last character escapes the line break, and the literal goes on in `last`. */
  predicate Escapes(a: string, last: string, r: string) {
    a != [] && a[|a| - 1] == '\\' && ReadBody(last).Some? && ReadBody(last).value.1 == r
  }

  lemma {:induction false} BodyFollowed(a: string, last: string) returns (b: string)
    requires ReadBody(Followed(a, last)).Some?
    ensures var r := ReadBody(Followed(a, last)).value.1;
            (IsSuffix(b, a) && r == Followed(b, last)) || Escapes(a, last, r)
    decreases |a|
  {
    b := [];
    var s := Followed(a, last);
    if a != [] {
      FollowedDrop(a, '\n', last, 1);
      if a[0] == '"' {
        b := a[1..];
      } else if a[0] != '\\' {
        b := BodyFollowed(a[1..], last);
      } else if |a| == 1 {
        assert s[1..][0] == '\n' && s[2..] == last;
      } else {
        DigitRunFollowed(a[1..], last);
        var n := DigitRun(a[1..]);
        var k := if n == 0 then 2 else 1 + n;
        FollowedDrop(a, '\n', last, k);
        b := BodyFollowed(a[k..], last);
      }
    }
  }

  /** So does reading a literal, unless it escapes the line break. */
  lemma LiteralFollowed(a: string, last: string) returns (b: string)
    requires StaysIn(a, last, "\"") && Literal(Followed(a, last)).Some?
    ensures var r := Literal(Followed(a, last)).value.1;
            (IsSuffix(b, a) && r == Followed(b, last)) || Escapes(a, last, r)
  {
    SkipFollowed(a, '\n', last);
    var t := Skip(a);
    FollowedDrop(t, '\n', last, 1);
    b := BodyFollowed(t[1..], last);
    SuffixOfSuffix(t[1..], t, a);
    if !Escapes(t[1..], last, ReadBody(Followed(t[1..], last)).value.1) {
      SuffixOfSuffix(b, t[1..], a);
    }
  }

  lemma EscapesFromSuffix(b: string, a: string, last: string, r: string)
    requires IsSuffix(b, a) && Escapes(b, last, r)
    ensures Escapes(a, last, r)
  {
    assert b[|b| - 1] == a[|a| - |b|..][|b| - 1];
  }

  // ---------------------------------------------------------------- lines

  /** Length of the first line. */
  function LineLength(s: string): (n: nat)
    ensures n <= |s| && OneLine(s[..n]) && (n < |s| ==> IsNewline(s[n]))
  {
    if s == [] || IsNewline(s[0]) then 0
    else
      var n := LineLength(s[1..]);
      assert s[..1 + n] == [s[0]] + s[1..][..n];
      1 + n
  }

  /** Blanks and then nothing, or a short comment. */
  predicate QuietLine(line: string) {
    line == [] || (IsBlank(line[0]) && QuietLine(line[1..])) || ("--" <= line && !OpensLong(line[2..]))
  }

  predicate QuietLines(s: string)
    decreases |s|
  {
    var n := LineLength(s);
    QuietLine(s[..n]) && (n < |s| ==> QuietLines(s[n + 1..]))
  }

  lemma {:induction false} QuietLineIsSkipped(line: string)
    requires OneLine(line)
    ensures Skip(line) == [] <==> QuietLine(line)
  {
    if line != [] {
      if IsBlank(line[0]) {
        QuietLineIsSkipped(line[1..]);
      } else if "--" <= line && !OpensLong(line[2..]) {
        SkipComment(line, '\n', []);
      }
    }
  }

  lemma FirstLine(s: string, n: nat)
    requires n < |s|
    ensures s == FollowedBy(s[..n], s[n], s[n + 1..])
  {
  }

  /** Nothing is left of a text exactly when all its lines are blank or short comments. */
  lemma {:induction false} QuietLinesAreSkipped(s: string)
    ensures Skip(s) == [] <==> QuietLines(s)
    decreases |s|
  {
    var n := LineLength(s);
    var line := s[..n];
    QuietLineIsSkipped(line);
    if n < |s| {
      var c, rest := s[n], s[n + 1..];
      QuietLinesAreSkipped(rest);
      FirstLine(s, n);
      SkipFollowed(line, c, rest);
    } else {
      assert line == s;
    }
  }
}
