/** How much ink a rule takes: counting the characters that are not blank
    (internal/movedetect/infer.go).

    Whatever text is read as a rule has at least the ink of the rule's tokens and of its
    values, and one more for every quote, backslash or line break in a value.  A printed rule
    has exactly the ink of its tokens and values and of the escapes the printer wrote.  So a
    printed rule that is read back has no value with a character the printer did not escape:
    no other alignment of the text can make up for it. */
module RuleWeights {

  import opened Common
  import opened LuaLiterals
  import opened LearnedRules

  predicate IsInk(c: char) {
    !IsBlank(c)
  }

  function Ink(s: string): nat {
    Count(s, IsInk)
  }

  /** The least ink of a literal with this value, without its quotes. */
  function Need(value: string): nat {
    Ink(value) + Count(value, IsSpecial)
  }

  predicate AllInk(s: string) {
    forall i | 0 <= i < |s| :: IsInk(s[i])
  }

  lemma {:induction false} InkConcat(a: string, b: string)
    ensures Ink(a + b) == Ink(a) + Ink(b)
  {
    if a == [] {
      assert a + b == b;
    } else {
      assert (a + b)[1..] == a[1..] + b;
      InkConcat(a[1..], b);
    }
  }

  lemma InkOne(c: char)
    ensures Ink([c]) == if IsInk(c) then 1 else 0
  {
    var s := [c];
    assert s[0] == c && s[1..] == [];
    assert Count(s, IsInk) == (if IsInk(c) then 1 else 0) + Count(s[1..], IsInk);
  }

  lemma {:induction false} InkOfToken(w: string)
    requires AllInk(w)
    ensures Ink(w) == |w|
  {
    if w != [] {
      InkOfToken(w[1..]);
    }
  }

  lemma TokenThen(w: string, rest: string)
    requires AllInk(w)
    ensures Ink(w + rest) == |w| + Ink(rest)
  {
    InkConcat(w, rest);
    InkOfToken(w);
  }

  lemma BlankThen(c: char, rest: string)
    requires IsBlank(c)
    ensures Ink([c] + rest) == Ink(rest)
  {
    assert ([c] + rest)[1..] == rest;
  }

  lemma InkOfSuffix(b: string, a: string)
    requires IsSuffix(b, a)
    ensures Ink(b) <= Ink(a)
  {
    var n := |a| - |b|;
    assert a == a[..n] + b;
    InkConcat(a[..n], b);
  }

  // ---------------------------------------------------------------- what reading takes

  lemma SkipTakes(s: string)
    ensures Ink(Skip(s)) <= Ink(s)
  {
    SkipFollowed(s, '\n', []);
    InkOfSuffix(Skip(s), s);
  }

  lemma SymbolTakes(s: string, p: string)
    requires AllInk(p)
    ensures Symbol(s, p).Some? ==> Ink(s) >= |p| + Ink(Symbol(s, p).value)
  {
    SkipTakes(s);
    var t := Skip(s);
    if p <= t {
      assert t == p + t[|p|..];
      TokenThen(p, t[|p|..]);
    }
  }

  lemma WordTakes(s: string, w: string)
    requires AllInk(w)
    ensures Word(s, w).Some? ==> Ink(s) >= |w| + Ink(Word(s, w).value)
  {
    SymbolTakes(s, w);
  }

  lemma FirstTakes(s: string, n: nat)
    requires 0 < n <= |s|
    ensures Ink(s) == Ink(s[..n]) + Ink(s[n..])
  {
    assert s == s[..n] + s[n..];
    InkConcat(s[..n], s[n..]);
  }

  lemma EscapeTakes(s: string, n: nat)
    requires |s| >= 2 && s[0] == '\\' && (n == 2 || (DigitRun(s[1..]) > 0 && n == 1 + DigitRun(s[1..])))
    ensures n <= |s| && Ink(s[..n]) >= 1 + (if IsInk(s[1]) then 1 else 0)
  {
    FirstTakes(s[..n], 2);
    assert s[..n][..2] == [s[0]] + [s[1]];
    InkConcat([s[0]], [s[1]]);
    InkOne(s[0]);
    InkOne(s[1]);
  }

  /** Every character of a value takes the ink it has, and a special one takes one more. */
  lemma {:induction false} BodyTakes(s: string)
    ensures ReadBody(s).Some? ==>
              var (v, rest) := ReadBody(s).value;
              Ink(s) >= Need(v) + 1 + Ink(rest)
    decreases |s|
  {
    if ReadBody(s).Some? && s[0] != '"' {
      var k := if s[0] != '\\' then 1 else if DigitRun(s[1..]) == 0 then 2 else 1 + DigitRun(s[1..]);
      BodyTakes(s[k..]);
      FirstTakes(s, k);
      var (v, rest) := ReadBody(s).value;
      assert v[1..] == ReadBody(s[k..]).value.0;
      if s[0] == '\\' {
        EscapeTakes(s, k);
      } else {
        assert s[..1][1..] == [];
      }
    }
  }

  lemma LiteralTakes(s: string)
    ensures Literal(s).Some? ==>
              var (v, rest) := Literal(s).value;
              Ink(s) >= Need(v) + 2 + Ink(rest)
  {
    SkipTakes(s);
    var t := Skip(s);
    if t != [] && t[0] == '"' {
      BodyTakes(t[1..]);
    }
  }

  lemma CloseTakes(s: string)
    ensures ReadClose(s) ==> Ink(s) >= 4
  {
    SymbolTakes(s, ")");
    if Symbol(s, ")").Some? {
      WordTakes(Symbol(s, ")").value, "end");
    }
  }

  lemma CallTakes(s: string)
    ensures ReadCall(s).Some? ==> Ink(s) >= Need(ReadCall(s).value) + 7
  {
    SymbolTakes(s, "(");
    if Symbol(s, "(").Some? {
      var s1 := Symbol(s, "(").value;
      LiteralTakes(s1);
      if Literal(s1).Some? {
        CloseTakes(Literal(s1).value.1);
      }
    }
  }

  lemma TailTakes(s: string)
    ensures ReadTail(s).Some? ==> Ink(s) >= Need(ReadTail(s).value) + 15
  {
    WordTakes(s, "then");
    if Word(s, "then").Some? {
      var s1 := Word(s, "then").value;
      WordTakes(s1, "move");
      if Word(s1, "move").Some? {
        CallTakes(Word(s1, "move").value);
      }
    }
  }

  /** `email`, a dot and a field. */
  lemma FieldTakes(s: string, field: string)
    requires AllInk(field)
    ensures Field(s, field).Some? ==> Ink(s) >= 6 + |field| + Ink(Field(s, field).value)
  {
    WordTakes(s, "email");
    if Word(s, "email").Some? {
      var s1 := Word(s, "email").value;
      SymbolTakes(s1, ".");
      if Symbol(s1, ".").Some? {
        WordTakes(Symbol(s1, ".").value, field);
      }
    }
  }

  lemma SenderTakes(s: string)
    ensures ReadSender(s).Some? ==>
              Ink(s) >= Need(ReadSender(s).value.0) + 16 + Ink(ReadSender(s).value.1)
  {
    FieldTakes(s, "sender");
    if Field(s, "sender").Some? {
      var s1 := Field(s, "sender").value;
      SymbolTakes(s1, "==");
      if Symbol(s1, "==").Some? {
        LiteralTakes(Symbol(s1, "==").value);
      }
    }
  }

  lemma KeywordHeadTakes(s: string)
    ensures KeywordHead(s).Some? ==> Ink(s) >= 23 + Ink(KeywordHead(s).value)
  {
    WordTakes(s, "contains");
    if Word(s, "contains").Some? {
      var s1 := Word(s, "contains").value;
      SymbolTakes(s1, "(");
      if Symbol(s1, "(").Some? {
        var s2 := Symbol(s1, "(").value;
        FieldTakes(s2, "subject");
        if Field(s2, "subject").Some? {
          SymbolTakes(Field(s2, "subject").value, ",");
        }
      }
    }
  }

  lemma KeywordTakes(s: string)
    ensures ReadKeyword(s).Some? ==>
              Ink(s) >= Need(ReadKeyword(s).value.0) + 26 + Ink(ReadKeyword(s).value.1)
  {
    KeywordHeadTakes(s);
    if KeywordHead(s).Some? {
      var s1 := KeywordHead(s).value;
      LiteralTakes(s1);
      if Literal(s1).Some? {
        SymbolTakes(Literal(s1).value.1, ")");
      }
    }
  }

  /** The least ink of conditions with these keywords, joined by `or`. */
  function KeywordsNeed(keywords: seq<string>): nat {
    if keywords == [] then 0
    else Need(keywords[0]) + 28 + KeywordsNeed(keywords[1..])
  }

  lemma {:induction false} KeywordsTake(s: string)
    ensures ReadKeywords(s).Some? ==>
              Ink(s) + 2 >= KeywordsNeed(ReadKeywords(s).value.0) + Ink(ReadKeywords(s).value.1)
    decreases |s|
  {
    KeywordTakes(s);
    if ReadKeywords(s).Some? {
      var (keyword, s1) := ReadKeyword(s).value;
      var keywords := ReadKeywords(s).value.0;
      WordTakes(s1, "or");
      if Word(s1, "or").Some? {
        KeywordsTake(Word(s1, "or").value);
      }
      assert keywords[0] == keyword;
      assert keywords[1..] == if Word(s1, "or").None? then [] else ReadKeywords(Word(s1, "or").value).value.0;
    }
  }

  // ---------------------------------------------------------------- what printing writes

  /** A value needs the ink the printer writes and one more for every character that is
      neither escaped nor readable as itself. */
  lemma NeedSplits(value: string)
    ensures Need(value) == Ink(EscapeQuotes(value)) + Count(value, IsBreaking)
    ensures Count(value, IsBreaking) == 0 <==> Plain(value)
  {
    EscapedInk(value);
    CountSplits(value, IsSpecial, IsQuote, IsBreaking);
    CountZero(value, IsBreaking);
  }

  lemma {:induction false} EscapedInk(value: string)
    ensures Ink(EscapeQuotes(value)) == Ink(value) + Count(value, IsQuote)
  {
    if value != [] {
      var head := if value[0] == '"' then ['\\', '"'] else [value[0]];
      EscapedInk(value[1..]);
      InkConcat(head, EscapeQuotes(value[1..]));
      InkConcat(['\\'], ['"']);
      assert ['\\'] + ['"'] == ['\\', '"'];
      InkOne('\\');
      InkOne('"');
      InkOne(value[0]);
    }
  }

  lemma QuoteInk(text: string, rest: string)
    ensures Ink(Quote(text, rest)) == Ink(text) + 2 + Ink(rest)
  {
    TokenThen("\"", text + ("\"" + rest));
    InkConcat(text, "\"" + rest);
    TokenThen("\"", rest);
  }

  lemma CallInk(folder: string)
    ensures Ink(Call(folder)) == Ink(folder) + 7
  {
    var end := ['\n'] + ("end" + "");
    TokenThen("(", Quote(folder, ")" + end));
    QuoteInk(folder, ")" + end);
    TokenThen(")", end);
    BlankThen('\n', "end" + "");
    TokenThen("end", "");
  }

  lemma TailInk(folder: string)
    ensures Ink(Tail(folder)) == Ink(folder) + 15
  {
    CallInk(folder);
    var m := "move" + Call(folder);
    TokenThen("move", Call(folder));
    BlankThen(' ', m);
    BlankThen(' ', [' '] + m);
    BlankThen('\n', MoveLine(folder));
    TokenThen("then", ['\n'] + MoveLine(folder));
    BlankThen(' ', "then" + (['\n'] + MoveLine(folder)));
  }

  lemma SenderInk(sender: string, rest: string)
    ensures Ink(SenderCondition(sender, rest)) == Ink(EscapeQuotes(sender)) + 16 + Ink(rest)
  {
    var s5 := Quote(EscapeQuotes(sender), rest);
    var s4 := "==" + ([' '] + s5);
    var s3 := "sender" + ([' '] + s4);
    QuoteInk(EscapeQuotes(sender), rest);
    BlankThen(' ', s5);
    TokenThen("==", [' '] + s5);
    BlankThen(' ', s4);
    TokenThen("sender", [' '] + s4);
    TokenThen(".", s3);
    TokenThen("email", "." + s3);
  }

  lemma KeywordInk(keyword: string, rest: string)
    ensures Ink(KeywordCondition(keyword, rest)) == Ink(EscapeQuotes(keyword)) + 26 + Ink(rest)
  {
    var s6 := Quote(EscapeQuotes(keyword), ")" + rest);
    var s4 := "subject" + ("," + ([' '] + s6));
    var s2 := "email" + ("." + s4);
    TokenThen(")", rest);
    QuoteInk(EscapeQuotes(keyword), ")" + rest);
    BlankThen(' ', s6);
    TokenThen(",", [' '] + s6);
    TokenThen("subject", "," + ([' '] + s6));
    TokenThen(".", s4);
    TokenThen("email", "." + s4);
    TokenThen("(", s2);
    TokenThen("contains", "(" + s2);
  }

  /** The characters of all keywords that are neither escaped nor readable as themselves. */
  function Breaks(keywords: seq<string>): nat {
    if keywords == [] then 0 else Count(keywords[0], IsBreaking) + Breaks(keywords[1..])
  }

  lemma {:induction false} BreaksZero(keywords: seq<string>)
    ensures Breaks(keywords) == 0 <==> forall i | 0 <= i < |keywords| :: Plain(keywords[i])
  {
    if keywords != [] {
      BreaksZero(keywords[1..]);
      NeedSplits(keywords[0]);
      assert forall i | 0 < i < |keywords| :: keywords[i] == keywords[1..][i - 1];
    }
  }

  lemma {:induction false} KeywordsInk(keywords: seq<string>, rest: string)
    requires keywords != []
    ensures Ink(AnyKeyword(keywords, rest)) + 2 + Breaks(keywords) == KeywordsNeed(keywords) + Ink(rest)
    decreases |keywords|
  {
    NeedSplits(keywords[0]);
    if |keywords| == 1 {
      assert keywords[1..] == [];
      KeywordInk(keywords[0], rest);
    } else {
      var more := AnyKeyword(keywords[1..], rest);
      KeywordsInk(keywords[1..], rest);
      KeywordInk(keywords[0], [' '] + ("or" + ([' '] + more)));
      BlankThen(' ', "or" + ([' '] + more));
      TokenThen("or", [' '] + more);
      BlankThen(' ', more);
    }
  }
}
