/** Exactly when a learned rule is read back, and what else its text runs
    (internal/movedetect/infer.go, internal/engine/engine.go).

    Sender, folder and subject are also printed, as they are, into comments.  A line break in
    one of them ends the comment.  The engine runs the whole text as one Lua chunk, so what
    follows the line break is run before the rule itself: the first section says what that is.
    The other sections are about the fragment of Lua that holds exactly one rule: whether the
    text is such a rule, and which.  A text outside the fragment may still be a Lua chunk. */
module ReadBackExactly {

  import opened Common
  import opened LuaLiterals
  import opened KeywordExtraction
  import opened LearnedRules
  import opened RuleWeights

  // ---------------------------------------------------------------- what is run first

  /** Of a comment whose text has several lines, the later lines and what follows remain. */
  lemma CommentWithLines(text: string, rest: string)
    ensures Skip(CommentLine(text, rest)) ==
            if OneLine(text) then Skip(rest) else Skip(Followed(AfterLine(text), rest))
  {
    var a := ['-', '-', ' '] + text;
    assert CommentLine(text, rest) == Followed(a, rest);
    assert a[2..] == [' '] + text;
    SkipComment(a, '\n', rest);
    assert AfterLine([' '] + text) == AfterLine(text) by {
      assert ([' '] + text)[1..] == text;
    }
    assert OneLine([' '] + text) <==> OneLine(text) by {
      assert forall i | 0 <= i < |text| :: ([' '] + text)[i + 1] == text[i];
    }
  }

  /** A commented text runs, before anything that follows, the later lines of its comment,
      unless they are all blank or comments themselves. */
  lemma CommentRuns(line: string, rest: string)
    ensures Skip(CommentLine(line, rest)) ==
            if QuietLines(AfterLine(line)) then Skip(rest) else Followed(Skip(AfterLine(line)), rest)
  {
    CommentWithLines(line, rest);
    AfterLineFollowed(line, '\n', rest);
    SkipFollowed(AfterLine(line), '\n', rest);
    QuietLinesAreSkipped(AfterLine(line));
  }

  /** The rule after the comments. */
  function Disabled(folder: string): string {
    "if" + ([' '] + ("false" + Tail(folder)))
  }

  lemma SubjectRuns(first: string, head: string, quoted: string, third: string, rule: string)
    requires OneLine(first) && OneLine(head) && OneLine(third)
    ensures Skip(CommentLine(first, CommentLine(head + quoted, CommentLine(third, rule)))) ==
            if QuietLines(AfterLine(quoted)) then Skip(rule)
            else Followed(Skip(AfterLine(quoted)), CommentLine(third, rule))
  {
    CommentWithLines(first, CommentLine(head + quoted, CommentLine(third, rule)));
    CommentRuns(head + quoted, CommentLine(third, rule));
    LinesAfterHead(head, quoted);
    CommentWithLines(third, rule);
  }

  const TODO: string := "TODO: refine this rule manually"

  /** The first thing a rule without keywords runs is its own `if` exactly when every line of
      the truncated subject after the first is blank or a short comment.  Otherwise it is the
      subject: the code it runs starts with the first line that is neither. */
  lemma DisabledRuleRuns(subject: string, folder: string)
    requires OneLine(folder)
    ensures var later := AfterLine(Truncate(subject, 80));
            var run := Skip(InferFromKeywords([], subject, folder));
            && run == (if QuietLines(later) then Disabled(folder)
                       else Followed(Skip(later), CommentLine(TODO, Disabled(folder))))
            && (run == Disabled(folder) <==> QuietLines(later))
  {
    var first := "Auto-learned: move to " + folder + " (no keywords extracted)";
    Around("Auto-learned: move to ", folder, " (no keywords extracted)");
    SubjectRuns(first, "Subject was: ", Truncate(subject, 80), TODO, Disabled(folder));
    SkipStops(Disabled(folder));
  }

  /** A sender rule likewise runs the later lines of sender and folder first. */
  lemma SenderRuleRuns(sender: string, folder: string)
    ensures var later := AfterLine("Auto-learned: move emails from " + sender + " to " + folder);
            Skip(InferFromSender(sender, folder)) ==
              if QuietLines(later) then SenderRule(sender, folder) else Followed(Skip(later), SenderRule(sender, folder))
  {
    CommentRuns("Auto-learned: move emails from " + sender + " to " + folder, SenderRule(sender, folder));
    SkipStops(SenderRule(sender, folder));
  }

  const TWO_LINES: string := "Hi\nx = 1"

  /** One such subject: its words are too short for keywords, and its second line is run. */
  lemma SecondLineIsRun(subject: string, folder: string, lower: Lowering)
    requires subject == TWO_LINES && OneLine(folder) && LowerLaws(lower)
    requires forall i | 0 <= i < |subject| :: lower(subject[i]) == subject[i]
    ensures Keywords(subject, lower) == []
    ensures Skip(InferFromKeywords([], subject, folder)) == Followed("x = 1", CommentLine(TODO, Disabled(folder)))
  {
    ShortWordsOnly(subject, lower);
    DisabledRuleRuns(subject, folder);
    SecondLine(subject);
  }

  lemma SecondLine(subject: string)
    requires subject == TWO_LINES
    ensures AfterLine(Truncate(subject, 80)) == "x = 1" && Skip("x = 1") == "x = 1" && !QuietLines("x = 1")
  {
    AsciiLength(subject);
    assert subject == FollowedBy("Hi", '\n', "x = 1");
    AfterLineFollowed("Hi", '\n', "x = 1");
    SkipStops("x = 1");
    QuietLinesAreSkipped("x = 1");
  }

  lemma {:induction false} AsciiLength(s: string)
    requires forall i | 0 <= i < |s| :: s[i] as int < 0x80
    ensures ByteLen(s) == |s|
  {
    if s != [] {
      AsciiLength(s[1..]);
    }
  }

  lemma ShortWordsOnly(subject: string, lower: Lowering)
    requires subject == TWO_LINES && LowerLaws(lower)
    requires forall i | 0 <= i < |subject| :: lower(subject[i]) == subject[i]
    ensures Keywords(subject, lower) == []
  {
    forall w | w in SubjectWords(subject, lower)
      ensures !Significant(Bare(w, lower), STOP_WORDS)
    {
      NoBracketsInside(subject, lower);
      SubjectWordsStood(subject, lower, w);
      ShortWord(subject, w, lower);
    }
    NoKeywordsIff(subject, lower);
  }

  lemma NoBracketsInside(subject: string, lower: Lowering)
    requires '[' !in subject
    ensures BracketsStandApart(Headless(subject, lower), true)
  {
    var headless := Headless(subject, lower);
    HeadlessIsContained(subject, lower);
    forall i | 0 <= i < |headless|
      ensures headless[i] in subject
    {
      PartsShareCharacters(subject, headless, i);
    }
    NoBracketsStandApart(headless, true);
  }

  lemma WordHasTwoAtMost(subject: string, w: string)
    requires subject == TWO_LINES && IsWord(w) && Contains(subject, w)
    ensures |w| < 3
  {
    var i: nat :| i <= |subject| && At(subject, w, i);
    assert forall k | 0 <= k < |w| :: subject[i + k] == w[k];
    assert IsSpace(subject[2]) && IsSpace(subject[4]) && IsSpace(subject[6]);
  }

  lemma ShortWord(subject: string, w: string, lower: Lowering)
    requires subject == TWO_LINES && IsWord(w) && Contains(subject, w)
    requires forall i | 0 <= i < |subject| :: lower(subject[i]) == subject[i]
    ensures ByteLen(Bare(w, lower)) < 3
  {
    WordHasTwoAtMost(subject, w);
    forall k | 0 <= k < |w|
      ensures w[k] in subject
    {
      PartsShareCharacters(subject, w, k);
    }
    var lowered := ToLower(w, lower);
    var bare := Bare(w, lower);
    TrimIsContained(lowered, InCutset);
    forall k | 0 <= k < |bare|
      ensures bare[k] as int < 0x80
    {
      PartsShareCharacters(lowered, bare, k);
    }
    AsciiLength(bare);
  }

  // ---------------------------------------------------------------- code before the rule

  /** The first token of `last` starts with `c`. */
  predicate Starts(last: string, c: char) {
    Skip(last) != [] && Skip(last)[0] == c
  }

  /** No literal begun in `a` goes on in `last`. */
  predicate Tight(a: string, last: string) {
    ReadBody(last).None? || a == [] || a[|a| - 1] != '\\'
  }

  lemma TightSuffix(b: string, a: string, last: string)
    requires IsSuffix(b, a) && Tight(a, last)
    ensures Tight(b, last)
  {
    if b != [] {
      assert b[|b| - 1] == a[|a| - |b|..][|b| - 1];
    }
  }

  lemma CloseFollowed(a: string, last: string, c: char)
    requires Starts(last, c) && (c == 'i' || c == 'm')
    ensures !ReadClose(Followed(a, last))
  {
    if Symbol(Followed(a, last), ")").Some? {
      var b := SymbolFollowed(a, last, ")");
      if Word(Followed(b, last), "end").Some? {
        var d := WordFollowed(b, last, "end");
        SkipFollowed(d, '\n', last);
      }
    }
  }

  /** A call that starts before the rule can end only by a literal that goes on in the rule. */
  lemma CallFollowed(a: string, last: string, c: char)
    requires Starts(last, c) && (c == 'i' || c == 'm')
    ensures ReadCall(Followed(a, last)).Some? ==>
              !Tight(a, last) && ReadClose(ReadBody(last).value.1)
  {
    if Symbol(Followed(a, last), "(").Some? {
      var b := SymbolFollowed(a, last, "(");
      if Literal(Followed(b, last)).Some? {
        var d := LiteralFollowed(b, last);
        var r := Literal(Followed(b, last)).value.1;
        if Escapes(b, last, r) {
          EscapesFromSuffix(b, a, last, r);
        } else {
          CloseFollowed(d, last, c);
        }
      }
    }
  }

  lemma TailFollowed(a: string, last: string)
    requires Starts(last, 'i')
    ensures ReadTail(Followed(a, last)).Some? ==>
              !Tight(a, last) && ReadClose(ReadBody(last).value.1)
  {
    if Word(Followed(a, last), "then").Some? {
      var b := WordFollowed(a, last, "then");
      if Word(Followed(b, last), "move").Some? {
        var d := WordFollowed(b, last, "move");
        SuffixOfSuffix(d, b, a);
        CallFollowed(d, last, 'i');
        if Tight(a, last) {
          TightSuffix(d, a, last);
        }
      }
    }
  }

  /** Reading a token other than `if` before the rule, which starts with `i`. */
  lemma WordBefore(a0: string, a: string, last: string, w: string) returns (b: string)
    requires Starts(last, 'i') && w != "" && OneLine(w) && w[0] != 'i' && IsSuffix(a, a0)
    requires Word(Followed(a, last), w).Some?
    ensures IsSuffix(b, a0) && Word(Followed(a, last), w) == Some(Followed(b, last))
  {
    b := WordFollowed(a, last, w);
    SuffixOfSuffix(b, a, a0);
  }

  lemma SymbolBefore(a0: string, a: string, last: string, p: string) returns (b: string)
    requires Starts(last, 'i') && p != "" && OneLine(p) && p[0] != 'i' && IsSuffix(a, a0)
    requires Symbol(Followed(a, last), p).Some?
    ensures IsSuffix(b, a0) && Symbol(Followed(a, last), p) == Some(Followed(b, last))
  {
    b := SymbolFollowed(a, last, p);
    SuffixOfSuffix(b, a, a0);
  }

  lemma FieldFollowed(a0: string, a: string, last: string, field: string) returns (b: string)
    requires Starts(last, 'i') && field != "" && OneLine(field) && field[0] != 'i' && IsSuffix(a, a0)
    requires Field(Followed(a, last), field).Some?
    ensures IsSuffix(b, a0) && Field(Followed(a, last), field) == Some(Followed(b, last))
  {
    var a1 := WordBefore(a0, a, last, "email");
    var a2 := SymbolBefore(a0, a1, last, ".");
    b := WordBefore(a0, a2, last, field);
  }

  lemma SenderFollowed(a: string, last: string) returns (b: string)
    requires Starts(last, 'i') && ReadSender(Followed(a, last)).Some?
    ensures var r := ReadSender(Followed(a, last)).value.1;
            (IsSuffix(b, a) && r == Followed(b, last)) || Escapes(a, last, r)
  {
    var a1 := FieldFollowed(a, a, last, "sender");
    var a2 := SymbolBefore(a, a1, last, "==");
    b := LiteralFollowed(a2, last);
    var r := Literal(Followed(a2, last)).value.1;
    if Escapes(a2, last, r) {
      EscapesFromSuffix(a2, a, last, r);
    } else {
      SuffixOfSuffix(b, a2, a);
    }
  }

  predicate OtherToken(w: string) {
    w != "" && OneLine(w) && w[0] != 'i'
  }

  lemma HeadFollowed(a: string, last: string, w: string, p: string, field: string, q: string) returns (b: string)
    requires Starts(last, 'i') && OtherToken(w) && OtherToken(p) && OtherToken(field) && OtherToken(q)
    requires Head(Followed(a, last), w, p, field, q).Some?
    ensures IsSuffix(b, a) && Head(Followed(a, last), w, p, field, q) == Some(Followed(b, last))
  {
    var a1 := WordBefore(a, a, last, w);
    var a2 := SymbolBefore(a, a1, last, p);
    var a3 := FieldFollowed(a, a2, last, field);
    b := SymbolBefore(a, a3, last, q);
  }

  lemma KeywordHeadFollowed(a: string, last: string) returns (b: string)
    requires Starts(last, 'i') && KeywordHead(Followed(a, last)).Some?
    ensures IsSuffix(b, a) && KeywordHead(Followed(a, last)) == Some(Followed(b, last))
  {
    KeywordTokens();
    b := HeadFollowed(a, last, "contains", "(", "subject", ",");
  }

  lemma KeywordTokens()
    ensures OtherToken("contains") && OtherToken("(") && OtherToken("subject") && OtherToken(",")
  {
  }

  /** A literal and the parenthesis after it. */
  function LastArgument(s: string): Option<string> {
    match Literal(s)
    case None => None
    case Some((_, s1)) => Symbol(s1, ")")
  }

  lemma LastArgumentFollowed(a: string, last: string) returns (b: string)
    requires Starts(last, 'i') && Tight(a, last) && LastArgument(Followed(a, last)).Some?
    ensures IsSuffix(b, a) && LastArgument(Followed(a, last)) == Some(Followed(b, last))
  {
    var a1 := LiteralFollowed(a, last);
    b := SymbolBefore(a, a1, last, ")");
  }

  lemma KeywordFollowed(a: string, last: string) returns (b: string)
    requires Starts(last, 'i') && Tight(a, last) && ReadKeyword(Followed(a, last)).Some?
    ensures IsSuffix(b, a) && ReadKeyword(Followed(a, last)).value.1 == Followed(b, last)
  {
    var a1 := KeywordHeadFollowed(a, last);
    TightSuffix(a1, a, last);
    b := LastArgumentFollowed(a1, last);
    SuffixOfSuffix(b, a1, a);
  }

  lemma {:induction false} KeywordsFollowed(a: string, last: string) returns (b: string)
    requires Starts(last, 'i') && Tight(a, last) && ReadKeywords(Followed(a, last)).Some?
    ensures IsSuffix(b, a) && ReadKeywords(Followed(a, last)).value.1 == Followed(b, last)
    decreases |a|
  {
    b := KeywordFollowed(a, last);
    var s1 := Followed(b, last);
    if Word(s1, "or").Some? {
      var d := WordFollowed(b, last, "or");
      SuffixOfSuffix(d, b, a);
      TightSuffix(d, a, last);
      b := KeywordsFollowed(d, last);
      SuffixOfSuffix(b, d, a);
    }
  }

  lemma ConditionFollowed(a: string, last: string) returns (b: string)
    requires Starts(last, 'i') && Tight(a, last) && ReadCondition(Followed(a, last)).Some?
    ensures IsSuffix(b, a) && ReadCondition(Followed(a, last)).value.1 == Followed(b, last)
  {
    if Word(Followed(a, last), "false").Some? {
      b := WordFollowed(a, last, "false");
    } else if ReadSender(Followed(a, last)).Some? {
      b := SenderFollowed(a, last);
    } else {
      b := KeywordsFollowed(a, last);
    }
  }

  /** Code before the rule: blanks and comments change nothing, and with anything else the
      text is outside the fragment, because the `if` of the rule still follows. */
  lemma RuleFollowed(a: string, last: string)
    requires Starts(last, 'i') && Tight(a, last)
    ensures ReadRule(Followed(a, last)) == if Skip(a) == [] then ReadRule(last) else None
  {
    SkipFollowed(a, '\n', last);
    if Skip(a) != [] && Word(Followed(a, last), "if").Some? {
      var b := WordFollowed(a, last, "if");
      TightSuffix(b, a, last);
      if ReadCondition(Followed(b, last)).Some? {
        var d := ConditionFollowed(b, last);
        TightSuffix(d, b, last);
        TailFollowed(d, last);
      }
    }
  }

  // ---------------------------------------------------------------- the printed folder

  /** The printed argument is read back exactly when the folder is clean. */
  lemma CallReadsBackIff(folder: string)
    ensures ReadCall(Call(folder)) == Some(folder) <==> Clean(folder)
  {
    if Clean(folder) {
      CallReadsBack(folder);
    }
    CallTakes(Call(folder));
    CallInk(folder);
    CountZero(folder, IsSpecial);
  }

  lemma LiteralBody(text: string, rest: string)
    ensures Literal(Quote(text, rest)) == ReadBody(text + ("\"" + rest))
  {
    SkipStops(Quote(text, rest));
    assert Quote(text, rest)[1..] == text + ("\"" + rest);
  }

  // ---------------------------------------------------------------- disabled rules

  lemma DisabledReadsBackIff(folder: string)
    ensures ReadRule(Disabled(folder)) == Some(MoveRule(Never, folder)) <==> Clean(folder)
    ensures Starts(Disabled(folder), 'i')
  {
    var condition := "false" + Tail(folder);
    BlankBefore(' ', condition, "false");
    WordAt("false", Tail(folder));
    WordAt("if", [' '] + condition);
    SkipStops(Disabled(folder));
    TailReads(folder);
    CallReadsBackIff(folder);
  }

  /** Two comments and a third whose line does not end: the second goes on with `quoted`. */
  function Comments(first: string, head: string, quoted: string, third: string): string {
    CommentLine(first, CommentLine(head + quoted, ['-', '-', ' '] + third))
  }

  lemma CommentLineFollowed(text: string, a: string, last: string)
    ensures CommentLine(text, Followed(a, last)) == Followed(CommentLine(text, a), last)
  {
    var z := ['\n'] + last;
    assert ['-', '-', ' '] + (text + (['\n'] + (a + z))) == ['-', '-', ' '] + (text + (['\n'] + a)) + z;
  }

  lemma CommentsFollowed(first: string, head: string, quoted: string, third: string, rule: string)
    ensures CommentLine(first, CommentLine(head + quoted, CommentLine(third, rule))) ==
            Followed(Comments(first, head, quoted, third), rule)
    ensures third != "" ==>
              var a := Comments(first, head, quoted, third); a != [] && a[|a| - 1] == third[|third| - 1]
  {
    var a := ['-', '-', ' '] + third;
    assert CommentLine(third, rule) == Followed(a, rule);
    CommentLineFollowed(head + quoted, a, rule);
    CommentLineFollowed(first, CommentLine(head + quoted, a), rule);
  }

  lemma {:induction false} LinesAfterHead(head: string, text: string)
    requires OneLine(head)
    ensures OneLine(head + text) <==> OneLine(text)
    ensures AfterLine(head + text) == AfterLine(text)
    decreases |head|
  {
    if head == [] {
      assert head + text == text;
    } else {
      assert (head + text)[1..] == head[1..] + text;
      assert !IsNewline(head[0]);
      LinesAfterHead(head[1..], text);
      assert OneLine(head + text) <==> OneLine((head + text)[1..]) by {
        assert forall i | 0 < i < |head + text| :: (head + text)[i] == (head + text)[1..][i - 1];
      }
    }
  }

  /** If the rest is on one line each, the comments are silent exactly when the later lines of
      the quoted text are. */
  lemma CommentsAreSilentIff(first: string, head: string, quoted: string, third: string)
    requires OneLine(first) && OneLine(head) && OneLine(third)
    ensures Skip(Comments(first, head, quoted, third)) == [] <==> QuietLines(AfterLine(quoted))
  {
    var a := ['-', '-', ' '] + third;
    CommentWithLines(first, CommentLine(head + quoted, a));
    CommentWithLines(head + quoted, a);
    LinesAfterHead(head, quoted);
    LastComment(third);
    SkipFollowed(AfterLine(quoted), '\n', a);
    QuietLinesAreSkipped(AfterLine(quoted));
    if OneLine(quoted) {
      AfterLineFollowed(quoted, '\n', []);
    }
  }

  lemma FolderCommentIsOneLine(folder: string)
    requires Clean(folder)
    ensures OneLine("Auto-learned: move to " + folder + " (no keywords extracted)")
  {
    Around("Auto-learned: move to ", folder, " (no keywords extracted)");
  }

  lemma LastComment(todo: string)
    requires OneLine(todo)
    ensures Skip(['-', '-', ' '] + todo) == []
  {
    var a := ['-', '-', ' '] + todo;
    assert a[2..] == [' '] + todo;
    LinesAfterHead([' '], todo);
    SkipComment(a, '\n', []);
  }

  /** The text of a rule without keywords is, in the fragment, the disabled rule for its folder
      exactly when the folder is clean and every line of the truncated subject after the first
      is blank or a short comment.  With a clean folder and any other subject it is outside the
      fragment; what it then runs first is said by DisabledRuleRuns. */
  lemma DisabledRuleReadsBackIff(subject: string, folder: string)
    ensures ReadRule(InferFromKeywords([], subject, folder)) == Some(MoveRule(Never, folder)) <==>
            Clean(folder) && QuietLines(AfterLine(Truncate(subject, 80)))
    ensures Clean(folder) && !QuietLines(AfterLine(Truncate(subject, 80))) ==>
              ReadRule(InferFromKeywords([], subject, folder)) == None
  {
    var first := "Auto-learned: move to " + folder + " (no keywords extracted)";
    if Clean(folder) {
      FolderCommentIsOneLine(folder);
    }
    CommentedRule(first, "Subject was: ", Truncate(subject, 80), TODO, folder);
  }

  /** A subject that is cut to one line is always good enough. */
  lemma OneLineIsQuiet(subject: string)
    requires OneLine(subject)
    ensures QuietLines(AfterLine(Truncate(subject, 80)))
  {
    TruncateIsOneLine(subject, 80);
    AfterLineFollowed(Truncate(subject, 80), '\n', []);
    assert LineLength([]) == 0;
  }

  lemma CommentedRule(first: string, head: string, quoted: string, third: string, folder: string)
    requires Clean(folder) ==> OneLine(first)
    requires OneLine(head) && OneLine(third) && third != "" && third[|third| - 1] != '\\'
    ensures var rule := ReadRule(CommentLine(first, CommentLine(head + quoted, CommentLine(third, Disabled(folder)))));
            && (rule == Some(MoveRule(Never, folder)) <==> Clean(folder) && QuietLines(AfterLine(quoted)))
            && (Clean(folder) && !QuietLines(AfterLine(quoted)) ==> rule == None)
  {
    var a := Comments(first, head, quoted, third);
    CommentsFollowed(first, head, quoted, third, Disabled(folder));
    DisabledReadsBackIff(folder);
    RuleFollowed(a, Disabled(folder));
    if Clean(folder) {
      CommentsAreSilentIff(first, head, quoted, third);
    }
  }

  // ---------------------------------------------------------------- sender rules

  /** The rule after the comment. */
  function SenderRule(sender: string, folder: string): string {
    "if" + ([' '] + SenderCondition(sender, Tail(folder)))
  }

  lemma SenderConditionReads(sender: string, rest: string)
    ensures var condition := SenderCondition(sender, rest);
            && Word(condition, "false") == None
            && ReadSender(condition) == ReadBody(EscapeQuotes(sender) + ("\"" + rest))
            && Word(condition, "contains") == None
  {
    var s4 := [' '] + Quote(EscapeQuotes(sender), rest);
    var s2 := "sender" + ([' '] + ("==" + s4));
    EmailReads(s2);
    EqualsReads(s4);
    BlankBefore(' ', Quote(EscapeQuotes(sender), rest), "");
    LiteralBody(EscapeQuotes(sender), rest);
    OtherWord("email" + ("." + s2), "false");
    OtherWord("email" + ("." + s2), "contains");
  }

  /** Without the comment: the rule is read back exactly when its literals are. */
  lemma BareSenderRuleIff(sender: string, folder: string)
    ensures ReadRule(SenderRule(sender, folder)) == Some(MoveRule(SenderIs(sender), folder)) <==>
            Plain(sender) && Clean(folder)
    ensures Starts(SenderRule(sender, folder), 'i')
  {
    var condition := SenderCondition(sender, Tail(folder));
    SkipStops(SenderRule(sender, folder));
    WordAt("if", [' '] + condition);
    SenderConditionReads(sender, Tail(folder));
    BlankBefore(' ', condition, "false");
    BlankBefore(' ', condition, "contains");
    BlankKeywords(condition);
    if Plain(sender) && Clean(folder) {
      PlainReadsBack(sender, Tail(folder));
      TailReadsBack(folder);
    } else if ReadSender(condition).Some? {
      SenderWeighs(condition, sender, folder);
    }
  }

  lemma SenderWeighs(condition: string, sender: string, folder: string)
    requires condition == SenderCondition(sender, Tail(folder)) && ReadSender(condition).Some?
    ensures ReadSender(condition).value.0 == sender && ReadTail(ReadSender(condition).value.1) == Some(folder) ==>
              Plain(sender) && Clean(folder)
  {
    SenderTakes(condition);
    TailTakes(ReadSender(condition).value.1);
    SenderInk(sender, Tail(folder));
    TailInk(folder);
    NeedSplits(sender);
    CountZero(folder, IsSpecial);
  }

  /** What follows the first quote of the rule, as a line and the line after it. */
  function AfterFirstQuote(sender: string): string {
    EscapeQuotes(sender) + ("\"" + ([' '] + "then"))
  }

  lemma FirstQuote(sender: string, folder: string)
    ensures ReadBody(SenderRule(sender, folder)) ==
            Some(("if email.sender == ", Followed(AfterFirstQuote(sender), MoveLine(folder))))
    ensures Starts(MoveLine(folder), 'm')
  {
    var head := "if email.sender == ";
    var rest := EscapeQuotes(sender) + ("\"" + Tail(folder));
    RuleText(sender, folder, head);
    RawReadsBackIff(head, rest);
    var z := ['\n'] + MoveLine(folder);
    assert rest == EscapeQuotes(sender) + ("\"" + ([' '] + "then")) + z;
    MoveLineReads(folder);
  }

  lemma RuleText(sender: string, folder: string, head: string)
    requires head == "if email.sender == "
    ensures SenderRule(sender, folder) == head + ("\"" + (EscapeQuotes(sender) + ("\"" + Tail(folder))))
    ensures Clean(head)
  {
    var rest := EscapeQuotes(sender) + ("\"" + Tail(folder));
    assert head == "if" + ([' '] + ("email" + ("." + ("sender" + ([' '] + ("==" + [' '])))))) ;
    assert SenderRule(sender, folder) ==
           "if" + ([' '] + ("email" + ("." + ("sender" + ([' '] + ("==" + [' '])))))) + (['"'] + rest);
  }

  lemma CallInside(a: string, folder: string)
    requires Tight(a, MoveLine(folder)) && Starts(MoveLine(folder), 'm') && Skip(a) != []
    requires Word(Followed(a, MoveLine(folder)), "move").Some?
    ensures ReadCall(Word(Followed(a, MoveLine(folder)), "move").value) == None
  {
    var b := WordFollowed(a, MoveLine(folder), "move");
    TightSuffix(b, a, MoveLine(folder));
    CallFollowed(b, MoveLine(folder), 'm');
  }

  /** A tail that a literal reached across the line break gives a clean folder only. */
  lemma TailAfterFirstQuote(a: string, folder: string)
    requires Tight(a, MoveLine(folder)) && Starts(MoveLine(folder), 'm')
    requires ReadTail(Followed(a, MoveLine(folder))) == Some(folder)
    ensures Clean(folder)
  {
    var last := MoveLine(folder);
    var b := WordFollowed(a, last, "then");
    TightSuffix(b, a, last);
    if Skip(b) == [] {
      SkipFollowed(b, '\n', last);
      MoveLineReads(folder);
      CallReadsBackIff(folder);
    } else {
      CallInside(b, folder);
    }
  }

  /** Code before a rule whose first literal ends within the line before the move. */
  lemma CodeBefore(a: string, last: string, c: string, sender: string, folder: string)
    requires Skip(a) != [] && Starts(last, 'i') && Starts(MoveLine(folder), 'm') && Tight(c, MoveLine(folder))
    requires ReadBody(last).Some? && ReadBody(last).value.1 == Followed(c, MoveLine(folder))
    requires ReadRule(Followed(a, last)) == Some(MoveRule(SenderIs(sender), folder))
    ensures Clean(folder)
  {
    CloseFollowed(c, MoveLine(folder), 'm');
    var a1 := WordFollowed(a, last, "if");
    SenderIsRead(Followed(a, last), sender, folder);
    var a2 := SenderFollowed(a1, last);
    var r := ReadSender(Followed(a1, last)).value.1;
    if Escapes(a1, last, r) {
      TailAfterFirstQuote(c, folder);
    } else {
      TailFollowed(a2, last);
    }
  }

  lemma SenderIsRead(s: string, sender: string, folder: string)
    requires ReadRule(s) == Some(MoveRule(SenderIs(sender), folder))
    ensures var s1 := Word(s, "if").value;
            ReadSender(s1).Some? && ReadTail(ReadSender(s1).value.1) == Some(folder)
  {
  }

  /** Code before a sender rule does not yield the rule unless the folder is clean. */
  lemma CodeBeforeSenderRule(a: string, sender: string, folder: string)
    requires Skip(a) != []
    requires ReadRule(Followed(a, SenderRule(sender, folder))) == Some(MoveRule(SenderIs(sender), folder))
    ensures Clean(folder)
  {
    var c := AfterFirstQuote(sender);
    BareSenderRuleIff(sender, folder);
    FirstQuote(sender, folder);
    assert c[|c| - 1] == "then"[3];
    CodeBefore(a, SenderRule(sender, folder), c, sender, folder);
  }

  lemma SenderRuleUnderLine(line: string, sender: string, folder: string)
    requires Clean(folder) ==> line != [] && line[|line| - 1] != '\\'
    requires ReadRule(CommentLine(line, SenderRule(sender, folder))) == Some(MoveRule(SenderIs(sender), folder))
    ensures Plain(sender) && Clean(folder)
  {
    var a, last := ['-', '-', ' '] + line, SenderRule(sender, folder);
    assert CommentLine(line, last) == Followed(a, last);
    BareSenderRuleIff(sender, folder);
    SkipFollowed(a, '\n', last);
    if Skip(a) != [] {
      CodeBeforeSenderRule(a, sender, folder);
      RuleFollowed(a, last);
    }
  }

  /** A sender rule is read back exactly when the sender has no backslash and no line break
      and the folder has no quote either, whatever the comment above it is taken for. */
  lemma SenderRuleReadsBackIff(sender: string, folder: string)
    ensures ReadRule(InferFromSender(sender, folder)) == Some(MoveRule(SenderIs(sender), folder)) <==>
            Plain(sender) && Clean(folder)
  {
    if Plain(sender) && Clean(folder) {
      SenderRuleReadsBack(sender, folder);
    } else {
      var line := "Auto-learned: move emails from " + sender + " to " + folder;
      CleanEnd("Auto-learned: move emails from " + sender, " to ", folder);
      if ReadRule(InferFromSender(sender, folder)) == Some(MoveRule(SenderIs(sender), folder)) {
        SenderRuleUnderLine(line, sender, folder);
      }
    }
  }

  lemma CleanEnd(head: string, to: string, folder: string)
    requires to != "" && to[|to| - 1] != '\\'
    ensures var line := head + to + folder; Clean(folder) ==> line != [] && line[|line| - 1] != '\\'
  {
    var line := head + to + folder;
    if folder == [] {
      assert line == head + to;
    } else {
      assert line[|line| - 1] == folder[|folder| - 1];
      assert Clean(folder) ==> !IsSpecial(folder[|folder| - 1]);
    }
  }

  // ---------------------------------------------------------------- keyword rules

  /** The rule after the comment. */
  function BareKeywordRule(keywords: seq<string>, folder: string): string
    requires keywords != []
  {
    "if" + ([' '] + AnyKeyword(keywords, Tail(folder)))
  }

  lemma KeywordsWeigh(keywords: seq<string>, folder: string)
    requires keywords != []
    ensures var r := ReadKeywords([' '] + AnyKeyword(keywords, Tail(folder)));
            r.Some? && r.value.0 == keywords && ReadTail(r.value.1) == Some(folder) ==>
              Clean(folder) && forall i | 0 <= i < |keywords| :: Plain(keywords[i])
  {
    var text := AnyKeyword(keywords, Tail(folder));
    BlankThen(' ', text);
    KeywordsTake([' '] + text);
    KeywordsInk(keywords, Tail(folder));
    TailInk(folder);
    if ReadKeywords([' '] + text).Some? {
      TailTakes(ReadKeywords([' '] + text).value.1);
    }
    BreaksZero(keywords);
    CountZero(folder, IsSpecial);
  }

  lemma BareKeywordRuleIff(keywords: seq<string>, folder: string)
    requires keywords != []
    ensures ReadRule(BareKeywordRule(keywords, folder)) == Some(MoveRule(SubjectHasAny(keywords), folder)) <==>
            Clean(folder) && forall i | 0 <= i < |keywords| :: Plain(keywords[i])
    ensures Starts(BareKeywordRule(keywords, folder), 'i')
  {
    var text := [' '] + AnyKeyword(keywords, Tail(folder));
    SkipStops(BareKeywordRule(keywords, folder));
    WordAt("if", text);
    if Clean(folder) && forall i | 0 <= i < |keywords| :: Plain(keywords[i]) {
      KeywordConditionReads(keywords, folder);
      TailReadsBack(folder);
    } else {
      KeywordsWeigh(keywords, folder);
    }
  }

  /** A keyword rule is read back exactly when its folder is clean and no keyword has a
      backslash or a line break: no other reading of the text gives the same keywords. */
  lemma KeywordRuleReadsBackIff(keywords: seq<string>, subject: string, folder: string)
    requires keywords != []
    ensures ReadRule(InferFromKeywords(keywords, subject, folder)) == Some(MoveRule(SubjectHasAny(keywords), folder)) <==>
            Clean(folder) && forall i | 0 <= i < |keywords| :: Plain(keywords[i])
  {
    if Clean(folder) && forall i | 0 <= i < |keywords| :: Plain(keywords[i]) {
      KeywordRuleReadsBack(keywords, subject, folder);
    } else {
      var line := "Auto-learned: move to " + folder + " based on subject keywords";
      LastOf("Auto-learned: move to " + folder, " based on subject keywords");
      UnderLine(line, BareKeywordRule(keywords, folder), keywords, folder);
    }
  }

  lemma LastOf(head: string, end: string)
    requires end != ""
    ensures (head + end)[|head + end| - 1] == end[|end| - 1]
  {
  }

  lemma UnderLine(line: string, rule: string, keywords: seq<string>, folder: string)
    requires keywords != [] && rule == BareKeywordRule(keywords, folder)
    requires line != [] && line[|line| - 1] != '\\'
    ensures ReadRule(CommentLine(line, rule)) == Some(MoveRule(SubjectHasAny(keywords), folder)) ==>
              Clean(folder) && forall i | 0 <= i < |keywords| :: Plain(keywords[i])
  {
    var a := ['-', '-', ' '] + line;
    assert CommentLine(line, rule) == Followed(a, rule);
    BareKeywordRuleIff(keywords, folder);
    RuleFollowed(a, rule);
  }

  // ---------------------------------------------------------------- a backslash in a keyword

  lemma {:induction false} EscapeConcat(a: string, b: string)
    ensures EscapeQuotes(a + b) == EscapeQuotes(a) + EscapeQuotes(b)
  {
    if a == [] {
      assert a + b == b;
    } else {
      assert (a + b)[1..] == a[1..] + b;
      EscapeConcat(a[1..], b);
    }
  }

  lemma EscapeThen(c: char, text: string, tail: string)
    requires !IsBreaking(c)
    ensures ReadBody(EscapeQuotes([c] + text) + tail) == Prepend(c, ReadBody(EscapeQuotes(text) + tail))
  {
    var s, more := [c] + text, EscapeQuotes(text) + tail;
    assert s[1..] == text;
    if c == '"' {
      assert EscapeQuotes(s) + tail == ['\\', '"'] + more;
      ReadEscapedQuote(more);
    } else {
      assert EscapeQuotes(s) + tail == [c] + more;
      ReadPlainChar(c, more);
    }
  }

  /** A plain beginning of a literal is read as itself, whatever follows. */
  lemma {:induction false} PlainThenReads(a: string, tail: string)
    requires Plain(a) && ReadBody(tail).Some?
    ensures ReadBody(EscapeQuotes(a) + tail) == Some((a + ReadBody(tail).value.0, ReadBody(tail).value.1))
    decreases |a|
  {
    var v := ReadBody(tail).value.0;
    if a == [] {
      assert EscapeQuotes(a) + tail == tail && a + v == v;
    } else {
      PlainThenReads(a[1..], tail);
      EscapeThen(a[0], a[1..], tail);
      assert [a[0]] + a[1..] == a && [a[0]] + (a[1..] + v) == a + v;
    }
  }

  lemma TabIsRead(tail: string)
    ensures ReadBody("\\t" + tail) == Prepend('\t', ReadBody(tail))
  {
    var s := "\\t" + tail;
    assert s[0] == '\\' && s[1..][0] == 't' && s[2..] == tail;
  }

  lemma EscapedTab(a: string, b: string, end: string)
    ensures EscapeQuotes(a + ("\\t" + b)) + end == EscapeQuotes(a) + ("\\t" + (EscapeQuotes(b) + end))
  {
    EscapeConcat(a, "\\t" + b);
    EscapeConcat("\\t", b);
    CleanPart();
    Regroup(EscapeQuotes(a), "\\t", EscapeQuotes(b), end);
  }

  lemma Regroup(a: string, b: string, c: string, d: string)
    ensures a + (b + c) + d == a + (b + (c + d))
  {
  }

  /** A backslash before a `t` is printed as it is and read as a tab. */
  lemma BackslashIsMisread(a: string, b: string, rest: string)
    requires Plain(a) && Plain(b)
    ensures ReadBody(EscapeQuotes(a + ("\\t" + b)) + ("\"" + rest)) == Some((a + ("\t" + b), rest))
  {
    var tail := EscapeQuotes(b) + ("\"" + rest);
    EscapedTab(a, b, "\"" + rest);
    PlainReadsBack(b, rest);
    TabIsRead(tail);
    PlainThenReads(a, "\\t" + tail);
    assert ['\t'] + b == "\t" + b;
  }

  lemma CleanPart()
    ensures EscapeQuotes("\\t") == "\\t"
  {
    var s := "\\t";
    assert s[1..] == "t" && "t"[1..] == "";
    assert EscapeQuotes("t") == "t";
  }

  /** Such a keyword, for instance c:\temp, gives a rule that looks for a tab instead. */
  lemma BackslashRuleIsMisread(a: string, b: string, subject: string, folder: string)
    requires Plain(a) && Plain(b) && Clean(folder)
    ensures ReadRule(InferFromKeywords([a + ("\\t" + b)], subject, folder)) ==
            Some(MoveRule(SubjectHasAny([a + ("\t" + b)]), folder))
  {
    BackslashIsMisread(a, b, ")" + Tail(folder));
    OneKeywordRule(a + ("\\t" + b), a + ("\t" + b), subject, folder);
  }

  lemma OneKeywordRule(keyword: string, value: string, subject: string, folder: string)
    requires Clean(folder)
    requires ReadBody(EscapeQuotes(keyword) + ("\"" + (")" + Tail(folder)))) == Some((value, ")" + Tail(folder)))
    ensures ReadRule(InferFromKeywords([keyword], subject, folder)) == Some(MoveRule(SubjectHasAny([value]), folder))
  {
    var condition := KeywordCondition(keyword, Tail(folder));
    assert AnyKeyword([keyword], Tail(folder)) == condition;
    TailReadsBack(folder);
    KeywordReadsAs(keyword, value, Tail(folder));
    BlankBefore(' ', condition, "false");
    BlankKeywords(condition);
    RuleReads(condition, SubjectHasAny([value]), folder);
    KeywordCommentIsOneLine(folder);
    CommentsAreSkipped("Auto-learned: move to " + folder + " based on subject keywords", "if" + ([' '] + condition));
  }
}
