/** Learned rules: what InferRule prints, read back as Lua
    (internal/movedetect/infer.go, internal/engine/engine.go).

    Strings are sequences of Unicode characters. */
module LearnedRules {

  import opened Common
  import opened LuaLiterals
  import opened KeywordExtraction

  // ---------------------------------------------------------------- the printer

  // Each printer takes the text that follows, so that a printed rule is its pieces in order.

  /** The argument of the move and everything after it. */
  function Call(folder: string): string {
    "(" + Quote(folder, ")" + (['\n'] + ("end" + "")))
  }

  /** The body of the rule. */
  function MoveLine(folder: string): string {
    [' '] + ([' '] + ("move" + Call(folder)))
  }

  /** Everything after the condition. */
  function Tail(folder: string): string {
    [' '] + ("then" + (['\n'] + MoveLine(folder)))
  }

  function SenderCondition(sender: string, rest: string): string {
    "email" + ("." + ("sender" + ([' '] + ("==" + ([' '] + Quote(EscapeQuotes(sender), rest))))))
  }

  function InferFromSender(sender: string, folder: string): string {
    CommentLine("Auto-learned: move emails from " + sender + " to " + folder,
      "if" + ([' '] + SenderCondition(sender, Tail(folder))))
  }

  function KeywordCondition(keyword: string, rest: string): string {
    "contains" + ("(" + ("email" + ("." + ("subject" + ("," + ([' '] + Quote(EscapeQuotes(keyword), ")" + rest)))))))
  }

  /** The conditions joined by " or ". */
  function AnyKeyword(keywords: seq<string>, rest: string): string
    requires keywords != []
  {
    if |keywords| == 1 then KeywordCondition(keywords[0], rest)
    else KeywordCondition(keywords[0], [' '] + ("or" + ([' '] + AnyKeyword(keywords[1..], rest))))
  }

  function InferFromKeywords(keywords: seq<string>, subject: string, folder: string): string {
    if keywords == [] then
      CommentLine("Auto-learned: move to " + folder + " (no keywords extracted)",
        CommentLine("Subject was: " + Truncate(subject, 80),
          CommentLine("TODO: refine this rule manually",
            "if" + ([' '] + ("false" + Tail(folder))))))
    else
      CommentLine("Auto-learned: move to " + folder + " based on subject keywords",
        "if" + ([' '] + AnyKeyword(keywords, Tail(folder))))
  }

  /** The longest prefix of at most `n` bytes. */
  function TakeBytes(s: string, n: int): string {
    if s == [] || CharBytes(s[0]) > n then [] else [s[0]] + TakeBytes(s[1..], n - CharBytes(s[0]))
  }

  function Truncate(s: string, maxLen: nat): string {
    if ByteLen(s) <= maxLen then s else TakeBytes(s, maxLen - 3) + "..."
  }

  // ---------------------------------------------------------------- the reader

  datatype Condition = Never | SenderIs(sender: string) | SubjectHasAny(keywords: seq<string>)

  /** A rule that moves a message to a folder. */
  datatype MoveRule = MoveRule(condition: Condition, folder: string)

  /** The end of the call, of the rule and of the text. */
  predicate ReadClose(s: string) {
    match Symbol(s, ")")
    case None => false
    case Some(s1) => match Word(s1, "end")
    case None => false
    case Some(s2) => Skip(s2) == []
  }

  /** The argument of the move, up to the end of the text. */
  function ReadCall(s: string): Option<string> {
    match Symbol(s, "(")
    case None => None
    case Some(s1) => match Literal(s1)
    case None => None
    case Some((folder, s2)) => if ReadClose(s2) then Some(folder) else None
  }

  function ReadTail(s: string): Option<string> {
    match Word(s, "then")
    case None => None
    case Some(s1) => match Word(s1, "move")
    case None => None
    case Some(s2) => ReadCall(s2)
  }

  /** `email`, a dot and a field. */
  function Field(s: string, field: string): Option<string> {
    match Word(s, "email")
    case None => None
    case Some(s1) => match Symbol(s1, ".")
    case None => None
    case Some(s2) => Word(s2, field)
  }

  function ReadSender(s: string): Option<(string, string)> {
    match Field(s, "sender")
    case None => None
    case Some(s1) => match Symbol(s1, "==")
    case None => None
    case Some(s2) => Literal(s2)
  }

  /** A word, a symbol, a field of the email and a symbol. */
  function Head(s: string, w: string, p: string, field: string, q: string): Option<string> {
    match Word(s, w)
    case None => None
    case Some(s1) => match Symbol(s1, p)
    case None => None
    case Some(s2) => match Field(s2, field)
    case None => None
    case Some(s3) => Symbol(s3, q)
  }

  /** The text of a keyword condition up to its literal. */
  function KeywordHead(s: string): Option<string> {
    Head(s, "contains", "(", "subject", ",")
  }

  function ReadKeyword(s: string): Option<(string, string)> {
    match KeywordHead(s)
    case None => None
    case Some(s1) => match Literal(s1)
    case None => None
    case Some((keyword, s2)) => match Symbol(s2, ")")
    case None => None
    case Some(s3) => Some((keyword, s3))
  }

  /** Conditions joined by `or`. */
  function ReadKeywords(s: string): Option<(seq<string>, string)>
    decreases |s|
  {
    match ReadKeyword(s)
    case None => None
    case Some((keyword, s1)) =>
      if |s1| >= |s| then None
      else match Word(s1, "or")
        case None => Some(([keyword], s1))
        case Some(s2) => match ReadKeywords(s2)
          case None => None
          case Some((more, s3)) => Some(([keyword] + more, s3))
  }

  function ReadCondition(s: string): Option<(Condition, string)> {
    match Word(s, "false")
    case Some(s1) => Some((Never, s1))
    case None => match ReadSender(s)
      case Some((sender, s1)) => Some((SenderIs(sender), s1))
      case None => match ReadKeywords(s)
        case Some((keywords, s1)) => Some((SubjectHasAny(keywords), s1))
        case None => None
  }

  function ReadRule(s: string): Option<MoveRule> {
    match Word(s, "if")
    case None => None
    case Some(s1) => match ReadCondition(s1)
    case None => None
    case Some((condition, s2)) => match ReadTail(s2)
    case None => None
    case Some(folder) => Some(MoveRule(condition, folder))
  }

  // ---------------------------------------------------------------- reading what was printed

  lemma CallReadsBack(folder: string)
    requires Clean(folder)
    ensures ReadCall(Call(folder)) == Some(folder)
  {
    ArgumentReads(folder, ['\n'] + ("end" + ""));
    BlankBefore('\n', "end" + "", "end");
    WordAt("end", "");
  }

  lemma MoveLineReads(folder: string)
    ensures Word(MoveLine(folder), "move") == Some(Call(folder))
    ensures Skip(MoveLine(folder)) == "move" + Call(folder)
  {
    var m := "move" + Call(folder);
    BlankBefore(' ', [' '] + m, "move");
    BlankBefore(' ', m, "move");
    WordAt("move", Call(folder));
    SkipStops(m);
  }

  lemma TailReads(folder: string)
    ensures ReadTail(Tail(folder)) == ReadCall(Call(folder))
    ensures Word(Tail(folder), "or") == None
  {
    var rest := ['\n'] + MoveLine(folder);
    var t := "then" + rest;
    BlankBefore(' ', t, "then");
    BlankBefore(' ', t, "or");
    OtherWord(t, "or");
    WordAt("then", rest);
    BlankBefore('\n', MoveLine(folder), "move");
    MoveLineReads(folder);
  }

  lemma TailReadsBack(folder: string)
    requires Clean(folder)
    ensures ReadTail(Tail(folder)) == Some(folder)
    ensures Word(Tail(folder), "or") == None
  {
    CallReadsBack(folder);
    TailReads(folder);
  }

  lemma ArgumentReads(folder: string, rest: string)
    requires Clean(folder)
    ensures Symbol("(" + Quote(folder, ")" + rest), "(") == Some(Quote(folder, ")" + rest))
    ensures Literal(Quote(folder, ")" + rest)) == Some((folder, ")" + rest))
    ensures Symbol(")" + rest, ")") == Some(rest)
  {
    SymbolAt("(", Quote(folder, ")" + rest));
    RawReadsBackIff(folder, ")" + rest);
    LiteralAt(folder, folder, ")" + rest);
    SymbolAt(")", rest);
  }

  lemma QuotedReads(value: string, rest: string)
    requires Plain(value)
    ensures Literal([' '] + Quote(EscapeQuotes(value), rest)) == Some((value, rest))
  {
    PlainReadsBack(value, rest);
    LiteralAt(EscapeQuotes(value), value, rest);
    BlankBefore(' ', Quote(EscapeQuotes(value), rest), "");
  }

  lemma EmailReads(rest: string)
    ensures Word("email" + ("." + rest), "email") == Some("." + rest)
    ensures Symbol("." + rest, ".") == Some(rest)
  {
    WordAt("email", "." + rest);
    SymbolAt(".", rest);
  }

  lemma EqualsReads(rest: string)
    ensures Word("sender" + ([' '] + ("==" + rest)), "sender") == Some([' '] + ("==" + rest))
    ensures Symbol([' '] + ("==" + rest), "==") == Some(rest)
  {
    WordAt("sender", [' '] + ("==" + rest));
    BlankBefore(' ', "==" + rest, "==");
    SymbolAt("==", rest);
  }

  lemma SenderReads(sender: string, rest: string)
    requires Plain(sender)
    ensures ReadSender(SenderCondition(sender, rest)) == Some((sender, rest))
    ensures Word(SenderCondition(sender, rest), "false") == None
  {
    var s4 := [' '] + Quote(EscapeQuotes(sender), rest);
    var s2 := "sender" + ([' '] + ("==" + s4));
    EmailReads(s2);
    EqualsReads(s4);
    QuotedReads(sender, rest);
    OtherWord("email" + ("." + s2), "false");
  }

  lemma ContainsReads(rest: string)
    ensures Word("contains" + ("(" + rest), "contains") == Some("(" + rest)
    ensures Symbol("(" + rest, "(") == Some(rest)
    ensures Word("contains" + ("(" + rest), "false") == None
    ensures Word("contains" + ("(" + rest), "email") == None
  {
    WordAt("contains", "(" + rest);
    SymbolAt("(", rest);
    OtherWord("contains" + ("(" + rest), "false");
    OtherWord("contains" + ("(" + rest), "email");
  }

  lemma SubjectReads(rest: string)
    ensures Word("subject" + ("," + rest), "subject") == Some("," + rest)
    ensures Symbol("," + rest, ",") == Some(rest)
  {
    WordAt("subject", "," + rest);
    SymbolAt(",", rest);
  }

  lemma KeywordReads(keyword: string, rest: string)
    requires Plain(keyword)
    ensures ReadKeyword(KeywordCondition(keyword, rest)) == Some((keyword, rest))
    ensures Word(KeywordCondition(keyword, rest), "false") == None
    ensures ReadSender(KeywordCondition(keyword, rest)) == None
    ensures |rest| < |KeywordCondition(keyword, rest)|
  {
    PlainReadsBack(keyword, ")" + rest);
    KeywordReadsAs(keyword, keyword, rest);
  }

  /** A keyword's condition has the value its literal is read as. */
  lemma KeywordReadsAs(keyword: string, value: string, rest: string)
    requires ReadBody(EscapeQuotes(keyword) + ("\"" + (")" + rest))) == Some((value, ")" + rest))
    ensures ReadKeyword(KeywordCondition(keyword, rest)) == Some((value, rest))
    ensures Word(KeywordCondition(keyword, rest), "false") == None
    ensures ReadSender(KeywordCondition(keyword, rest)) == None
    ensures |rest| < |KeywordCondition(keyword, rest)|
  {
    var s6 := [' '] + Quote(EscapeQuotes(keyword), ")" + rest);
    var s4 := "subject" + ("," + s6);
    var s2 := "email" + ("." + s4);
    ContainsReads(s2);
    EmailReads(s4);
    SubjectReads(s6);
    LiteralAt(EscapeQuotes(keyword), value, ")" + rest);
    BlankBefore(' ', Quote(EscapeQuotes(keyword), ")" + rest), "");
    SymbolAt(")", rest);
  }

  lemma Cons(s: seq<string>)
    requires s != []
    ensures [s[0]] + s[1..] == s
  {
  }

  /** One keyword, `or`, and the text of further keywords. */
  lemma KeywordThenMore(first: string, more: string, keywords: seq<string>, rest: string)
    requires Plain(first) && Boundary(more) && ReadKeywords(more) == Some((keywords, rest))
    ensures ReadKeywords(KeywordCondition(first, [' '] + ("or" + more))) == Some(([first] + keywords, rest))
  {
    KeywordReads(first, [' '] + ("or" + more));
    BlankBefore(' ', "or" + more, "or");
    WordAt("or", more);
  }

  lemma {:induction false} KeywordsRead(keywords: seq<string>, rest: string)
    requires keywords != [] && Word(rest, "or") == None
    requires forall i | 0 <= i < |keywords| :: Plain(keywords[i])
    ensures ReadKeywords(AnyKeyword(keywords, rest)) == Some((keywords, rest))
    decreases |keywords|
  {
    var first := keywords[0];
    if |keywords| == 1 {
      KeywordReads(first, rest);
      assert keywords == [first];
    } else {
      var others := keywords[1..];
      KeywordsRead(others, rest);
      BlankKeywords(AnyKeyword(others, rest));
      KeywordThenMore(first, [' '] + AnyKeyword(others, rest), others, rest);
      Cons(keywords);
    }
  }

  /** A keyword condition is neither the constant nor a sender test. */
  lemma KeywordsAreNothingElse(keywords: seq<string>, rest: string)
    requires keywords != [] && Plain(keywords[0])
    ensures Word(AnyKeyword(keywords, rest), "false") == None && ReadSender(AnyKeyword(keywords, rest)) == None
  {
    KeywordReads(keywords[0], if |keywords| == 1 then rest else [' '] + ("or" + ([' '] + AnyKeyword(keywords[1..], rest))));
  }

  lemma BlankKeywords(s: string)
    ensures ReadKeyword([' '] + s) == ReadKeyword(s)
    ensures ReadKeywords(s).Some? ==> ReadKeywords([' '] + s) == ReadKeywords(s)
    ensures ReadSender([' '] + s) == ReadSender(s)
  {
    BlankBefore(' ', s, "contains");
    BlankBefore(' ', s, "email");
  }

  /** A rule with this condition text and folder means this. */
  lemma RuleReads(condition: string, meaning: Condition, folder: string)
    requires Clean(folder) && ReadCondition([' '] + condition) == Some((meaning, Tail(folder)))
    ensures ReadRule("if" + ([' '] + condition)) == Some(MoveRule(meaning, folder))
  {
    WordAt("if", [' '] + condition);
    TailReadsBack(folder);
  }

  lemma CommentsAreSkipped(text: string, rest: string)
    requires OneLine(text)
    ensures ReadRule(CommentLine(text, rest)) == ReadRule(rest)
  {
    CommentBefore(text, rest, "if");
  }

  lemma Around(a: string, s: string, b: string)
    requires OneLine(a) && OneLine(s) && OneLine(b)
    ensures OneLine(a + s + b)
  {
  }

  /** A sender rule says what was meant for every sender without backslash and line break
      and every folder that is also free of quotes. */
  lemma SenderRuleReadsBack(sender: string, folder: string)
    requires Plain(sender) && Clean(folder)
    ensures ReadRule(InferFromSender(sender, folder)) == Some(MoveRule(SenderIs(sender), folder))
  {
    var condition := SenderCondition(sender, Tail(folder));
    SenderReads(sender, Tail(folder));
    BlankBefore(' ', condition, "false");
    BlankKeywords(condition);
    RuleReads(condition, SenderIs(sender), folder);
    SenderCommentIsOneLine(sender, folder);
    CommentsAreSkipped("Auto-learned: move emails from " + sender + " to " + folder, "if" + ([' '] + condition));
  }

  lemma SenderCommentIsOneLine(sender: string, folder: string)
    requires Plain(sender) && Clean(folder)
    ensures OneLine("Auto-learned: move emails from " + sender + " to " + folder)
  {
    Around("Auto-learned: move emails from ", sender, " to ");
    Around("Auto-learned: move emails from " + sender + " to ", folder, "");
    var line := "Auto-learned: move emails from " + sender + " to " + folder;
    assert line + "" == line;
  }

  lemma KeywordConditionReads(keywords: seq<string>, folder: string)
    requires keywords != [] && Clean(folder)
    requires forall i | 0 <= i < |keywords| :: Plain(keywords[i])
    ensures ReadCondition([' '] + AnyKeyword(keywords, Tail(folder))) ==
            Some((SubjectHasAny(keywords), Tail(folder)))
  {
    var condition := AnyKeyword(keywords, Tail(folder));
    TailReadsBack(folder);
    KeywordsRead(keywords, Tail(folder));
    KeywordsAreNothingElse(keywords, Tail(folder));
    BlankBefore(' ', condition, "false");
    BlankKeywords(condition);
  }

  lemma KeywordCommentIsOneLine(folder: string)
    requires Clean(folder)
    ensures OneLine("Auto-learned: move to " + folder + " based on subject keywords")
  {
    Around("Auto-learned: move to ", folder, " based on subject keywords");
  }

  /** A keyword rule says what was meant for every list of plain keywords. */
  lemma KeywordRuleReadsBack(keywords: seq<string>, subject: string, folder: string)
    requires keywords != [] && Clean(folder)
    requires forall i | 0 <= i < |keywords| :: Plain(keywords[i])
    ensures ReadRule(InferFromKeywords(keywords, subject, folder)) ==
            Some(MoveRule(SubjectHasAny(keywords), folder))
  {
    KeywordCommentIsOneLine(folder);
    var condition := AnyKeyword(keywords, Tail(folder));
    KeywordConditionReads(keywords, folder);
    RuleReads(condition, SubjectHasAny(keywords), folder);
    CommentsAreSkipped("Auto-learned: move to " + folder + " based on subject keywords", "if" + ([' '] + condition));
  }

  lemma TruncateIsOneLine(s: string, maxLen: nat)
    requires OneLine(s)
    ensures OneLine(Truncate(s, maxLen))
  {
    TakeBytesIsPrefix(s, maxLen - 3);
    var cut := TakeBytes(s, maxLen - 3);
    assert OneLine(cut);
    Around([], cut, "...");
    assert [] + cut + "..." == cut + "...";
  }

  lemma {:induction false} TakeBytesIsPrefix(s: string, n: int)
    ensures TakeBytes(s, n) <= s
  {
    if s != [] && CharBytes(s[0]) <= n {
      TakeBytesIsPrefix(s[1..], n - CharBytes(s[0]));
    }
  }

  // ---------------------------------------------------------------- the printed text

  lemma TailText(folder: string)
    ensures Tail(folder) == " then\n  move(\"" + folder + "\")\nend"
  {
    var head := [' '] + ("then" + (['\n'] + ([' '] + ([' '] + ("move" + ("(" + ['"']))))));
    var end := "\"" + (")" + (['\n'] + ("end" + "")));
    assert head == " then\n  move(\"" && end == "\")\nend";
    assert Tail(folder) == head + folder + end;
  }

  lemma SenderConditionText(sender: string, rest: string)
    ensures SenderCondition(sender, rest) == "email.sender == \"" + (EscapeQuotes(sender) + ("\"" + rest))
  {
    var head := "email" + ("." + ("sender" + ([' '] + ("==" + ([' '] + ['"'])))));
    assert head == "email.sender == \"";
    assert SenderCondition(sender, rest) == head + (EscapeQuotes(sender) + ("\"" + rest));
  }

  lemma KeywordConditionText(keyword: string, rest: string)
    ensures KeywordCondition(keyword, rest) == "contains(email.subject, \"" + (EscapeQuotes(keyword) + ("\")" + rest))
  {
    var head := "contains" + ("(" + ("email" + ("." + ("subject" + ("," + ([' '] + ['"']))))));
    assert head == "contains(email.subject, \"";
    assert "\"" + (")" + rest) == "\")" + rest;
    assert KeywordCondition(keyword, rest) == head + (EscapeQuotes(keyword) + ("\"" + (")" + rest)));
  }

  lemma CommentThen(line: string, rest: string)
    ensures CommentLine(line, rest) == "-- " + (line + ("\n" + rest))
  {
  }

  lemma IfThen(condition: string)
    ensures "if" + ([' '] + condition) == "if " + condition
  {
  }

  /** The text of a sender rule. */
  lemma SenderRuleText(sender: string, folder: string)
    ensures InferFromSender(sender, folder) ==
            "-- " + ("Auto-learned: move emails from " + sender + " to " + folder +
            ("\n" + ("if " + ("email.sender == \"" + (EscapeQuotes(sender) + ("\"" +
            (" then\n  move(\"" + folder + "\")\nend")))))))
  {
    TailText(folder);
    SenderConditionText(sender, Tail(folder));
    IfThen(SenderCondition(sender, Tail(folder)));
    CommentThen("Auto-learned: move emails from " + sender + " to " + folder,
      "if" + ([' '] + SenderCondition(sender, Tail(folder))));
  }

  /** The text of a rule with one keyword; further ones are joined by " or ". */
  lemma KeywordRuleText(keyword: string, more: seq<string>, subject: string, folder: string)
    ensures InferFromKeywords([keyword], subject, folder) ==
            "-- " + ("Auto-learned: move to " + folder + " based on subject keywords" +
            ("\n" + ("if " + ("contains(email.subject, \"" + (EscapeQuotes(keyword) + ("\")" +
            (" then\n  move(\"" + folder + "\")\nend")))))))
    ensures more != [] ==>
              AnyKeyword([keyword] + more, Tail(folder)) ==
              "contains(email.subject, \"" + (EscapeQuotes(keyword) + ("\")" + (" or " + AnyKeyword(more, Tail(folder)))))
  {
    TailText(folder);
    KeywordConditionText(keyword, Tail(folder));
    IfThen(KeywordCondition(keyword, Tail(folder)));
    assert AnyKeyword([keyword], Tail(folder)) == KeywordCondition(keyword, Tail(folder));
    CommentThen("Auto-learned: move to " + folder + " based on subject keywords",
      "if" + ([' '] + KeywordCondition(keyword, Tail(folder))));
    if more != [] {
      MoreKeywords(keyword, more, folder);
    }
  }

  lemma MoreKeywords(keyword: string, more: seq<string>, folder: string)
    requires more != []
    ensures AnyKeyword([keyword] + more, Tail(folder)) ==
            "contains(email.subject, \"" + (EscapeQuotes(keyword) + ("\")" + (" or " + AnyKeyword(more, Tail(folder)))))
  {
    var rest := AnyKeyword(more, Tail(folder));
    assert ([keyword] + more)[1..] == more;
    assert [' '] + ("or" + ([' '] + rest)) == " or " + rest by {
      assert [' '] + ("or" + [' ']) == " or ";
    }
    KeywordConditionText(keyword, " or " + rest);
  }

  /** The text of a rule without keywords. */
  lemma DisabledRuleText(subject: string, folder: string)
    ensures InferFromKeywords([], subject, folder) ==
            "-- " + ("Auto-learned: move to " + folder + " (no keywords extracted)" +
            ("\n" + ("-- " + ("Subject was: " + Truncate(subject, 80) +
            ("\n" + ("-- " + ("TODO: refine this rule manually" +
            ("\n" + ("if " + ("false" + (" then\n  move(\"" + folder + "\")\nend")))))))))))
  {
    TailText(folder);
    var rule := "if" + ([' '] + ("false" + Tail(folder)));
    IfThen("false" + Tail(folder));
    var todo := CommentLine("TODO: refine this rule manually", rule);
    CommentThen("TODO: refine this rule manually", rule);
    CommentThen("Subject was: " + Truncate(subject, 80), todo);
    CommentThen("Auto-learned: move to " + folder + " (no keywords extracted)",
      CommentLine("Subject was: " + Truncate(subject, 80), todo));
  }
}
