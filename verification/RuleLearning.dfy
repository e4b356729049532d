/** From a move by hand to a rule (internal/movedetect/infer.go and movedetect.go,
    internal/imaplistener/movedetect.go).

    Two learners share one table of rules: the listener, which reacts to EXPUNGE, and the
    polling detector.  Both refrain when some rule's text already mentions the sender and the
    folder; the detector asks that only of senders that are not complex.  Meanwhile users add,
    edit and delete rules.  Checking and creating is one step. */
module RuleLearning {

  import opened Common
  import opened LuaLiterals
  import opened KeywordExtraction
  import opened LearnedRules
  import opened ReadBackExactly

  // ---------------------------------------------------------------- the rule that is learned

  /** strings.Join. */
  function Join(parts: seq<string>, separator: string): string {
    if parts == [] then "" else if |parts| == 1 then parts[0] else parts[0] + (separator + Join(parts[1..], separator))
  }

  function ConditionTexts(keywords: seq<string>): seq<string> {
    if keywords == [] then [] else [KeywordCondition(keywords[0], "")] + ConditionTexts(keywords[1..])
  }

  lemma ConditionThen(keyword: string, rest: string)
    ensures KeywordCondition(keyword, "") + rest == KeywordCondition(keyword, rest)
  {
    var quoted := EscapeQuotes(keyword);
    assert Quote(quoted, ")" + "") + rest == Quote(quoted, ")" + rest);
    var head := "contains" + ("(" + ("email" + ("." + ("subject" + ("," + [' '])))));
    assert KeywordCondition(keyword, "") == head + Quote(quoted, ")" + "");
    assert KeywordCondition(keyword, rest) == head + Quote(quoted, ")" + rest);
  }

  lemma Regroup(first: string, joined: string, rest: string)
    ensures first + (" or " + joined) + rest == first + ([' '] + ("or" + ([' '] + (joined + rest))))
  {
    assert " or " == [' '] + "or" + [' '];
    var a := [' '] + "or" + [' '];
    assert first + (a + joined) + rest == first + (a + (joined + rest));
    assert a + (joined + rest) == [' '] + ("or" + ([' '] + (joined + rest)));
  }

  /** The joined conditions are the printer's condition. */
  lemma {:induction false} JoinedConditions(keywords: seq<string>, rest: string)
    requires keywords != []
    ensures ConditionTexts(keywords) != []
    ensures Join(ConditionTexts(keywords), " or ") + rest == AnyKeyword(keywords, rest)
    decreases |keywords|
  {
    var first := KeywordCondition(keywords[0], "");
    if |keywords| == 1 {
      assert keywords[1..] == [];
      ConditionThen(keywords[0], rest);
    } else {
      var more := keywords[1..];
      JoinedConditions(more, rest);
      assert ConditionTexts(keywords)[1..] == ConditionTexts(more);
      var joined := Join(ConditionTexts(more), " or ");
      Regroup(first, joined, rest);
      ConditionThen(keywords[0], [' '] + ("or" + ([' '] + (joined + rest))));
    }
  }

  method BuildConditions(keywords: seq<string>) returns (conditions: seq<string>)
    ensures conditions == ConditionTexts(keywords)
  {
    conditions := [];
    for i := 0 to |keywords|
      invariant conditions + ConditionTexts(keywords[i..]) == ConditionTexts(keywords)
    {
      NextCondition(keywords, i, conditions);
      conditions := conditions + [KeywordCondition(keywords[i], "")];
    }
  }

  lemma NextCondition(keywords: seq<string>, i: nat, sofar: seq<string>)
    requires i < |keywords|
    ensures sofar + ConditionTexts(keywords[i..]) ==
            sofar + [KeywordCondition(keywords[i], "")] + ConditionTexts(keywords[i + 1..])
  {
    assert keywords[i..][1..] == keywords[i + 1..];
  }

  /** A rule whose condition is already one text. */
  function KeywordRule(condition: string, folder: string): string {
    CommentLine("Auto-learned: move to " + folder + " based on subject keywords",
      "if" + ([' '] + (condition + Tail(folder))))
  }

  method InferFromSubject(subject: string, folder: string, lower: Lowering) returns (code: string)
    ensures code == InferFromKeywords(Keywords(subject, lower), subject, folder)
  {
    var keywords := ExtractKeywords(subject, lower);
    if keywords == [] {
      return InferFromKeywords([], subject, folder);
    }
    var conditions := BuildConditions(keywords);
    JoinedConditions(keywords, Tail(folder));
    code := KeywordRule(Join(conditions, " or "), folder);
  }

  function InferRule(sender: string, subject: string, folder: string, lower: Lowering): string {
    if IsComplexSender(sender, lower) then InferFromKeywords(Keywords(subject, lower), subject, folder)
    else InferFromSender(sender, folder)
  }

  /** Whether the rule moves this message; `contains` ignores case. */
  ghost predicate Matches(condition: Condition, sender: string, subject: string, lower: Lowering) {
    match condition
    case Never => false
    case SenderIs(s) => sender == s
    case SubjectHasAny(keywords) =>
      exists k | k in keywords :: Contains(ToLower(subject, lower), ToLower(k, lower))
  }

  /** What the printer needs of a move: a clean folder and, for a complex sender, keywords
      without backslashes, one of which was not joined around a bracket; without keywords the
      later lines of the quoted subject have to be silent. */
  ghost predicate Printable(sender: string, subject: string, folder: string, lower: Lowering) {
    var keywords := Keywords(subject, lower);
    && Clean(folder)
    && (!IsComplexSender(sender, lower) ==> Plain(sender))
    && (IsComplexSender(sender, lower) && keywords != [] ==>
          && (forall i | 0 <= i < |keywords| :: '\\' !in keywords[i])
          && (exists i | 0 <= i < |keywords| :: Stands(subject, lower, keywords[i])))
    && (IsComplexSender(sender, lower) && keywords == [] ==> QuietLines(AfterLine(Truncate(subject, 80))))
  }

  /** A learned rule is a rule that moves the very message that taught it to the folder it was
      moved to, unless the sender is complex and the subject has no keyword: then, and only
      then, it is disabled. */
  lemma LearnedRuleMovesItsTeacher(sender: string, subject: string, folder: string, lower: Lowering)
    requires LowerLaws(lower) && Printable(sender, subject, folder, lower)
    ensures var rule := ReadRule(InferRule(sender, subject, folder, lower));
            && rule.Some? && rule.value.folder == folder
            && (rule.value.condition == Never <==>
                  IsComplexSender(sender, lower) && Keywords(subject, lower) == [])
            && (rule.value.condition == SenderIs(sender) <==> !IsComplexSender(sender, lower))
            && (rule.value.condition != Never ==> Matches(rule.value.condition, sender, subject, lower))
  {
    var keywords := Keywords(subject, lower);
    if !IsComplexSender(sender, lower) {
      SenderRuleReadsBack(sender, folder);
    } else if keywords == [] {
      DisabledRuleReadsBackIff(subject, folder);
    } else {
      forall i | 0 <= i < |keywords|
        ensures Plain(keywords[i])
      {
        KeywordIsPlain(subject, lower, keywords[i]);
      }
      KeywordRuleReadsBack(keywords, subject, folder);
      var i :| 0 <= i < |keywords| && Stands(subject, lower, keywords[i]);
      StandingIsFound(subject, lower, keywords[i]);
      assert keywords[i] in keywords;
    }
  }

  /** With a clean folder and keywords without backslashes, the rule of a complex sender moves
      its teacher exactly when some keyword occurs in the lower-cased subject. */
  lemma KeywordRuleMovesTeacherIff(sender: string, subject: string, folder: string, lower: Lowering)
    requires LowerLaws(lower) && Clean(folder) && IsComplexSender(sender, lower)
    requires var keywords := Keywords(subject, lower);
             keywords != [] && forall i | 0 <= i < |keywords| :: '\\' !in keywords[i]
    ensures var keywords := Keywords(subject, lower);
            var rule := ReadRule(InferRule(sender, subject, folder, lower));
            && rule.Some? && rule.value.folder == folder
            && (Matches(rule.value.condition, sender, subject, lower) <==>
                  exists i | 0 <= i < |keywords| :: Contains(ToLower(subject, lower), keywords[i]))
  {
    var keywords := Keywords(subject, lower);
    forall i | 0 <= i < |keywords|
      ensures Plain(keywords[i]) && ToLower(keywords[i], lower) == keywords[i]
    {
      KeywordIsPlain(subject, lower, keywords[i]);
      KeywordIsLower(subject, lower, keywords[i]);
    }
    KeywordRuleReadsBack(keywords, subject, folder);
    AnyOfThese(keywords, sender, subject, lower);
  }

  lemma AnyOfThese(keywords: seq<string>, sender: string, subject: string, lower: Lowering)
    requires forall i | 0 <= i < |keywords| :: ToLower(keywords[i], lower) == keywords[i]
    ensures Matches(SubjectHasAny(keywords), sender, subject, lower) <==>
            exists i | 0 <= i < |keywords| :: Contains(ToLower(subject, lower), keywords[i])
  {
    if i :| 0 <= i < |keywords| && Contains(ToLower(subject, lower), keywords[i]) {
      assert keywords[i] in keywords;
    }
  }

  /** A keyword with a backslash before a `t` is read with a tab, and the rule misses every
      subject without one, its teacher's included. */
  lemma MisreadKeywordMisses(a: string, b: string, sender: string, subject: string, folder: string, lower: Lowering)
    requires Plain(a) && Plain(b) && Clean(folder) && IsComplexSender(sender, lower)
    requires Keywords(subject, lower) == [a + ("\\t" + b)] && lower('\t') !in ToLower(subject, lower)
    ensures var rule := ReadRule(InferRule(sender, subject, folder, lower));
            && rule == Some(MoveRule(SubjectHasAny([a + ("\t" + b)]), folder))
            && !Matches(rule.value.condition, sender, subject, lower)
  {
    BackslashRuleIsMisread(a, b, subject, folder);
    var value := a + ("\t" + b);
    var lowered := ToLower(value, lower);
    assert value[|a|] == '\t' && lowered[|a|] == lower('\t');
    if Contains(ToLower(subject, lower), lowered) {
      PartsShareCharacters(ToLower(subject, lower), lowered, |a|);
    }
  }

  /** Where all brackets stand apart, the condition on joined words is met. */
  lemma StandingApartIsEnough(subject: string, lower: Lowering)
    requires LowerLaws(lower) && BracketsStandApart(Headless(subject, lower), true)
    ensures var keywords := Keywords(subject, lower);
            forall i | 0 <= i < |keywords| :: Stands(subject, lower, keywords[i])
  {
    var keywords := Keywords(subject, lower);
    forall i | 0 <= i < |keywords|
      ensures Stands(subject, lower, keywords[i])
    {
      KeywordsAreFound(subject, lower, keywords[i]);
    }
  }

  /** Bracket-free subjects, the plain case of the condition on brackets. */
  lemma BracketFreeIsEnough(subject: string, lower: Lowering)
    requires '[' !in subject
    ensures BracketsStandApart(Headless(subject, lower), true)
  {
    NoBracketsInside(subject, lower);
  }

  // ---------------------------------------------------------------- the learners

  /** Where a rule's text comes from: a user, or a move that taught it. */
  datatype Origin = ByHand | Learned(sender: string, folder: string)

  datatype Rule = Rule(code: string, origin: Origin)

  datatype Learner = Listener | Detector

  predicate Mentions(code: string, sender: string, folder: string) {
    Contains(code, sender) && Contains(code, folder)
  }

  predicate Similar(rules: seq<Rule>, sender: string, folder: string) {
    exists i | 0 <= i < |rules| :: Mentions(rules[i].code, sender, folder)
  }

  predicate Refrains(learner: Learner, rules: seq<Rule>, sender: string, folder: string, lower: Lowering) {
    (learner == Detector ==> !IsComplexSender(sender, lower)) && Similar(rules, sender, folder)
  }

  function Learn(learner: Learner, rules: seq<Rule>, sender: string, subject: string, folder: string, lower: Lowering): seq<Rule> {
    if Refrains(learner, rules, sender, folder, lower) then rules
    else rules + [Rule(InferRule(sender, subject, folder, lower), Learned(sender, folder))]
  }

  /** A learner adds exactly one rule, the one inferred from the move, unless some rule's text
      contains both sender and folder; the detector adds it for a complex sender all the same. */
  lemma LearnsUnlessMentioned(learner: Learner, rules: seq<Rule>, sender: string, subject: string, folder: string, lower: Lowering)
    ensures var mentioned := exists i | 0 <= i < |rules| :: Contains(rules[i].code, sender) && Contains(rules[i].code, folder);
            var after := Learn(learner, rules, sender, subject, folder, lower);
            if mentioned && (learner == Listener || !IsComplexSender(sender, lower)) then after == rules
            else after == rules + [Rule(InferRule(sender, subject, folder, lower), Learned(sender, folder))]
  {
    if i :| 0 <= i < |rules| && Contains(rules[i].code, sender) && Contains(rules[i].code, folder) {
      assert Mentions(rules[i].code, sender, folder);
    }
  }

  class RuleBook {
    var rules: seq<Rule>

    constructor ()
      ensures rules == []
    {
      rules := [];
    }

    /** The check of both learners. */
    method HasSimilarRule(learner: Learner, sender: string, folder: string, lower: Lowering) returns (similar: bool)
      ensures similar <==> Refrains(learner, rules, sender, folder, lower)
      ensures similar <==>
                && (learner == Listener || !IsComplexSender(sender, lower))
                && exists i | 0 <= i < |rules| :: Contains(rules[i].code, sender) && Contains(rules[i].code, folder)
    {
      for i := 0 to |rules|
        invariant forall j | 0 <= j < i ::
            (learner == Detector ==> !IsComplexSender(sender, lower)) ==> !Mentions(rules[j].code, sender, folder)
      {
        if learner == Listener || !IsComplexSender(sender, lower) {
          if Contains(rules[i].code, sender) && Contains(rules[i].code, folder) {
            return true;
          }
        }
      }
      return false;
    }

    method LearnFromMove(learner: Learner, sender: string, subject: string, folder: string, lower: Lowering)
      returns (created: bool)
      modifies this
      ensures rules == Learn(learner, old(rules), sender, subject, folder, lower)
      ensures created <==> |rules| > |old(rules)|
      ensures created <==>
                || (learner == Detector && IsComplexSender(sender, lower))
                || forall i | 0 <= i < |old(rules)| ::
                     !(Contains(old(rules)[i].code, sender) && Contains(old(rules)[i].code, folder))
      ensures created ==> |rules| == |old(rules)| + 1 && rules[..|old(rules)|] == old(rules)
                          && rules[|old(rules)|].code == InferRule(sender, subject, folder, lower)
    {
      LearnsUnlessMentioned(learner, rules, sender, subject, folder, lower);
      var similar := HasSimilarRule(learner, sender, folder, lower);
      if similar {
        return false;
      }
      rules := rules + [Rule(InferRule(sender, subject, folder, lower), Learned(sender, folder))];
      return true;
    }
  }

  // ---------------------------------------------------------------- runs

  datatype Event =
    | Moved(learner: Learner, sender: string, subject: string, folder: string)
    | Added(code: string)
    | Edited(i: nat, code: string)
    | Deleted(i: nat)

  function Step(rules: seq<Rule>, e: Event, lower: Lowering): seq<Rule> {
    match e
    case Moved(learner, sender, subject, folder) => Learn(learner, rules, sender, subject, folder, lower)
    case Added(code) => rules + [Rule(code, ByHand)]
    case Edited(i, code) => if i < |rules| then rules[i := Rule(code, ByHand)] else rules
    case Deleted(i) => if i < |rules| then rules[..i] + rules[i + 1..] else rules
  }

  function Run(rules: seq<Rule>, events: seq<Event>, lower: Lowering): seq<Rule>
    decreases |events|
  {
    if events == [] then rules else Run(Step(rules, events[0], lower), events[1..], lower)
  }

  /** Every learned rule of a sender that is not complex still has the text it was learned
      with, and no two were learned from the same sender and folder. */
  ghost predicate Inv(rules: seq<Rule>, lower: Lowering) {
    && (forall i | 0 <= i < |rules| :: Faithful(rules[i], lower))
    && (forall i, j | 0 <= i < j < |rules| :: Clash(rules[i], rules[j]) ==> IsComplexSender(rules[i].origin.sender, lower))
  }

  predicate Faithful(r: Rule, lower: Lowering) {
    r.origin.Learned? && !IsComplexSender(r.origin.sender, lower) ==> r.code == InferFromSender(r.origin.sender, r.origin.folder)
  }

  predicate Clash(r: Rule, s: Rule) {
    r.origin.Learned? && r.origin == s.origin
  }

  lemma Middle(a: string, b: string, c: string)
    ensures Contains(a + b + c, b)
  {
    assert (a + b + c)[|a|..|a| + |b|] == b;
    assert At(a + b + c, b, |a|);
  }

  lemma CommentMentions(head: string, sender: string, to: string, folder: string, rest: string)
    ensures Mentions(CommentLine(head + sender + to + folder, rest), sender, folder)
  {
    var line := head + sender + to + folder;
    Middle(['-', '-', ' '], line, ['\n'] + rest);
    assert CommentLine(line, rest) == ['-', '-', ' '] + line + (['\n'] + rest);
    Middle(head, sender, to + folder);
    assert line == head + sender + (to + folder);
    Middle(head + sender + to, folder, []);
    assert line == line + [];
    ContainsTransitive(CommentLine(line, rest), line, sender);
    ContainsTransitive(CommentLine(line, rest), line, folder);
  }

  /** The comment of a sender rule mentions sender and folder as they are. */
  lemma SenderRuleMentions(sender: string, folder: string)
    ensures Mentions(InferFromSender(sender, folder), sender, folder)
  {
    CommentMentions("Auto-learned: move emails from ", sender, " to ", folder,
      "if" + ([' '] + SenderCondition(sender, Tail(folder))));
  }

  /** No learner takes a lesson of a sender that is not complex twice. */
  lemma LearnedIsSimilar(rules: seq<Rule>, i: nat, sender: string, folder: string, lower: Lowering)
    requires Inv(rules, lower) && i < |rules| && !IsComplexSender(sender, lower)
    requires rules[i].origin == Learned(sender, folder)
    ensures Similar(rules, sender, folder)
  {
    SenderRuleMentions(sender, folder);
    assert Faithful(rules[i], lower);
    assert Mentions(rules[i].code, sender, folder);
  }

  lemma AppendKeepsInv(rules: seq<Rule>, r: Rule, lower: Lowering)
    requires Inv(rules, lower) && Faithful(r, lower)
    requires forall i | 0 <= i < |rules| :: Clash(rules[i], r) ==> IsComplexSender(r.origin.sender, lower)
    ensures Inv(rules + [r], lower)
  {
    var after := rules + [r];
    assert forall i | 0 <= i < |rules| :: after[i] == rules[i];
    assert after[|rules|] == r;
  }

  lemma DeleteKeepsInv(rules: seq<Rule>, i: nat, lower: Lowering)
    requires Inv(rules, lower) && i < |rules|
    ensures Inv(rules[..i] + rules[i + 1..], lower)
  {
    var after := rules[..i] + rules[i + 1..];
    forall j | 0 <= j < |after|
      ensures after[j] == rules[if j < i then j else j + 1]
    {
    }
  }

  lemma LearnKeepsInv(rules: seq<Rule>, learner: Learner, sender: string, subject: string, folder: string, lower: Lowering)
    requires Inv(rules, lower)
    ensures Inv(Learn(learner, rules, sender, subject, folder, lower), lower)
  {
    if !Refrains(learner, rules, sender, folder, lower) {
      var r := Rule(InferRule(sender, subject, folder, lower), Learned(sender, folder));
      forall i | 0 <= i < |rules| && Clash(rules[i], r)
        ensures IsComplexSender(sender, lower)
      {
        if !IsComplexSender(sender, lower) {
          LearnedIsSimilar(rules, i, sender, folder, lower);
        }
      }
      AppendKeepsInv(rules, r, lower);
    }
  }

  lemma EditKeepsInv(rules: seq<Rule>, i: nat, code: string, lower: Lowering)
    requires Inv(rules, lower) && i < |rules|
    ensures Inv(rules[i := Rule(code, ByHand)], lower)
  {
  }

  lemma StepKeepsInv(rules: seq<Rule>, e: Event, lower: Lowering)
    requires Inv(rules, lower)
    ensures Inv(Step(rules, e, lower), lower)
  {
    match e
    case Moved(learner, sender, subject, folder) =>
      LearnKeepsInv(rules, learner, sender, subject, folder, lower);
    case Added(code) =>
      AppendKeepsInv(rules, Rule(code, ByHand), lower);
    case Edited(i, code) =>
      if i < |rules| {
        EditKeepsInv(rules, i, code, lower);
      }
    case Deleted(i) =>
      if i < |rules| {
        DeleteKeepsInv(rules, i, lower);
      }
  }

  lemma {:induction false} RunKeepsInv(rules: seq<Rule>, events: seq<Event>, lower: Lowering)
    requires Inv(rules, lower)
    ensures Inv(Run(rules, events, lower), lower)
    decreases |events|
  {
    if events != [] {
      StepKeepsInv(rules, events[0], lower);
      RunKeepsInv(Step(rules, events[0], lower), events[1..], lower);
    }
  }

  // ---------------------------------------------------------------- counting lessons

  /** How many rules were learned from this sender and folder and still stand. */
  function Standing(rules: seq<Rule>, lesson: Origin): nat {
    if rules == [] then 0 else (if rules[0].origin == lesson then 1 else 0) + Standing(rules[1..], lesson)
  }

  /** How many events of a run create a rule for the lesson. */
  function Creations(rules: seq<Rule>, events: seq<Event>, lesson: Origin, lower: Lowering): nat
    decreases |events|
  {
    if events == [] then 0
    else
      var after := Step(rules, events[0], lower);
      (if events[0].Moved? && Learned(events[0].sender, events[0].folder) == lesson && |after| > |rules| then 1 else 0)
      + Creations(after, events[1..], lesson, lower)
  }

  /** How many events of a run are a user deleting or rewriting a rule of the lesson. */
  function Losses(rules: seq<Rule>, events: seq<Event>, lesson: Origin, lower: Lowering): nat
    decreases |events|
  {
    if events == [] then 0
    else (if Loses(rules, events[0], lesson) then 1 else 0) + Losses(Step(rules, events[0], lower), events[1..], lesson, lower)
  }

  predicate Loses(rules: seq<Rule>, e: Event, lesson: Origin) {
    (e.Edited? || e.Deleted?) && e.i < |rules| && rules[e.i].origin == lesson
  }

  lemma {:induction false} StandingConcat(a: seq<Rule>, b: seq<Rule>, lesson: Origin)
    ensures Standing(a + b, lesson) == Standing(a, lesson) + Standing(b, lesson)
  {
    if a == [] {
      assert a + b == b;
    } else {
      StandingConcat(a[1..], b, lesson);
      assert (a + b)[1..] == a[1..] + b;
    }
  }

  lemma StandingWithout(rules: seq<Rule>, i: nat, lesson: Origin)
    requires i < |rules|
    ensures Standing(rules, lesson) ==
            Standing(rules[..i] + rules[i + 1..], lesson) + (if rules[i].origin == lesson then 1 else 0)
  {
    assert rules == rules[..i] + rules[i..];
    assert rules[i..][1..] == rules[i + 1..];
    StandingConcat(rules[..i], rules[i..], lesson);
    StandingConcat(rules[..i], rules[i + 1..], lesson);
  }

  lemma StandingReplaced(rules: seq<Rule>, i: nat, code: string, lesson: Origin)
    requires i < |rules| && lesson.Learned?
    ensures Standing(rules, lesson) ==
            Standing(rules[i := Rule(code, ByHand)], lesson) + (if rules[i].origin == lesson then 1 else 0)
  {
    var after := rules[i := Rule(code, ByHand)];
    StandingWithout(rules, i, lesson);
    StandingWithout(after, i, lesson);
    assert after[..i] == rules[..i] && after[i + 1..] == rules[i + 1..];
  }

  lemma StandingAppended(rules: seq<Rule>, r: Rule, lesson: Origin)
    ensures Standing(rules + [r], lesson) == Standing(rules, lesson) + (if r.origin == lesson then 1 else 0)
  {
    StandingConcat(rules, [r], lesson);
  }

  /** Rules of a lesson come from creations and go by users only. */
  lemma {:induction false} LessonsAreConserved(rules: seq<Rule>, events: seq<Event>, lesson: Origin, lower: Lowering)
    requires lesson.Learned?
    ensures Standing(rules, lesson) + Creations(rules, events, lesson, lower) ==
            Standing(Run(rules, events, lower), lesson) + Losses(rules, events, lesson, lower)
    decreases |events|
  {
    if events != [] {
      var e := events[0];
      LessonsAreConserved(Step(rules, e, lower), events[1..], lesson, lower);
      match e
      case Moved(learner, sender, subject, folder) =>
        StandingAppended(rules, Rule(InferRule(sender, subject, folder, lower), Learned(sender, folder)), lesson);
      case Added(code) =>
        StandingAppended(rules, Rule(code, ByHand), lesson);
      case Edited(i, code) =>
        if i < |rules| {
          StandingReplaced(rules, i, code, lesson);
        }
      case Deleted(i) =>
        if i < |rules| {
          StandingWithout(rules, i, lesson);
        }
    }
  }

  lemma NoTwin(rules: seq<Rule>, i: nat, lower: Lowering)
    requires Inv(rules, lower) && 0 < i < |rules|
    ensures rules[0].origin.Learned? && !IsComplexSender(rules[0].origin.sender, lower) ==>
              rules[i].origin != rules[0].origin
  {
    assert Clash(rules[0], rules[i]) ==> IsComplexSender(rules[0].origin.sender, lower);
  }

  lemma {:induction false} AtMostOneStands(rules: seq<Rule>, lesson: Origin, lower: Lowering)
    requires lesson.Learned? && !IsComplexSender(lesson.sender, lower) && Inv(rules, lower)
    ensures Standing(rules, lesson) <= 1
  {
    if rules != [] {
      var others := rules[1..];
      assert forall i | 0 <= i < |others| :: others[i] == rules[i + 1];
      AtMostOneStands(others, lesson, lower);
      if rules[0].origin == lesson {
        forall i | 0 <= i < |others|
          ensures others[i].origin != lesson
        {
          NoTwin(rules, i + 1, lower);
        }
        NoneStands(others, lesson);
      }
    }
  }

  lemma {:induction false} NoneStands(rules: seq<Rule>, lesson: Origin)
    requires forall i | 0 <= i < |rules| :: rules[i].origin != lesson
    ensures Standing(rules, lesson) == 0
  {
    if rules != [] {
      NoneStands(rules[1..], lesson);
    }
  }

  /** Over every run of both learners and the users, however often a message of a sender that
      is not complex is moved to a folder, at most one learned rule stands for the two, and
      another is created only after a user deleted or rewrote the one before. */
  lemma OneRulePerLesson(events: seq<Event>, sender: string, folder: string, lower: Lowering)
    requires !IsComplexSender(sender, lower)
    ensures Standing(Run([], events, lower), Learned(sender, folder)) <= 1
    ensures Creations([], events, Learned(sender, folder), lower) <=
            Losses([], events, Learned(sender, folder), lower) + 1
  {
    RunKeepsInv([], events, lower);
    AtMostOneStands(Run([], events, lower), Learned(sender, folder), lower);
    LessonsAreConserved([], events, Learned(sender, folder), lower);
  }

  /** The lower bound: the first move of a sender that is not complex is learned, by either
      learner. */
  lemma FirstLessonIsLearned(learner: Learner, sender: string, subject: string, folder: string, lower: Lowering)
    requires !IsComplexSender(sender, lower)
    ensures Standing(Run([], [Moved(learner, sender, subject, folder)], lower), Learned(sender, folder)) == 1
  {
    var e := Moved(learner, sender, subject, folder);
    var lesson := Rule(InferRule(sender, subject, folder, lower), Learned(sender, folder));
    LearnsUnlessMentioned(learner, [], sender, subject, folder, lower);
    assert [e][1..] == [];
    assert Run([], [e], lower) == Step([], e, lower);
    StandingAppended([], lesson, Learned(sender, folder));
  }

  /** After every move of such a sender some rule's text contains both sender and folder. */
  lemma MovedIsMentioned(learner: Learner, rules: seq<Rule>, sender: string, subject: string, folder: string, lower: Lowering)
    requires !IsComplexSender(sender, lower)
    ensures var after := Step(rules, Moved(learner, sender, subject, folder), lower);
            exists i | 0 <= i < |after| :: Contains(after[i].code, sender) && Contains(after[i].code, folder)
  {
    LearnsUnlessMentioned(learner, rules, sender, subject, folder, lower);
    var code := InferRule(sender, subject, folder, lower);
    SenderRuleMentions(sender, folder);
    assert Contains(code, sender) && Contains(code, folder);
    var after := Step(rules, Moved(learner, sender, subject, folder), lower);
    if after != rules {
      assert after[|rules|].code == code;
    }
  }

  /** For a complex sender the detector's check is switched off: every move adds a rule. */
  lemma {:induction false} DetectorRepeatsComplexSenders(rules: seq<Rule>, moves: seq<Event>, sender: string, folder: string, lower: Lowering)
    requires IsComplexSender(sender, lower)
    requires forall i | 0 <= i < |moves| :: IsDetectorMove(moves[i], sender, folder)
    ensures Standing(Run(rules, moves, lower), Learned(sender, folder)) ==
            Standing(rules, Learned(sender, folder)) + |moves|
    decreases |moves|
  {
    if moves != [] {
      assert IsDetectorMove(moves[0], sender, folder);
      StandingAppended(rules, Rule(InferRule(sender, moves[0].subject, folder, lower), Learned(sender, folder)), Learned(sender, folder));
      DetectorRepeatsComplexSenders(Step(rules, moves[0], lower), moves[1..], sender, folder, lower);
    }
  }

  predicate IsDetectorMove(e: Event, sender: string, folder: string) {
    e.Moved? && e.learner == Detector && e.sender == sender && e.folder == folder
  }

  /** The check compares texts: a rule learned for a longer address and folder silences the
      lesson of any address and folder contained in them. */
  lemma LongerLessonSilences(learner: Learner, rules: seq<Rule>, i: nat, sender: string, folder: string, lower: Lowering)
    requires Inv(rules, lower) && i < |rules| && rules[i].origin.Learned?
    requires !IsComplexSender(sender, lower) && !IsComplexSender(rules[i].origin.sender, lower)
    requires Contains(rules[i].origin.sender, sender) && Contains(rules[i].origin.folder, folder)
    ensures Refrains(learner, rules, sender, folder, lower)
  {
    var longer := rules[i].origin;
    SenderRuleMentions(longer.sender, longer.folder);
    assert Faithful(rules[i], lower);
    ContainsTransitive(rules[i].code, longer.sender, sender);
    ContainsTransitive(rules[i].code, longer.folder, folder);
    assert Mentions(rules[i].code, sender, folder);
  }
}
