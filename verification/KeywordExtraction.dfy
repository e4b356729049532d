/** The keywords a learned rule takes from a subject line, and the senders that are too
    irregular to learn from (internal/movedetect/infer.go).

    strings.ToLower maps character by character.  Which mapping is a parameter; LowerLaws
    lists everything that is assumed of it. */
module KeywordExtraction {

  import opened Common
  import opened LuaLiterals

  type Lowering = char -> char

  ghost predicate LowerLaws(lower: Lowering) {
    && (forall c :: lower(lower(c)) == lower(c))
    && (forall c :: IsBreaking(lower(c)) ==> lower(c) == c)
  }

  function ToLower(s: string, lower: Lowering): string {
    seq(|s|, i requires 0 <= i < |s| => lower(s[i]))
  }

  // ---------------------------------------------------------------- lower case

  lemma ContainsLower(text: string, part: string, lower: Lowering)
    requires Contains(text, part)
    ensures Contains(ToLower(text, lower), ToLower(part, lower))
  {
    var i: nat :| i <= |text| && At(text, part, i);
    forall k | 0 <= k < |part|
      ensures part[k] == text[i + k]
    {
      assert text[i..i + |part|][k] == text[i + k];
    }
    assert ToLower(text, lower)[i..i + |part|] == ToLower(part, lower);
    assert At(ToLower(text, lower), ToLower(part, lower), i);
  }

  // ---------------------------------------------------------------- library calls

  /** unicode.IsSpace. */
  predicate IsSpace(c: char) {
    var n := c as int;
    || 9 <= n <= 13 || n == 32 || n == 0x85 || n == 0xA0 || n == 0x1680 || 0x2000 <= n <= 0x200A
    || n == 0x2028 || n == 0x2029 || n == 0x202F || n == 0x205F || n == 0x3000
  }

  function TrimPrefix(s: string, prefix: string): string {
    if prefix <= s then s[|prefix|..] else s
  }

  function TrimLeft(s: string, cut: char -> bool): string {
    if s != [] && cut(s[0]) then TrimLeft(s[1..], cut) else s
  }

  function TrimRight(s: string, cut: char -> bool): string {
    if s != [] && cut(s[|s| - 1]) then TrimRight(s[..|s| - 1], cut) else s
  }

  function Trim(s: string, cut: char -> bool): string {
    TrimRight(TrimLeft(s, cut), cut)
  }

  lemma {:induction false} TrimLeftIsSuffix(s: string, cut: char -> bool)
    ensures |TrimLeft(s, cut)| <= |s| && s[|s| - |TrimLeft(s, cut)|..] == TrimLeft(s, cut)
  {
    if s != [] && cut(s[0]) {
      TrimLeftIsSuffix(s[1..], cut);
    }
  }

  lemma {:induction false} TrimRightIsPrefix(s: string, cut: char -> bool)
    ensures TrimRight(s, cut) <= s
  {
    if s != [] && cut(s[|s| - 1]) {
      TrimRightIsPrefix(s[..|s| - 1], cut);
    }
  }

  lemma TrimIsContained(s: string, cut: char -> bool)
    ensures Contains(s, Trim(s, cut))
  {
    var left := TrimLeft(s, cut);
    TrimLeftIsSuffix(s, cut);
    Suffix(s, |s| - |left|);
    TrimRightIsPrefix(left, cut);
    Prefix(left, Trim(s, cut));
    ContainsTransitive(s, left, Trim(s, cut));
  }

  /** Length of the leading run of characters that are no space. */
  function WordLength(s: string): (n: nat)
    ensures n <= |s|
    ensures forall i | 0 <= i < n :: !IsSpace(s[i])
  {
    if s == [] || IsSpace(s[0]) then 0 else 1 + WordLength(s[1..])
  }

  /** strings.Fields. */
  function Fields(s: string): seq<string>
    decreases |s|
  {
    if s == [] then []
    else if IsSpace(s[0]) then Fields(s[1..])
    else [s[..WordLength(s)]] + Fields(s[WordLength(s)..])
  }

  /** A non-empty stretch of text without spaces. */
  predicate IsWord(w: string) {
    w != [] && forall i | 0 <= i < |w| :: !IsSpace(w[i])
  }

  lemma {:induction false} FieldsAreWords(s: string)
    ensures forall w | w in Fields(s) :: IsWord(w) && Contains(s, w)
    decreases |s|
  {
    if s != [] {
      var n := if IsSpace(s[0]) then 1 else WordLength(s);
      FieldsAreWords(s[n..]);
      Suffix(s, n);
      Prefix(s, s[..n]);
      forall w | w in Fields(s)
        ensures IsWord(w) && Contains(s, w)
      {
        if w in Fields(s[n..]) {
          ContainsTransitive(s, s[n..], w);
        }
      }
    }
  }

  // ---------------------------------------------------------------- bracketed text

  /** The length of the text up to and including the first closing bracket on this line, or
      0 if there is none. */
  function BracketEnd(s: string): (n: nat)
    ensures n <= |s|
  {
    if s == [] || s[0] == '\n' then 0
    else if s[0] == ']' then 1
    else if BracketEnd(s[1..]) == 0 then 0 else 1 + BracketEnd(s[1..])
  }

  /** The length of the bracketed text at the start of `s`, or 0. */
  function Group(s: string): (n: nat)
    ensures n <= |s|
  {
    if s == [] || s[0] != '[' || BracketEnd(s[1..]) == 0 then 0 else 1 + BracketEnd(s[1..])
  }

  /** ReplaceAllString of the shortest bracketed pieces by nothing. */
  function StripBrackets(s: string): string
    decreases |s|
  {
    if s == [] then []
    else if Group(s) > 0 then StripBrackets(s[Group(s)..])
    else [s[0]] + StripBrackets(s[1..])
  }

  /** Every bracketed piece has a space or an end of the text on at least one side. */
  predicate BracketsStandApart(s: string, afterSpace: bool)
    decreases |s|
  {
    if s == [] then true
    else if Group(s) > 0 then
      var rest := s[Group(s)..];
      (afterSpace || rest == [] || IsSpace(rest[0])) && BracketsStandApart(rest, afterSpace)
    else BracketsStandApart(s[1..], IsSpace(s[0]))
  }

  lemma {:induction false} NoBracketsStandApart(s: string, afterSpace: bool)
    requires '[' !in s
    ensures BracketsStandApart(s, afterSpace) && StripBrackets(s) == s
  {
    if s != [] {
      NoBracketsStandApart(s[1..], IsSpace(s[0]));
    }
  }

  /** A word of the stripped text already stood in the text; one that starts the stripped
      text, with no space before it, started the text. */
  lemma {:induction false} StrippedWordStood(s: string, afterSpace: bool, w: string, i: nat)
    requires BracketsStandApart(s, afterSpace) && IsWord(w) && At(StripBrackets(s), w, i)
    ensures Contains(s, w)
    ensures i == 0 && !afterSpace ==> w <= s
    decreases |s|
  {
    var n := Group(s);
    var t := StripBrackets(s);
    if n > 0 {
      var rest := s[n..];
      Suffix(s, n);
      if i == 0 && !afterSpace && rest != [] {
        StartsWithItsSpace(rest);
      }
      StrippedWordStood(rest, afterSpace, w, i);
      ContainsTransitive(s, rest, w);
    } else {
      var rest := s[1..];
      Suffix(s, 1);
      assert t == [s[0]] + StripBrackets(rest);
      assert t[i] == w[0];
      if i > 0 {
        assert t[i..i + |w|] == StripBrackets(rest)[i - 1..i - 1 + |w|];
        StrippedWordStood(rest, IsSpace(s[0]), w, i - 1);
        ContainsTransitive(s, rest, w);
      } else {
        WordStartsHere(s, w);
      }
    }
  }

  lemma StartsWithItsSpace(s: string)
    requires s != [] && IsSpace(s[0])
    ensures StripBrackets(s) != [] && StripBrackets(s)[0] == s[0]
  {
  }

  lemma {:induction false} WordStartsHere(s: string, w: string)
    requires s != [] && Group(s) == 0 && BracketsStandApart(s[1..], IsSpace(s[0]))
    requires IsWord(w) && At(StripBrackets(s), w, 0)
    ensures w <= s && Contains(s, w)
    decreases |s|, 0
  {
    var rest := s[1..];
    var t := StripBrackets(s);
    assert t == [s[0]] + StripBrackets(rest);
    assert w == t[..|w|];
    if |w| > 1 {
      assert w[1..] == StripBrackets(rest)[..|w| - 1];
      assert At(StripBrackets(rest), w[1..], 0);
      assert forall i | 0 <= i < |w[1..]| :: w[1..][i] == w[i + 1];
      StrippedWordStood(rest, IsSpace(s[0]), w[1..], 0);
    }
    assert w == [s[0]] + w[1..];
    Prefix(s, w);
  }

  // ---------------------------------------------------------------- keywords

  const REPLY_PREFIXES: seq<string> := ["Re:", "RE:", "Fwd:", "FWD:", "Fw:", "FW:", "AW:", "SV:", "TR:"]

  const STOP_WORDS: seq<string> := FIRST_STOP_WORDS + MORE_STOP_WORDS

  const FIRST_STOP_WORDS: seq<string> :=
    ["the", "a", "an", "is", "are", "was", "were", "be", "been", "being", "have", "has", "had", "do"]
    + ["does", "did", "will", "would", "could", "should", "may", "might", "shall", "can", "for", "and"]
    + ["nor", "but", "or", "yet", "so", "at", "by", "from", "in", "into", "of", "on", "to", "with"]

  const MORE_STOP_WORDS: seq<string> :=
    ["that", "this", "these", "those", "it", "its", "you", "your", "we", "our", "my", "me", "i"]
    + ["he", "she", "they", "them", "their", "not", "no", "all", "each", "every", "new", "just"]
    + ["about", "up", "out", "if", "then", "than", "when", "what", "how", "who", "which", "where"]
    + ["why", "here", "there", "now", "also", "-", "\U{2013}", "\U{2014}", "|"]

  const MAX_KEYWORDS: nat := 3

  predicate InCutset(c: char) {
    c in ".,!?;:\"'()[]{}#*"
  }

  /** Bytes of a character in UTF-8. */
  function CharBytes(c: char): nat {
    if c as int < 0x80 then 1 else if c as int < 0x800 then 2 else if c as int < 0x1_0000 then 3 else 4
  }

  function ByteLen(s: string): nat {
    if s == [] then 0 else CharBytes(s[0]) + ByteLen(s[1..])
  }

  predicate IsNumeric(s: string) {
    s != [] && forall i | 0 <= i < |s| :: IsDigit(s[i])
  }

  function TrimPrefixes(s: string, prefixes: seq<string>, lower: Lowering): string {
    if prefixes == [] then s
    else TrimPrefixes(TrimPrefix(TrimPrefix(s, prefixes[0]), ToLower(prefixes[0], lower)), prefixes[1..], lower)
  }

  /** The subject without reply prefixes. */
  function Headless(subject: string, lower: Lowering): string {
    Trim(TrimPrefixes(subject, REPLY_PREFIXES, lower), IsSpace)
  }

  function Bare(word: string, lower: Lowering): string {
    Trim(ToLower(word, lower), InCutset)
  }

  predicate Significant(word: string, stopWords: seq<string>) {
    ByteLen(word) >= 3 && word !in stopWords && !IsNumeric(word)
  }

  function Select(words: seq<string>, stopWords: seq<string>, lower: Lowering): seq<string> {
    if words == [] then []
    else (if Significant(Bare(words[0], lower), stopWords) then [Bare(words[0], lower)] else []) + Select(words[1..], stopWords, lower)
  }

  function SubjectWords(subject: string, lower: Lowering): seq<string> {
    Fields(Trim(StripBrackets(Headless(subject, lower)), IsSpace))
  }

  /** The first three significant words. */
  function Keywords(subject: string, lower: Lowering): seq<string> {
    var all := Select(SubjectWords(subject, lower), STOP_WORDS, lower);
    if |all| > MAX_KEYWORDS then all[..MAX_KEYWORDS] else all
  }

  method RemovePrefixes(subject: string, prefixes: seq<string>, lower: Lowering) returns (cleaned: string)
    ensures cleaned == TrimPrefixes(subject, prefixes, lower)
  {
    cleaned := subject;
    for i := 0 to |prefixes|
      invariant TrimPrefixes(cleaned, prefixes[i..], lower) == TrimPrefixes(subject, prefixes, lower)
    {
      cleaned := TrimPrefix(cleaned, prefixes[i]);
      cleaned := TrimPrefix(cleaned, ToLower(prefixes[i], lower));
      assert prefixes[i..][1..] == prefixes[i + 1..];
    }
  }

  lemma SelectNext(words: seq<string>, i: nat, stopWords: seq<string>, lower: Lowering, sofar: seq<string>)
    requires i < |words|
    ensures var word := Bare(words[i], lower);
            sofar + Select(words[i..], stopWords, lower) ==
            (if Significant(word, stopWords) then sofar + [word] else sofar) + Select(words[i + 1..], stopWords, lower)
  {
    assert words[i..][1..] == words[i + 1..];
  }

  method SelectWords(words: seq<string>, stopWords: seq<string>, lower: Lowering) returns (significant: seq<string>)
    ensures significant == Select(words, stopWords, lower)
  {
    significant := [];
    for i := 0 to |words|
      invariant significant + Select(words[i..], stopWords, lower) == Select(words, stopWords, lower)
    {
      var word := Bare(words[i], lower);
      SelectNext(words, i, stopWords, lower, significant);
      if !Significant(word, stopWords) { continue; }
      significant := significant + [word];
    }
  }

  method ExtractKeywords(subject: string, lower: Lowering) returns (significant: seq<string>)
    ensures significant == Keywords(subject, lower)
  {
    var cleaned := RemovePrefixes(subject, REPLY_PREFIXES, lower);
    cleaned := Trim(cleaned, IsSpace);
    cleaned := StripBrackets(cleaned);
    cleaned := Trim(cleaned, IsSpace);
    significant := SelectWords(Fields(cleaned), STOP_WORDS, lower);
    if |significant| > MAX_KEYWORDS {
      significant := significant[..MAX_KEYWORDS];
    }
  }

  lemma {:induction false} TrimPrefixesIsContained(s: string, prefixes: seq<string>, lower: Lowering)
    ensures Contains(s, TrimPrefixes(s, prefixes, lower))
    decreases |prefixes|
  {
    if prefixes == [] {
      Prefix(s, s);
    } else {
      var s1 := TrimPrefix(s, prefixes[0]);
      var s2 := TrimPrefix(s1, ToLower(prefixes[0], lower));
      Suffix(s, |s| - |s1|);
      Suffix(s1, |s1| - |s2|);
      ContainsTransitive(s, s1, s2);
      TrimPrefixesIsContained(s2, prefixes[1..], lower);
      ContainsTransitive(s, s2, TrimPrefixes(s, prefixes, lower));
    }
  }

  lemma HeadlessIsContained(subject: string, lower: Lowering)
    ensures Contains(subject, Headless(subject, lower))
  {
    var s := TrimPrefixes(subject, REPLY_PREFIXES, lower);
    TrimPrefixesIsContained(subject, REPLY_PREFIXES, lower);
    TrimIsContained(s, IsSpace);
    ContainsTransitive(subject, s, Headless(subject, lower));
  }

  /** Every word looked at is a word of the subject. */
  lemma SubjectWordsStood(subject: string, lower: Lowering, w: string)
    requires BracketsStandApart(Headless(subject, lower), true) && w in SubjectWords(subject, lower)
    ensures IsWord(w) && Contains(subject, w)
  {
    var headless := Headless(subject, lower);
    var stripped := StripBrackets(headless);
    var trimmed := Trim(stripped, IsSpace);
    FieldsAreWords(trimmed);
    TrimIsContained(stripped, IsSpace);
    ContainsTransitive(stripped, trimmed, w);
    var i: nat :| i <= |stripped| && At(stripped, w, i);
    StrippedWordStood(headless, true, w, i);
    HeadlessIsContained(subject, lower);
    ContainsTransitive(subject, headless, w);
  }

  lemma {:induction false} SelectedWord(words: seq<string>, stopWords: seq<string>, lower: Lowering, k: string) returns (w: string)
    requires k in Select(words, stopWords, lower)
    ensures w in words && k == Bare(w, lower)
  {
    if Significant(Bare(words[0], lower), stopWords) && k == Bare(words[0], lower) {
      w := words[0];
    } else {
      w := SelectedWord(words[1..], stopWords, lower, k);
    }
  }

  /** A lower-cased text has nothing left to lower, and neither do its parts. */
  lemma LowerParts(text: string, part: string, lower: Lowering)
    requires LowerLaws(lower) && Contains(ToLower(text, lower), part)
    ensures ToLower(part, lower) == part
  {
    forall k | 0 <= k < |part|
      ensures lower(part[k]) == part[k]
    {
      PartsShareCharacters(ToLower(text, lower), part, k);
    }
  }

  /** A keyword never has a line break, so only a backslash can keep it from being printed. */
  lemma KeywordIsPlain(subject: string, lower: Lowering, k: string)
    requires LowerLaws(lower) && k in Keywords(subject, lower)
    ensures '\\' !in k <==> Plain(k)
  {
    var w := SelectedWord(SubjectWords(subject, lower), STOP_WORDS, lower, k);
    FieldsAreWords(Trim(StripBrackets(Headless(subject, lower)), IsSpace));
    var lowered := ToLower(w, lower);
    TrimIsContained(lowered, InCutset);
    forall i | 0 <= i < |k|
      ensures !IsNewline(k[i])
    {
      PartsShareCharacters(lowered, k, i);
      var j :| 0 <= j < |w| && lower(w[j]) == k[i];
    }
  }

  lemma KeywordIsLower(subject: string, lower: Lowering, k: string)
    requires LowerLaws(lower) && k in Keywords(subject, lower)
    ensures ToLower(k, lower) == k
  {
    var w := SelectedWord(SubjectWords(subject, lower), STOP_WORDS, lower, k);
    TrimIsContained(ToLower(w, lower), InCutset);
    LowerParts(w, k, lower);
  }

  /** The keyword comes from a word that stands in the subject, and was not joined from pieces
      around a bracket. */
  ghost predicate Stands(subject: string, lower: Lowering, k: string) {
    exists w | w in SubjectWords(subject, lower) :: Bare(w, lower) == k && Contains(subject, w)
  }

  /** The engine's case-insensitive `contains` finds such a keyword in its subject. */
  lemma StandingIsFound(subject: string, lower: Lowering, k: string)
    requires LowerLaws(lower) && Stands(subject, lower, k)
    ensures Contains(ToLower(subject, lower), ToLower(k, lower))
  {
    var w :| w in SubjectWords(subject, lower) && Bare(w, lower) == k && Contains(subject, w);
    var lowered := ToLower(w, lower);
    TrimIsContained(lowered, InCutset);
    LowerParts(w, k, lower);
    ContainsLower(subject, w, lower);
    ContainsTransitive(ToLower(subject, lower), lowered, k);
  }

  /** Where all brackets stand apart, every keyword stands in the subject and is found. */
  lemma KeywordsAreFound(subject: string, lower: Lowering, k: string)
    requires LowerLaws(lower) && BracketsStandApart(Headless(subject, lower), true)
    requires k in Keywords(subject, lower)
    ensures Stands(subject, lower, k) && Contains(ToLower(subject, lower), ToLower(k, lower))
  {
    var w := SelectedWord(SubjectWords(subject, lower), STOP_WORDS, lower, k);
    SubjectWordsStood(subject, lower, w);
    StandingIsFound(subject, lower, k);
  }

  lemma {:induction false} SelectIsEmptyIff(words: seq<string>, stopWords: seq<string>, lower: Lowering)
    ensures Select(words, stopWords, lower) == [] <==> forall w | w in words :: !Significant(Bare(w, lower), stopWords)
  {
    if words != [] {
      SelectIsEmptyIff(words[1..], stopWords, lower);
      assert words == [words[0]] + words[1..];
    }
  }

  /** No keyword is found exactly when no word of the subject is significant. */
  lemma NoKeywordsIff(subject: string, lower: Lowering)
    ensures Keywords(subject, lower) == [] <==>
            forall w | w in SubjectWords(subject, lower) :: !Significant(Bare(w, lower), STOP_WORDS)
  {
    SelectIsEmptyIff(SubjectWords(subject, lower), STOP_WORDS, lower);
  }

  // ---------------------------------------------------------------- joined words

  /** A subject of two pieces of a word around a bracketed piece. */
  function Joined(a: string, x: string, b: string): string {
    a + ("[" + (x + ("]" + b)))
  }

  lemma {:induction false} ClosesAfter(x: string, b: string)
    requires ']' !in x && '\n' !in x
    ensures BracketEnd(x + ("]" + b)) == |x| + 1
  {
    var s := x + ("]" + b);
    if x != [] {
      assert s[1..] == x[1..] + ("]" + b);
      ClosesAfter(x[1..], b);
    }
  }

  lemma {:induction false} StrippingJoins(a: string, x: string, b: string)
    requires '[' !in a && '[' !in b && ']' !in x && '\n' !in x
    ensures StripBrackets(Joined(a, x, b)) == a + b
    decreases |a|
  {
    var s := Joined(a, x, b);
    if a == [] {
      assert s[1..] == x + ("]" + b);
      ClosesAfter(x, b);
      assert s[|x| + 2..] == b;
      NoBracketsStandApart(b, true);
    } else {
      assert s[0] == a[0] && s[1..] == Joined(a[1..], x, b);
      StrippingJoins(a[1..], x, b);
    }
  }

  lemma {:induction false} WordLengthOfWord(w: string)
    requires forall i | 0 <= i < |w| :: !IsSpace(w[i])
    ensures WordLength(w) == |w|
  {
    if w != [] {
      WordLengthOfWord(w[1..]);
    }
  }

  lemma WordIsItsField(w: string)
    requires IsWord(w)
    ensures Trim(w, IsSpace) == w && Fields(w) == [w]
  {
    WordLengthOfWord(w);
    assert w[..|w|] == w && w[|w|..] == [];
  }

  /** What keeps a subject of joined pieces from being anything but one word. */
  ghost predicate JoinsOneWord(a: string, x: string, b: string, lower: Lowering) {
    && IsWord(a) && IsWord(b) && '[' !in a && '[' !in b && ']' !in x && '\n' !in x
    && TrimPrefixes(Joined(a, x, b), REPLY_PREFIXES, lower) == Joined(a, x, b)
  }

  lemma JoinedKeyword(a: string, x: string, b: string, lower: Lowering)
    requires JoinsOneWord(a, x, b, lower) && Significant(Bare(a + b, lower), STOP_WORDS)
    ensures Keywords(Joined(a, x, b), lower) == [Bare(a + b, lower)]
  {
    var s := Joined(a, x, b);
    assert s[0] == a[0] && s[|s| - 1] == b[|b| - 1];
    assert Headless(s, lower) == s;
    StrippingJoins(a, x, b);
    assert IsWord(a + b);
    WordIsItsField(a + b);
    assert SubjectWords(s, lower) == [a + b];
    assert Select([a + b], STOP_WORDS, lower) == [Bare(a + b, lower)];
  }

  lemma CharacterAt(text: string, part: string, i: nat, k: nat)
    requires k < |part|
    ensures At(text, part, i) ==> i + k < |text| && text[i + k] == part[k]
  {
    if At(text, part, i) {
      assert text[i..i + |part|][k] == text[i + k];
    }
  }

  /** For every two pieces of a word around a bracketed piece: the joined word is the only
      keyword, and if its first character occurs nowhere else in the subject the engine does
      not find it there, so the rule misses the very message that taught it. */
  lemma JoinedWordIsNotFound(a: string, x: string, b: string, lower: Lowering)
    requires JoinsOneWord(a, x, b, lower) && Significant(Bare(a + b, lower), STOP_WORDS)
    requires LowerLaws(lower) && Bare(a + b, lower) == ToLower(a + b, lower)
    requires lower(b[0]) != lower('[') && lower(a[0]) !in ToLower(Joined(a, x, b), lower)[1..]
    ensures Keywords(Joined(a, x, b), lower) == [ToLower(a + b, lower)]
    ensures !Contains(ToLower(Joined(a, x, b), lower), ToLower(ToLower(a + b, lower), lower))
  {
    JoinedKeyword(a, x, b, lower);
    var text, part := ToLower(Joined(a, x, b), lower), ToLower(a + b, lower);
    assert ToLower(part, lower) == part;
    assert part[0] == lower(a[0]) && text[|a|] == lower('[') && part[|a|] == lower(b[0]);
    forall i: nat | i <= |text|
      ensures !At(text, part, i)
    {
      CharacterAt(text, part, i, 0);
      CharacterAt(text, part, i, |a|);
      assert 0 < i < |text| ==> text[i] == text[1..][i - 1];
    }
  }

  // ---------------------------------------------------------------- irregular senders

  predicate IsHex(c: char) {
    '0' <= c <= '9' || 'a' <= c <= 'f'
  }

  predicate HexAt(s: string, i: nat, n: nat) {
    i + n <= |s| && forall k | i <= k < i + n :: IsHex(s[k])
  }

  predicate HasHexRun(s: string) {
    exists i: nat | i <= |s| :: HexAt(s, i, 8)
  }

  predicate UuidAt(s: string, i: nat) {
    && HexAt(s, i, 8) && i + 18 <= |s| && s[i + 8] == '-'
    && HexAt(s, i + 9, 4) && s[i + 13] == '-' && HexAt(s, i + 14, 4)
  }

  predicate HasUuid(s: string) {
    exists i: nat | i <= |s| :: UuidAt(s, i)
  }

  predicate IsHyphen(c: char) {
    c == '-'
  }

  /** The text before the first at sign, if that is not the first character. */
  function LocalPart(s: string): string {
    var n := Before(s, '@');
    if 0 < n < |s| then s[..n] else s
  }

  /** Length of the text before the first `c`. */
  function Before(s: string, c: char): (n: nat)
    ensures n <= |s|
  {
    if s == [] || s[0] == c then 0 else 1 + Before(s[1..], c)
  }

  /** On the lower-cased address and the part of it before the at sign. */
  predicate IsComplexText(s: string, local: string) {
    || (Contains(s, "=") && Contains(s, "@"))
    || "bounce-" <= s || "bounces-" <= s
    || (Contains(s, "+") && (Contains(s, "bounce") || Contains(s, "return")))
    || Count(local, IsHyphen) > 3
    || HasHexRun(local)
    || HasUuid(local)
    || ((Contains(local, "noreply") || Contains(local, "no-reply")) && ByteLen(local) > 15)
  }

  predicate IsComplexSender(sender: string, lower: Lowering) {
    var s := ToLower(sender, lower);
    sender == "" || IsComplexText(s, LocalPart(s))
  }
}
