/** Laws that fix what keyword extraction and the sender test compute, in terms of the texts
    themselves (internal/movedetect/infer.go). */
module KeywordLaws {

  import opened Common
  import opened LuaLiterals
  import opened KeywordExtraction
  import opened LearnedRules
  import Utf8

  // ---------------------------------------------------------------- prefixes and brackets

  /** Prefixes are trimmed one after the other, each at most once as written and once in lower
      case. */
  lemma {:induction false} PrefixesInTurn(s: string, first: seq<string>, second: seq<string>, lower: Lowering)
    ensures TrimPrefixes(s, first + second, lower) == TrimPrefixes(TrimPrefixes(s, first, lower), second, lower)
    decreases |first|
  {
    if first == [] {
      assert first + second == second;
    } else {
      assert (first + second)[1..] == first[1..] + second;
      var once := TrimPrefix(TrimPrefix(s, first[0]), ToLower(first[0], lower));
      PrefixesInTurn(once, first[1..], second, lower);
    }
  }

  lemma OnePrefix(s: string, p: string, lower: Lowering)
    ensures TrimPrefixes(p + s, [p], lower) == if ToLower(p, lower) <= s then s[|p|..] else s
    ensures !(p <= s) && !(ToLower(p, lower) <= s) ==> TrimPrefixes(s, [p], lower) == s
    ensures REPLY_PREFIXES == ["Re:", "RE:", "Fwd:", "FWD:", "Fw:", "FW:", "AW:", "SV:", "TR:"]
  {
    assert (p + s)[|p|..] == s && [p][1..] == [];
  }

  /** A bracketed piece on one line goes, whatever follows; a bracket that is not closed on its
      line stays; text without brackets stays. */
  lemma {:induction false} BracketsGo(a: string, x: string, b: string)
    requires '[' !in a && ']' !in x && '\n' !in x
    ensures StripBrackets(Joined(a, x, b)) == a + StripBrackets(b)
    decreases |a|
  {
    var s := Joined(a, x, b);
    if a == [] {
      assert s[1..] == x + ("]" + b);
      ClosesAfter(x, b);
      assert s[|x| + 2..] == b;
    } else {
      assert s[0] == a[0] && s[1..] == Joined(a[1..], x, b);
      BracketsGo(a[1..], x, b);
    }
  }

  lemma {:induction false} NeverCloses(x: string, rest: string)
    requires ']' !in x
    ensures BracketEnd(x + (['\n'] + rest)) == 0 && BracketEnd(x) == 0
  {
    var s := x + (['\n'] + rest);
    if x != [] {
      assert s[1..] == x[1..] + (['\n'] + rest);
      NeverCloses(x[1..], rest);
    }
  }

  lemma OpenBracketStays(x: string, rest: string)
    requires ']' !in x
    ensures StripBrackets("[" + x) == "[" + StripBrackets(x)
    ensures var s := x + (['\n'] + rest); StripBrackets("[" + s) == "[" + StripBrackets(s)
  {
    NeverCloses(x, rest);
    assert ("[" + x)[1..] == x;
    var s := x + (['\n'] + rest);
    assert ("[" + s)[1..] == s;
  }

  // ---------------------------------------------------------------- words

  /** The spaces that separate words. */
  lemma SpacesAre(c: char)
    ensures IsSpace(c) <==>
            || c in {'\t', '\n', 11 as char, 12 as char, '\r', ' ', '\U{85}', '\U{A0}', '\U{1680}'}
            || '\U{2000}' <= c <= '\U{200A}'
            || c in {'\U{2028}', '\U{2029}', '\U{202F}', '\U{205F}', '\U{3000}'}
  {
  }

  lemma {:induction false} WordEndsAtSpace(a: string, c: char, b: string)
    requires IsSpace(c)
    ensures WordLength(a + ([c] + b)) == WordLength(a)
  {
    if a != [] {
      assert (a + ([c] + b))[1..] == a[1..] + ([c] + b);
      WordEndsAtSpace(a[1..], c, b);
    }
  }

  /** A space separates: the fields of a text are those before it and those after it.  With
      WordIsItsField this fixes the fields of every text. */
  lemma {:induction false} FieldsSplit(a: string, c: char, b: string)
    requires IsSpace(c)
    ensures Fields(a + ([c] + b)) == Fields(a) + Fields(b)
    decreases |a|
  {
    var s := a + ([c] + b);
    if a == [] {
      assert s[1..] == b;
    } else {
      var n := if IsSpace(a[0]) then 1 else WordLength(a);
      WordEndsAtSpace(a, c, b);
      assert s[..n] == a[..n] && s[n..] == a[n..] + ([c] + b);
      FieldsSplit(a[n..], c, b);
    }
  }

  /** Trimming takes cut characters from both ends, and no more can be taken. */
  lemma TrimIs(s: string, cut: char -> bool) returns (before: string, after: string)
    ensures s == before + Trim(s, cut) + after
    ensures forall i | 0 <= i < |before| :: cut(before[i])
    ensures forall i | 0 <= i < |after| :: cut(after[i])
    ensures var t := Trim(s, cut); t != [] ==> !cut(t[0]) && !cut(t[|t| - 1])
  {
    before := LeftIs(s, cut);
    var left := TrimLeft(s, cut);
    after := RightIs(left, cut);
    assert s == before + left && left == Trim(s, cut) + after;
    if Trim(s, cut) != [] {
      assert Trim(s, cut)[0] == left[0];
    }
  }

  lemma {:induction false} LeftIs(s: string, cut: char -> bool) returns (before: string)
    ensures s == before + TrimLeft(s, cut) && forall i | 0 <= i < |before| :: cut(before[i])
    ensures TrimLeft(s, cut) != [] ==> !cut(TrimLeft(s, cut)[0])
  {
    before := [];
    if s != [] && cut(s[0]) {
      before := LeftIs(s[1..], cut);
      before := [s[0]] + before;
    }
  }

  lemma {:induction false} RightIs(s: string, cut: char -> bool) returns (after: string)
    ensures s == TrimRight(s, cut) + after && forall i | 0 <= i < |after| :: cut(after[i])
    ensures var t := TrimRight(s, cut); t != [] ==> !cut(t[|t| - 1])
  {
    after := [];
    if s != [] && cut(s[|s| - 1]) {
      after := RightIs(s[..|s| - 1], cut);
      after := after + [s[|s| - 1]];
    }
  }

  // ---------------------------------------------------------------- selection

  /** Words are selected one by one and in order; a word counts if it has three bytes or more,
      is no stop word, and is not made of digits alone; three are kept. */
  lemma {:induction false} SelectInTurn(a: seq<string>, b: seq<string>, stopWords: seq<string>, lower: Lowering)
    ensures Select(a + b, stopWords, lower) == Select(a, stopWords, lower) + Select(b, stopWords, lower)
    decreases |a|
  {
    if a == [] {
      assert a + b == b;
    } else {
      assert (a + b)[1..] == a[1..] + b;
      SelectInTurn(a[1..], b, stopWords, lower);
      var bare := Bare(a[0], lower);
      var first := if Significant(bare, stopWords) then [bare] else [];
      Utf8.Assoc(first, Select(a[1..], stopWords, lower), Select(b, stopWords, lower));
    }
  }

  lemma OneWord(w: string, stopWords: seq<string>, lower: Lowering)
    ensures var bare := Trim(ToLower(w, lower), c => c in ".,!?;:\"'()[]{}#*");
            Select([w], stopWords, lower) ==
              if ByteLen(bare) >= 3 && bare !in stopWords && exists i | 0 <= i < |bare| :: !('0' <= bare[i] <= '9')
              then [bare] else []
  {
    var cut := c => c in ".,!?;:\"'()[]{}#*";
    SameTrim(ToLower(w, lower), InCutset, cut);
    assert [w][1..] == [];
    var bare := Bare(w, lower);
    assert ByteLen(bare) >= 3 ==> bare != [];
  }

  lemma {:induction false} SameLeft(s: string, p: char -> bool, q: char -> bool)
    requires forall c :: p(c) == q(c)
    ensures TrimLeft(s, p) == TrimLeft(s, q)
  {
    if s != [] {
      SameLeft(s[1..], p, q);
    }
  }

  lemma {:induction false} SameRight(s: string, p: char -> bool, q: char -> bool)
    requires forall c :: p(c) == q(c)
    ensures TrimRight(s, p) == TrimRight(s, q)
  {
    if s != [] {
      SameRight(s[..|s| - 1], p, q);
    }
  }

  lemma SameTrim(s: string, p: char -> bool, q: char -> bool)
    requires forall c :: p(c) == q(c)
    ensures Trim(s, p) == Trim(s, q)
  {
    SameLeft(s, p, q);
    SameRight(TrimLeft(s, p), p, q);
  }

  /** The words that never become keywords. */
  lemma StopWordsAre(w: string)
    ensures w in STOP_WORDS <==>
            || w in ["the", "a", "an", "is", "are", "was", "were", "be", "been", "being", "have", "has", "had", "do"]
            || w in ["does", "did", "will", "would", "could", "should", "may", "might", "shall", "can", "for", "and"]
            || w in ["nor", "but", "or", "yet", "so", "at", "by", "from", "in", "into", "of", "on", "to", "with"]
            || w in ["that", "this", "these", "those", "it", "its", "you", "your", "we", "our", "my", "me", "i"]
            || w in ["he", "she", "they", "them", "their", "not", "no", "all", "each", "every", "new", "just"]
            || w in ["about", "up", "out", "if", "then", "than", "when", "what", "how", "who", "which", "where"]
            || w in ["why", "here", "there", "now", "also", "-", "\U{2013}", "\U{2014}", "|"]
  {
  }

  lemma ThreeAreKept(subject: string, lower: Lowering)
    ensures var all := Select(SubjectWords(subject, lower), STOP_WORDS, lower);
            Keywords(subject, lower) == if |all| > 3 then all[..3] else all
  {
  }

  /** The bytes counted are those of UTF-8. */
  lemma BytesAreUtf8(c: char)
    ensures CharBytes(c) == |Utf8.EncodeRune(c as int)|
  {
  }

  // ---------------------------------------------------------------- complex senders

  lemma {:induction false} LocalPartEnds(local: string, rest: string)
    requires '@' !in local
    ensures Before(local + ("@" + rest), '@') == |local|
  {
    var s := local + ("@" + rest);
    if local != [] {
      assert s[1..] == local[1..] + ("@" + rest);
      LocalPartEnds(local[1..], rest);
    }
  }

  lemma SingleIsContained(s: string, c: char)
    ensures Contains(s, [c]) <==> c in s
  {
    if c in s {
      var i :| 0 <= i < |s| && s[i] == c;
      assert At(s, [c], i);
    }
    if Contains(s, [c]) {
      PartsShareCharacters(s, [c], 0);
    }
  }

  /** `local` is the text before the first at sign or, if there is none or nothing stands before
      it, the whole text. */
  ghost predicate IsLocal(s: string, local: string) {
    || (local != "" && '@' !in local && exists rest :: s == local + ("@" + rest))
    || (local == s && ('@' !in s || s[0] == '@'))
  }

  lemma {:induction false} NoAtSign(s: string)
    requires '@' !in s
    ensures Before(s, '@') == |s|
  {
    if s != [] {
      NoAtSign(s[1..]);
    }
  }

  lemma LocalPartIs(s: string, local: string)
    requires IsLocal(s, local)
    ensures LocalPart(s) == local
  {
    if rest :| s == local + ("@" + rest) && local != "" && '@' !in local {
      LocalPartEnds(local, rest);
      assert s[..|local|] == local;
    } else if '@' !in s {
      NoAtSign(s);
    }
  }

  /** What makes an address complex, written on the address: its lower-cased text, and the part
      of it before the first at sign. */
  lemma ComplexIff(sender: string, lower: Lowering, local: string)
    requires sender != "" && IsLocal(ToLower(sender, lower), local)
    ensures var s := ToLower(sender, lower);
            IsComplexSender(sender, lower) <==>
              || ('=' in s && '@' in s)
              || "bounce-" <= s || "bounces-" <= s
              || ('+' in s && (Contains(s, "bounce") || Contains(s, "return")))
              || Count(local, c => c == '-') > 3
              || (exists part :: Contains(local, part) && |part| == 8 && AllHex(part))
              || ((Contains(local, "noreply") || Contains(local, "no-reply")) && ByteLen(local) > 15)
    ensures IsComplexSender("", lower)
  {
    var s := ToLower(sender, lower);
    LocalPartIs(s, local);
    ComplexTextIff(s, local);
  }

  lemma ComplexTextIff(s: string, local: string)
    ensures IsComplexText(s, local) <==>
              || ('=' in s && '@' in s)
              || "bounce-" <= s || "bounces-" <= s
              || ('+' in s && (Contains(s, "bounce") || Contains(s, "return")))
              || Count(local, c => c == '-') > 3
              || (exists part :: Contains(local, part) && |part| == 8 && AllHex(part))
              || ((Contains(local, "noreply") || Contains(local, "no-reply")) && ByteLen(local) > 15)
  {
    SingleIsContained(s, '=');
    SingleIsContained(s, '@');
    SingleIsContained(s, '+');
    assert ['='] == "=" && ['@'] == "@" && ['+'] == "+";
    SameCount(local, IsHyphen, c => c == '-');
    HexIff(local);
  }

  predicate AllHex(s: string) {
    forall k | 0 <= k < |s| :: '0' <= s[k] <= '9' || 'a' <= s[k] <= 'f'
  }

  lemma {:induction false} SameCount(s: string, p: char -> bool, q: char -> bool)
    requires forall c :: p(c) == q(c)
    ensures Count(s, p) == Count(s, q)
  {
    if s != [] {
      SameCount(s[1..], p, q);
    }
  }

  lemma HexAtIff(s: string, i: nat)
    ensures HexAt(s, i, 8) ==> Contains(s, s[i..i + 8]) && AllHex(s[i..i + 8])
  {
    if HexAt(s, i, 8) {
      assert At(s, s[i..i + 8], i);
    }
  }

  /** The test for identifiers adds nothing to the test for eight hexadecimal digits. */
  lemma HexIff(s: string)
    ensures HasHexRun(s) || HasUuid(s) <==> exists part :: Contains(s, part) && |part| == 8 && AllHex(part)
  {
    if i: nat :| i <= |s| && UuidAt(s, i) {
      HexAtIff(s, i);
    }
    if i: nat :| i <= |s| && HexAt(s, i, 8) {
      HexAtIff(s, i);
    }
    if part :| Contains(s, part) && |part| == 8 && AllHex(part) {
      var i: nat :| i <= |s| && At(s, part, i);
      assert forall k | i <= k < i + 8 :: s[k] == part[k - i];
      assert HexAt(s, i, 8);
    }
  }

  // ---------------------------------------------------------------- truncation

  /** The longest prefix of at most `n` bytes: no longer prefix fits. */
  lemma {:induction false} LongestPrefix(s: string, n: nat)
    ensures TakeBytes(s, n) <= s && ByteLen(TakeBytes(s, n)) <= n
    ensures var k := |TakeBytes(s, n)|; k < |s| ==> ByteLen(s[..k + 1]) > n
    decreases |s|
  {
    if s != [] && CharBytes(s[0]) <= n {
      LongestPrefix(s[1..], n - CharBytes(s[0]));
      var cut := TakeBytes(s, n);
      assert cut[1..] == TakeBytes(s[1..], n - CharBytes(s[0]));
      if |cut| < |s| {
        assert s[..|cut| + 1][1..] == s[1..][..|cut|];
      }
    } else if s != [] {
      assert s[..1][1..] == [];
    }
  }

  lemma TruncateIs(s: string)
    ensures ByteLen(s) <= 80 ==> Truncate(s, 80) == s
    ensures ByteLen(s) > 80 ==> Truncate(s, 80) == TakeBytes(s, 77) + "..."
  {
  }
}
