/** What several modules share. */
module Common {

  datatype Option<+T> = None | Some(value: T)

  predicate IsDigit(c: char) {
    '0' <= c <= '9'
  }

  // ---------------------------------------------------------------- substrings

  predicate At(text: string, part: string, i: nat) {
    i + |part| <= |text| && text[i..i + |part|] == part
  }

  /** strings.Contains. */
  predicate Contains(text: string, part: string) {
    exists i: nat | i <= |text| :: At(text, part, i)
  }

  /** A text contains a part exactly when the part stands between two other texts. */
  lemma ContainsIff(text: string, part: string)
    ensures Contains(text, part) <==> exists before, after :: text == before + part + after
  {
    if i: nat :| i <= |text| && At(text, part, i) {
      assert text == text[..i] + part + text[i + |part|..];
    }
    forall before, after | text == before + part + after
      ensures Contains(text, part)
    {
      assert At(text, part, |before|);
    }
  }

  lemma Suffix(text: string, i: nat)
    requires i <= |text|
    ensures Contains(text, text[i..])
  {
    assert text[i..][..] == text[i..];
    assert At(text, text[i..], i);
  }

  lemma Prefix(text: string, part: string)
    requires part <= text
    ensures Contains(text, part)
  {
    assert At(text, part, 0);
  }

  lemma SliceOfSlice(text: string, i: nat, mid: string, j: nat, part: string)
    requires At(text, mid, i) && At(mid, part, j)
    ensures At(text, part, i + j)
  {
    forall k | 0 <= k < |part|
      ensures text[i + j + k] == part[k]
    {
      assert part[k] == mid[j..j + |part|][k] == mid[j + k];
      assert mid[j + k] == text[i..i + |mid|][j + k];
    }
  }

  lemma ContainsTransitive(text: string, mid: string, part: string)
    requires Contains(text, mid) && Contains(mid, part)
    ensures Contains(text, part)
  {
    var i: nat :| i <= |text| && At(text, mid, i);
    var j: nat :| j <= |mid| && At(mid, part, j);
    SliceOfSlice(text, i, mid, j, part);
  }

  lemma PartsShareCharacters(text: string, part: string, k: nat)
    requires Contains(text, part) && k < |part|
    ensures part[k] in text
  {
    var i: nat :| i <= |text| && At(text, part, i);
    assert part[k] == text[i..i + |part|][k] == text[i + k];
  }
}
