/** UTF-8 repair (internal/imaplistener/movedetect.go, sanitizeUTF8).

    Go's rune decoder and encoder are written out; well-formedness follows sections 3 and 4
    of RFC 3629. */
module Utf8 {

  type Byte = b: int | 0 <= b < 256

  /** A Unicode scalar value. */
  type Scalar = r: int | 0 <= r < 0xD800 || 0xE000 <= r < 0x11_0000

  const REPLACEMENT: Scalar := 0xFFFD

  predicate Between(s: seq<Byte>, i: nat, lo: int, hi: int) {
    i < |s| && lo <= s[i] <= hi
  }

  /** Length of the character at the start of `s`, by the grammar of section 4; 0 when no
      well-formed character starts there. */
  function CharLen(s: seq<Byte>): (n: nat)
    ensures n <= |s| && n <= 4
  {
    if s == [] then 0
    else if s[0] < 0x80 then 1
    else if Between(s, 0, 0xC2, 0xDF) then
      if Between(s, 1, 0x80, 0xBF) then 2 else 0
    else if Between(s, 0, 0xE0, 0xEF) then
      var lo := if s[0] == 0xE0 then 0xA0 else 0x80;
      var hi := if s[0] == 0xED then 0x9F else 0xBF;
      if Between(s, 1, lo, hi) && Between(s, 2, 0x80, 0xBF) then 3 else 0
    else if Between(s, 0, 0xF0, 0xF4) then
      var lo := if s[0] == 0xF0 then 0x90 else 0x80;
      var hi := if s[0] == 0xF4 then 0x8F else 0xBF;
      if Between(s, 1, lo, hi) && Between(s, 2, 0x80, 0xBF) && Between(s, 3, 0x80, 0xBF) then 4 else 0
    else 0
  }

  /** The payload bits of a continuation byte appended to those already read. */
  function Append(bits: int, b: int): int {
    bits * 64 + (b - 0x80)
  }

  /** The scalar value of the character at the start of `s`. */
  function CharValue(s: seq<Byte>): Scalar
    requires CharLen(s) > 0
  {
    match CharLen(s)
    case 1 => s[0]
    case 2 => Append(s[0] - 0xC0, s[1])
    case 3 => Append(Append(s[0] - 0xE0, s[1]), s[2])
    case _ => Append(Append(Append(s[0] - 0xF0, s[1]), s[2]), s[3])
  }

  /** utf8.DecodeRuneInString on a non-empty string. */
  function DecodeRune(s: seq<Byte>): (Scalar, nat)
    requires s != []
  {
    if CharLen(s) == 0 then (REPLACEMENT, 1) else (CharValue(s), CharLen(s))
  }

  /** strings.Builder.WriteRune. */
  function EncodeRune(r: Scalar): seq<Byte> {
    if r < 0x80 then [r]
    else if r < 0x800 then [0xC0 + r / 64, 0x80 + r % 64]
    else if r < 0x1_0000 then [0xE0 + r / 4096, 0x80 + r / 64 % 64, 0x80 + r % 64]
    else [0xF0 + r / 262144, 0x80 + r / 4096 % 64, 0x80 + r / 64 % 64, 0x80 + r % 64]
  }

  /** utf8.ValidString. */
  predicate ValidString(s: seq<Byte>)
    decreases |s|
  {
    s == [] || (CharLen(s) > 0 && ValidString(s[CharLen(s)..]))
  }

  function Repair(s: seq<Byte>): seq<Byte>
    decreases |s|
  {
    if s == [] then []
    else
      var (r, size) := DecodeRune(s);
      EncodeRune(r) + Repair(s[size..])
  }

  lemma RepairUnfolds(s: seq<Byte>)
    requires s != []
    ensures var (r, size) := DecodeRune(s);
            1 <= size <= |s| && Repair(s) == EncodeRune(r) + Repair(s[size..])
  {
  }

  lemma RepairAt(s: seq<Byte>, i: nat)
    requires i < |s|
    ensures var (r, size) := DecodeRune(s[i..]);
            1 <= size <= |s| - i && Repair(s[i..]) == EncodeRune(r) + Repair(s[i + size..])
  {
    var size := DecodeRune(s[i..]).1;
    RepairUnfolds(s[i..]);
    assert s[i..][size..] == s[i + size..];
  }

  lemma Assoc<T>(a: seq<T>, b: seq<T>, c: seq<T>)
    ensures a + (b + c) == a + b + c
  {
  }

  lemma ReplacementBytes()
    ensures EncodeRune(REPLACEMENT) == [0xEF, 0xBF, 0xBD]
  {
  }

  /** What one round of the loop writes for the character or bad byte at a position, and how far
      it moves on; the decoder reports a bad byte as the replacement character of size 1, so
      that the two branches of the code write and move alike. */
  method RepairRune(s: seq<Byte>, i: nat) returns (written: seq<Byte>, size: nat)
    requires i < |s|
    ensures 1 <= size <= |s| - i && written + Repair(s[i + size..]) == Repair(s[i..])
  {
    var rest := s[i..];
    var (rune, n) := DecodeRune(rest);
    written, size := EncodeRune(rune), n;
    assert 1 <= size <= |s| - i && written + Repair(s[i + size..]) == Repair(s[i..]) by {
      RepairAt(s, i);
    }
  }

  /** One round of the loop: the bytes read so far and the position move on together. */
  method RepairNext(s: seq<Byte>, i: nat, b: seq<Byte>) returns (i': nat, b': seq<Byte>)
    requires i < |s|
    ensures i < i' <= |s|
    ensures b' + Repair(s[i'..]) == b + Repair(s[i..])
  {
    var written, size := RepairRune(s, i);
    Assoc(b, written, Repair(s[i + size..]));
    b', i' := b + written, i + size;
  }

  /** Returns a well-formed string as it is and repairs any other. */
  method SanitizeUTF8(s: seq<Byte>) returns (r: seq<Byte>)
    ensures r == Repair(s)
    ensures ValidString(r)
    ensures ValidString(s) ==> r == s
    ensures |r| <= 3 * |s|
    ensures forall a: seq<Byte>, b: Byte, t: seq<Byte> | s == a + ([b] + t) && ValidString(a) && CharLen([b] + t) == 0 ::
              r == a + ([0xEF, 0xBF, 0xBD] + Repair(t))
  {
    forall a: seq<Byte>, b: Byte, t: seq<Byte> | s == a + ([b] + t) && ValidString(a) && CharLen([b] + t) == 0
      ensures Repair(s) == a + ([0xEF, 0xBF, 0xBD] + Repair(t))
    {
      BadByteIsReplaced(a, b, t);
    }
    RepairIsValid(s);
    RepairIsShort(s);
    RepairIsIdempotent(s);
    if ValidString(s) {
      return s;
    }
    r := [];
    var i := 0;
    while i < |s|
      invariant 0 <= i <= |s|
      invariant r + Repair(s[i..]) == Repair(s)
    {
      i, r := RepairNext(s, i, r);
    }
    assert s[|s|..] == [];
  }

  // ---------------------------------------------------------------- one character

  lemma AppendSplits(bits: int, b: int)
    requires 0 <= bits && 0x80 <= b < 0xC0
    ensures Append(bits, b) / 64 == bits && 0x80 + Append(bits, b) % 64 == b
  {
  }

  lemma SplitAppends(r: int)
    requires 0 <= r
    ensures Append(r / 64, 0x80 + r % 64) == r
    ensures r / 4096 == r / 64 / 64 && r / 262144 == r / 4096 / 64
  {
  }

  lemma Encode2(a: int, b: int)
    requires 0xC2 <= a <= 0xDF && 0x80 <= b <= 0xBF
    ensures var r := Append(a - 0xC0, b); 0x80 <= r < 0x800 && EncodeRune(r) == [a, b]
  {
    AppendSplits(a - 0xC0, b);
  }

  lemma Encode3(a: int, b: int, c: int)
    requires 0xE0 <= a <= 0xEF && 0x80 <= b <= 0xBF && 0x80 <= c <= 0xBF
    requires (a == 0xE0 ==> b >= 0xA0) && (a == 0xED ==> b <= 0x9F)
    ensures var r := Append(Append(a - 0xE0, b), c);
            0x800 <= r < 0x1_0000 && (r < 0xD800 || 0xE000 <= r) && EncodeRune(r) == [a, b, c]
  {
    var r1 := Append(a - 0xE0, b);
    AppendSplits(a - 0xE0, b);
    AppendSplits(r1, c);
    SplitAppends(Append(r1, c));
  }

  lemma Encode4(a: int, b: int, c: int, d: int)
    requires 0xF0 <= a <= 0xF4 && 0x80 <= b <= 0xBF && 0x80 <= c <= 0xBF && 0x80 <= d <= 0xBF
    requires (a == 0xF0 ==> b >= 0x90) && (a == 0xF4 ==> b <= 0x8F)
    ensures var r := Append(Append(Append(a - 0xF0, b), c), d);
            0x1_0000 <= r < 0x11_0000 && EncodeRune(r) == [a, b, c, d]
  {
    var r1 := Append(a - 0xF0, b);
    var r2 := Append(r1, c);
    AppendSplits(a - 0xF0, b);
    AppendSplits(r1, c);
    AppendSplits(r2, d);
    SplitAppends(Append(r2, d));
  }

  /** Encoding what was decoded gives the bytes back. */
  lemma EncodeDecoded(s: seq<Byte>)
    requires CharLen(s) > 0
    ensures EncodeRune(CharValue(s)) == s[..CharLen(s)]
  {
    match CharLen(s)
    case 1 =>
    case 2 => Encode2(s[0], s[1]);
    case 3 => Encode3(s[0], s[1], s[2]);
    case _ => Encode4(s[0], s[1], s[2], s[3]);
  }

  lemma DecodeEncodedAlone(r: Scalar)
    ensures CharLen(EncodeRune(r)) == |EncodeRune(r)| && CharValue(EncodeRune(r)) == r
  {
    SplitAppends(r);
    SplitAppends(r / 64);
    SplitAppends(r / 4096);
  }

  /** What follows a character does not change how it is read. */
  lemma CharIgnoresRest(a: seq<Byte>, b: seq<Byte>)
    requires CharLen(a) > 0
    ensures CharLen(a + b) == CharLen(a) && CharValue(a + b) == CharValue(a)
  {
    var s := a + b;
    assert s[0] == a[0];
    assert forall i | 0 <= i < |a| :: s[i] == a[i];
  }

  /** Every scalar value is decoded from its encoding, whatever follows it. */
  lemma DecodeEncoded(r: Scalar, rest: seq<Byte>)
    ensures CharLen(EncodeRune(r) + rest) == |EncodeRune(r)|
    ensures CharValue(EncodeRune(r) + rest) == r
    ensures 1 <= |EncodeRune(r)| <= 4
  {
    DecodeEncodedAlone(r);
    CharIgnoresRest(EncodeRune(r), rest);
  }

  // ---------------------------------------------------------------- whole strings

  /** The encoding of a sequence of scalar values. */
  function EncodeAll(runes: seq<Scalar>): seq<Byte> {
    if runes == [] then [] else EncodeRune(runes[0]) + EncodeAll(runes[1..])
  }

  function DecodeAll(s: seq<Byte>): seq<Scalar>
    requires ValidString(s)
    decreases |s|
  {
    if s == [] then [] else [CharValue(s)] + DecodeAll(s[CharLen(s)..])
  }

  lemma {:induction false} EncodeAllIsValid(runes: seq<Scalar>)
    ensures ValidString(EncodeAll(runes)) && DecodeAll(EncodeAll(runes)) == runes
    decreases |runes|
  {
    if runes != [] {
      EncodeAllIsValid(runes[1..]);
      var head, tail := EncodeRune(runes[0]), EncodeAll(runes[1..]);
      DecodeEncoded(runes[0], tail);
      assert (head + tail)[|head|..] == tail;
    }
  }

  lemma EncodeAllCons(r: Scalar, runes: seq<Scalar>)
    ensures EncodeAll([r] + runes) == EncodeRune(r) + EncodeAll(runes)
  {
    assert ([r] + runes)[1..] == runes;
  }

  lemma DecodeAllUnfolds(s: seq<Byte>)
    requires s != [] && ValidString(s)
    ensures EncodeAll(DecodeAll(s)) == s[..CharLen(s)] + EncodeAll(DecodeAll(s[CharLen(s)..]))
  {
    EncodeDecoded(s);
    EncodeAllCons(CharValue(s), DecodeAll(s[CharLen(s)..]));
  }

  lemma {:induction false} DecodeAllRoundTrip(s: seq<Byte>)
    requires ValidString(s)
    ensures EncodeAll(DecodeAll(s)) == s
    decreases |s|
  {
    if s != [] {
      var n := CharLen(s);
      DecodeAllUnfolds(s);
      DecodeAllRoundTrip(s[n..]);
      Glue(s, n, []);
      assert s[n..] + [] == s[n..] && s + [] == s;
    }
  }

  /** Well-formed means: the encoding of some sequence of scalar values. */
  lemma ValidIffEncoding(s: seq<Byte>)
    ensures ValidString(s) <==> exists runes: seq<Scalar> :: EncodeAll(runes) == s
  {
    if ValidString(s) {
      DecodeAllRoundTrip(s);
    }
    if runes: seq<Scalar> :| EncodeAll(runes) == s {
      EncodeAllIsValid(runes);
    }
  }

  // ---------------------------------------------------------------- repair

  /** Repair copies a well-formed character, whatever follows the string it begins. */
  lemma RepairCopies(a: seq<Byte>, b: seq<Byte>)
    requires CharLen(a) > 0
    ensures Repair(a + b) == a[..CharLen(a)] + Repair(a[CharLen(a)..] + b)
  {
    var n := CharLen(a);
    CharIgnoresRest(a, b);
    EncodeDecoded(a);
    assert (a + b)[n..] == a[n..] + b;
  }

  lemma {:induction false} RepairIsValid(s: seq<Byte>)
    ensures ValidString(Repair(s))
    decreases |s|
  {
    if s != [] {
      var (r, size) := DecodeRune(s);
      RepairIsValid(s[size..]);
      DecodeEncoded(r, Repair(s[size..]));
      assert (EncodeRune(r) + Repair(s[size..]))[|EncodeRune(r)|..] == Repair(s[size..]);
    }
  }

  lemma Glue<T>(a: seq<T>, n: nat, tail: seq<T>)
    requires n <= |a|
    ensures a[..n] + (a[n..] + tail) == a + tail
  {
  }

  /** A well-formed beginning is kept byte for byte, genuine replacement characters
      included; only what follows is repaired. */
  lemma {:induction false} ValidIsKept(a: seq<Byte>, b: seq<Byte>)
    requires ValidString(a)
    ensures Repair(a + b) == a + Repair(b)
    decreases |a|
  {
    if a == [] {
      assert a + b == b;
    } else {
      var n := CharLen(a);
      RepairCopies(a, b);
      ValidIsKept(a[n..], b);
      Glue(a, n, Repair(b));
    }
  }

  lemma DropFirst(b: Byte, t: seq<Byte>)
    ensures ([b] + t)[1..] == t
  {
  }

  /** A byte that starts no character is replaced by itself alone: what stands before it is
      kept and what follows it is repaired in turn.  Together with the law above this fixes
      the repair of every string. */
  lemma BadByteIsReplaced(a: seq<Byte>, b: Byte, t: seq<Byte>)
    requires ValidString(a) && CharLen([b] + t) == 0
    ensures Repair(a + ([b] + t)) == a + ([0xEF, 0xBF, 0xBD] + Repair(t))
  {
    ValidIsKept(a, [b] + t);
    RepairUnfolds([b] + t);
    ReplacementBytes();
    DropFirst(b, t);
  }

  lemma {:induction false} RepairIsShort(s: seq<Byte>)
    ensures |Repair(s)| <= 3 * |s|
    decreases |s|
  {
    if s != [] {
      var (r, size) := DecodeRune(s);
      RepairIsShort(s[size..]);
      if CharLen(s) > 0 {
        EncodeDecoded(s);
      }
    }
  }

  /** Repairing twice is repairing once, and repair is the identity on exactly the
      well-formed strings. */
  lemma RepairIsIdempotent(s: seq<Byte>)
    ensures Repair(Repair(s)) == Repair(s)
    ensures Repair(s) == s <==> ValidString(s)
  {
    RepairIsValid(s);
    ValidIsKept(Repair(s), []);
    assert Repair(s) + [] == Repair(s);
    if ValidString(s) {
      ValidIsKept(s, []);
      assert s + [] == s;
    }
  }
}
