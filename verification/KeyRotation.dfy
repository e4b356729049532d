/** Versioned password encryption and key rotation
    (internal/crypto/crypto.go, internal/db/db.go).

    AES-GCM, HKDF, SHA-256 and base64 stay abstract: a Suite of functions of which only the
    two round-trip laws are assumed.  The version prefix, its printer and parser, the legacy
    fallbacks and the table-wide rotation are the repository's own logic. */
module KeyRotation {

  import opened Common

  datatype Error = BadBase64 | UnknownVersion(version: int) | OpenFailed | NoKeys | MissingCurrent | EmptyKey

  datatype Result<+T> = Ok(value: T) | Err(error: Error)

  lemma SomeElement(s: set<int>)
    ensures s == {} || exists x :: x in s
  {
    if forall x :: x !in s {
      assert s == {};
    }
  }

  // ---------------------------------------------------------------- %d and strconv.Atoi

  const MIN_INT: int := -0x8000_0000_0000_0000
  const MAX_INT: int := 0x7fff_ffff_ffff_ffff

  function Digits(n: nat): string {
    if n < 10 then ['0' + n as char] else Digits(n / 10) + ['0' + (n % 10) as char]
  }

  /** fmt's %d. */
  function PrintInt(i: int): string {
    if i < 0 then "-" + Digits(-i) else Digits(i)
  }

  function Value(s: string): nat
    requires forall c | c in s :: IsDigit(c)
  {
    if s == [] then 0
    else
      assert IsDigit(s[|s| - 1]);
      10 * Value(s[..|s| - 1]) + (s[|s| - 1] as int - '0' as int)
  }

  predicate AllDigits(s: string) {
    s != [] && forall c | c in s :: IsDigit(c)
  }

  /** strconv.Atoi: an optional sign, at least one digit, within 64 bits. */
  function Atoi(s: string): Option<int> {
    var signed := s != [] && (s[0] == '+' || s[0] == '-');
    var digits := if signed then s[1..] else s;
    if !AllDigits(digits) then None
    else
      var v := if signed && s[0] == '-' then -(Value(digits) as int) else Value(digits);
      if MIN_INT <= v <= MAX_INT then Some(v) else None
  }

  lemma {:induction false} ValueOfDigits(n: nat)
    ensures AllDigits(Digits(n)) && Value(Digits(n)) == n
    decreases n
  {
    if n >= 10 {
      ValueOfDigits(n / 10);
      var d := Digits(n);
      assert d[..|d| - 1] == Digits(n / 10);
    } else {
      assert Digits(n)[..0] == [];
    }
  }

  /** Every 64-bit integer is read back from its decimal form. */
  lemma AtoiReadsPrintInt(i: int)
    requires -0x8000_0000_0000_0000 <= i <= 0x7fff_ffff_ffff_ffff
    ensures Atoi(PrintInt(i)) == Some(i)
    ensures PrintInt(i) != [] && ':' !in PrintInt(i)
  {
    if i < 0 {
      ValueOfDigits(-i);
      assert PrintInt(i)[1..] == Digits(-i);
    } else {
      ValueOfDigits(i);
      assert IsDigit(Digits(i)[0]);
    }
  }

  // ---------------------------------------------------------------- ciphertext format

  /** strings.IndexByte, with |s| for "absent". */
  function IndexOf(s: string, c: char): (i: nat)
    ensures i <= |s| && c !in s[..i] && (i < |s| ==> s[i] == c)
  {
    if s == [] || s[0] == c then 0
    else
      var rest := IndexOf(s[1..], c);
      assert s[..1 + rest] == [s[0]] + s[1..][..rest];
      1 + rest
  }

  datatype Versioned = Versioned(version: int, encoded: string)

  /** parseVersionedCiphertext: "v", a number, a colon, the data. */
  function ParseVersioned(s: string): Option<Versioned> {
    if s == [] || s[0] != 'v' then None
    else
      var idx := IndexOf(s, ':');
      if idx == |s| || idx < 2 then None
      else match Atoi(s[1..idx])
        case None => None
        case Some(v) => Some(Versioned(v, s[idx + 1..]))
  }

  function PrintVersioned(version: int, encoded: string): string {
    "v" + PrintInt(version) + ":" + encoded
  }

  lemma FirstColon(a: string, b: string)
    requires ':' !in a
    ensures IndexOf(a + ":" + b, ':') == |a|
  {
    var s := a + ":" + b;
    var i := IndexOf(s, ':');
    assert s[|a|] == ':';
    assert i < |s| && s[i] == ':';
  }

  /** The parser undoes the printer for every version and every data. */
  lemma ParsePrint(version: int, encoded: string)
    requires MIN_INT <= version <= MAX_INT
    ensures ParseVersioned(PrintVersioned(version, encoded)) == Some(Versioned(version, encoded))
  {
    AtoiReadsPrintInt(version);
    var head := "v" + PrintInt(version);
    FirstColon(head, encoded);
    var s := PrintVersioned(version, encoded);
    assert s == head + ":" + encoded;
    assert s[1..|head|] == PrintInt(version);
    assert s[|head| + 1..] == encoded;
  }

  /** Atoi reads nothing but an optional sign and digits, within 64 bits. */
  lemma AtoiAccepts(s: string)
    ensures Atoi(s).Some? ==>
              var digits := if s != [] && s[0] in {'+', '-'} then s[1..] else s;
              && digits != [] && (forall i | 0 <= i < |digits| :: '0' <= digits[i] <= '9')
              && -0x8000_0000_0000_0000 <= Atoi(s).value <= 0x7fff_ffff_ffff_ffff
  {
    var digits := if s != [] && s[0] in {'+', '-'} then s[1..] else s;
    assert forall i | 0 <= i < |digits| :: digits[i] in digits;
  }

  /** A text reads as versioned exactly when it is "v", a number, a colon and the data. */
  lemma ParsesIff(s: string, version: int, encoded: string)
    ensures ParseVersioned(s) == Some(Versioned(version, encoded)) <==>
            exists number :: s == "v" + number + ":" + encoded && number != "" && ':' !in number && Atoi(number) == Some(version)
  {
    if ParseVersioned(s) == Some(Versioned(version, encoded)) {
      var idx := IndexOf(s, ':');
      var number := s[1..idx];
      assert s == "v" + number + ":" + encoded;
      assert ':' !in number by {
        assert forall i | 0 <= i < |number| :: number[i] == s[..idx][i + 1];
      }
    }
    forall number | s == "v" + number + ":" + encoded && number != "" && ':' !in number && Atoi(number) == Some(version)
      ensures ParseVersioned(s) == Some(Versioned(version, encoded))
    {
      FirstColon("v" + number, encoded);
      assert s[1..|number| + 1] == number && s[|number| + 2..] == encoded;
    }
  }

  // ---------------------------------------------------------------- encryptor

  /** derive: hashed master key and account to account key.  seal: key, nonce and plaintext
      to nonce-plus-ciphertext.  encode and decode: base64. */
  datatype Suite = Suite(
    hash: string -> string,
    derive: (string, int) -> string,
    seal: (string, string, string) -> string,
    open: (string, string) -> Option<string>,
    encode: string -> string,
    decode: string -> Option<string>)

  /** The only laws assumed of the library code. */
  ghost predicate Lawful(s: Suite) {
    && (forall key, nonce, plain :: s.open(key, s.seal(key, nonce, plain)) == Some(plain))
    && (forall data :: s.decode(s.encode(data)) == Some(data))
  }

  /** Immutable after construction: hashed master keys by version. */
  datatype Encryptor = Encryptor(current: int, keys: map<int, string>) {
    ghost predicate Valid() {
      && current in keys
      && forall v | v in keys :: MIN_INT <= v <= MAX_INT
    }

    function DecryptRaw(suite: Suite, data: string, version: int, account: int): Result<string> {
      if version !in keys then Err(UnknownVersion(version))
      else match suite.open(suite.derive(keys[version], account), data)
        case None => Err(OpenFailed)
        case Some(plain) => Ok(plain)
    }

    function Decrypt(suite: Suite, ciphertext: string, account: int): Result<string> {
      if ciphertext == "" then Ok("")
      else match ParseVersioned(ciphertext)
        case Some(v) =>
          (match suite.decode(v.encoded)
           case None => Err(BadBase64)
           case Some(data) => DecryptRaw(suite, data, v.version, account))
        case None =>
          match suite.decode(ciphertext)
          case None => Ok(ciphertext)
          case Some(data) =>
            match DecryptRaw(suite, data, current, account)
            case Err(_) => Ok(ciphertext)
            case Ok(plain) => Ok(plain)
    }

    function Encrypt(suite: Suite, plaintext: string, account: int, nonce: string): Result<string> {
      if plaintext == "" then Ok("")
      else if current !in keys then Err(UnknownVersion(current))
      else
        var data := suite.seal(suite.derive(keys[current], account), nonce, plaintext);
        Ok(PrintVersioned(current, suite.encode(data)))
    }

    predicate NeedsRotation(ciphertext: string) {
      ciphertext != "" &&
      match ParseVersioned(ciphertext)
      case None => true
      case Some(v) => v.version != current
    }
  }

  /** Hashes every provided key; refuses an empty set, a missing current version and an
      empty key. */
  method NewVersionedEncryptor(suite: Suite, keys: map<int, string>, currentVersion: int)
    returns (r: Result<Encryptor>)
    requires forall v | v in keys :: MIN_INT <= v <= MAX_INT
    ensures r.Ok? <==> currentVersion in keys && forall v | v in keys :: keys[v] != ""
    ensures r.Ok? ==>
              && r.value.Valid() && r.value.current == currentVersion
              && r.value.keys.Keys == keys.Keys
              && forall v | v in keys :: r.value.keys[v] == suite.hash(keys[v])
  {
    if |keys| == 0 {
      return Err(NoKeys);
    }
    if currentVersion !in keys {
      return Err(MissingCurrent);
    }
    var hashed: map<int, string> := map[];
    var todo := keys.Keys;
    while todo != {}
      invariant todo <= keys.Keys && hashed.Keys == keys.Keys - todo
      invariant forall v | v in hashed :: keys[v] != "" && hashed[v] == suite.hash(keys[v])
      decreases todo
    {
      SomeElement(todo);
      var v :| v in todo;
      todo := todo - {v};
      if keys[v] == "" {
        return Err(EmptyKey);
      }
      hashed := hashed[v := suite.hash(keys[v])];
    }
    r := Ok(Encryptor(currentVersion, hashed));
  }

  /** What was encrypted for an account is decrypted for it, whatever the version number,
      the nonce and the plaintext, the empty one included. */
  lemma RoundTrip(e: Encryptor, suite: Suite, plaintext: string, account: int, nonce: string)
    requires e.Valid() && Lawful(suite)
    ensures var c := e.Encrypt(suite, plaintext, account, nonce);
            && c.Ok?
            && e.Decrypt(suite, c.value, account) == Ok(plaintext)
            && !e.NeedsRotation(c.value)
  {
    if plaintext != "" {
      var data := suite.seal(suite.derive(e.keys[e.current], account), nonce, plaintext);
      ParsePrint(e.current, suite.encode(data));
      assert suite.decode(suite.encode(data)) == Some(data);
    }
  }

  // ---------------------------------------------------------------- rotation of one row

  /** What one rotation does to one password: the new value, and whether it counts. */
  function RotateRow(e: Encryptor, suite: Suite, account: int, password: string, nonce: string): (string, bool) {
    if !e.NeedsRotation(password) then (password, false)
    else match e.Decrypt(suite, password, account)
      case Err(_) => (password, false)
      case Ok(plaintext) =>
        match e.Encrypt(suite, plaintext, account, nonce)
        case Err(_) => (password, false)
        case Ok(encrypted) => (encrypted, true)
  }

  /** Rotation leaves what Decrypt returns, errors included, unchanged. */
  lemma RotationKeepsMeaning(e: Encryptor, suite: Suite, account: int, password: string, nonce: string)
    requires e.Valid() && Lawful(suite)
    ensures e.Decrypt(suite, RotateRow(e, suite, account, password, nonce).0, account) ==
            e.Decrypt(suite, password, account)
  {
    match e.Decrypt(suite, password, account)
    case Err(_) =>
    case Ok(plaintext) => RoundTrip(e, suite, plaintext, account, nonce);
  }

  /** A row counts exactly when its stored value changes; a second rotation finds nothing
      to do; rows that cannot be decrypted stay as they are. */
  lemma RotationSettles(e: Encryptor, suite: Suite, account: int, password: string, nonce: string, nonce2: string)
    requires e.Valid() && Lawful(suite)
    ensures var (rotated, counted) := RotateRow(e, suite, account, password, nonce);
            && (counted <==> rotated != password)
            && RotateRow(e, suite, account, rotated, nonce2) == (rotated, false)
            && (e.Decrypt(suite, password, account).Err? ==> rotated == password)
  {
    match e.Decrypt(suite, password, account)
    case Err(_) =>
    case Ok(plaintext) => RoundTrip(e, suite, plaintext, account, nonce);
  }

  /** The same encryptor after the old keys are thrown away. */
  function OnlyCurrent(e: Encryptor): Encryptor
    requires e.current in e.keys
  {
    Encryptor(e.current, map[e.current := e.keys[e.current]])
  }

  /** After rotation the old keys can go: whatever was decryptable before still decrypts,
      to the same plaintext, under the current key alone. */
  lemma OldKeysCanGo(e: Encryptor, suite: Suite, account: int, password: string, nonce: string)
    requires e.Valid() && Lawful(suite)
    requires e.Decrypt(suite, password, account).Ok?
    ensures OnlyCurrent(e).Decrypt(suite, RotateRow(e, suite, account, password, nonce).0, account) ==
            e.Decrypt(suite, password, account)
  {
    var plaintext := e.Decrypt(suite, password, account).value;
    var one := OnlyCurrent(e);
    if e.NeedsRotation(password) {
      assert one.Encrypt(suite, plaintext, account, nonce) == e.Encrypt(suite, plaintext, account, nonce);
      RoundTrip(one, suite, plaintext, account, nonce);
    }
  }

  /** What Decrypt makes of any stored value, by the shape a caller can see.  The version in
      the prefix selects the key, and the account derives the one that opens the data; without
      a prefix the value is legacy, and passes through unless it is base64 that opens under
      the current key. */
  lemma DecryptByShape(e: Encryptor, suite: Suite, p: string, account: int)
    requires p != ""
    ensures match ParseVersioned(p)
            case Some(v) =>
              (match suite.decode(v.encoded)
               case None => e.Decrypt(suite, p, account) == Err(BadBase64)
               case Some(data) =>
                 e.Decrypt(suite, p, account) ==
                   if v.version !in e.keys then Err(UnknownVersion(v.version))
                   else match suite.open(suite.derive(e.keys[v.version], account), data)
                     case None => Err(OpenFailed)
                     case Some(plain) => Ok(plain))
            case None =>
              match suite.decode(p)
              case None => e.Decrypt(suite, p, account) == Ok(p)
              case Some(data) =>
                e.Decrypt(suite, p, account) ==
                  if e.current !in e.keys then Ok(p)
                  else match suite.open(suite.derive(e.keys[e.current], account), data)
                    case None => Ok(p)
                    case Some(plain) => Ok(plain)
  {
  }

  /** What Encrypt writes: the current version, and the plaintext sealed under the key that is
      derived from that version's key for the account. */
  lemma EncryptedForm(e: Encryptor, suite: Suite, plaintext: string, account: int, nonce: string)
    requires e.Valid() && plaintext != ""
    ensures e.Encrypt(suite, plaintext, account, nonce) ==
            Ok("v" + PrintInt(e.current) + ":" +
               suite.encode(suite.seal(suite.derive(e.keys[e.current], account), nonce, plaintext)))
    ensures e.Encrypt(suite, "", account, nonce) == Ok("")
  {
  }

  /** What one encryptor wrote, any other that still has the key of that version reads; one
      rotation by the other moves it to the other's current version, and from then on the
      other needs that key alone.  An encryptor without the version refuses it by name. */
  lemma VersionSelectsKey(e1: Encryptor, e2: Encryptor, suite: Suite, p: string, account: int, nonce: string, nonce2: string)
    requires e1.Valid() && e2.Valid() && Lawful(suite) && p != ""
    ensures var c := e1.Encrypt(suite, p, account, nonce).value;
            && (e1.current in e2.keys && e2.keys[e1.current] == e1.keys[e1.current] ==>
                  var rotated := RotateRow(e2, suite, account, c, nonce2).0;
                  && e2.Decrypt(suite, c, account) == Ok(p)
                  && ParseVersioned(rotated).Some? && ParseVersioned(rotated).value.version == e2.current
                  && OnlyCurrent(e2).Decrypt(suite, rotated, account) == Ok(p))
            && (e1.current !in e2.keys ==> e2.Decrypt(suite, c, account) == Err(UnknownVersion(e1.current)))
  {
    var data := suite.seal(suite.derive(e1.keys[e1.current], account), nonce, p);
    EncryptedForm(e1, suite, p, account, nonce);
    ParsePrint(e1.current, suite.encode(data));
    assert suite.decode(suite.encode(data)) == Some(data);
    if e1.current in e2.keys && e2.keys[e1.current] == e1.keys[e1.current] {
      RoundTrip(e2, suite, p, account, nonce2);
      OldKeysCanGo(e2, suite, account, e1.Encrypt(suite, p, account, nonce).value, nonce2);
      var data2 := suite.seal(suite.derive(e2.keys[e2.current], account), nonce2, p);
      ParsePrint(e2.current, suite.encode(data2));
    }
  }

  /** A legacy plaintext: not base64, and not by accident a version prefix before base64. */
  ghost predicate IsPlaintext(suite: Suite, p: string) {
    && p != "" && suite.decode(p).None?
    && (ParseVersioned(p).Some? ==> suite.decode(ParseVersioned(p).value.encoded).None?)
  }

  /** A legacy plaintext passes through exactly when it does not read like a version prefix. */
  lemma PlaintextPassesIff(e: Encryptor, suite: Suite, p: string, account: int)
    requires IsPlaintext(suite, p)
    ensures e.Decrypt(suite, p, account) == Ok(p) <==> ParseVersioned(p) == None
    ensures e.Decrypt(suite, p, account) == if ParseVersioned(p) == None then Ok(p) else Err(BadBase64)
  {
    DecryptByShape(e, suite, p, account);
  }

  /** One that does is an error under every set of keys, and no rotation ever mends or moves
      it, while every other plaintext is encrypted by its first rotation. */
  lemma PlaintextRotates(e: Encryptor, suite: Suite, p: string, account: int, nonce: string)
    requires IsPlaintext(suite, p) && e.Valid() && Lawful(suite)
    ensures ParseVersioned(p).Some? ==>
              && RotateRow(e, suite, account, p, nonce) == (p, false)
              && forall e2: Encryptor :: e2.Decrypt(suite, p, account) == Err(BadBase64)
    ensures ParseVersioned(p).None? ==>
              var (rotated, counted) := RotateRow(e, suite, account, p, nonce);
              && counted && ParseVersioned(rotated).Some? && ParseVersioned(rotated).value.version == e.current
              && OnlyCurrent(e).Decrypt(suite, rotated, account) == Ok(p)
  {
    PlaintextPassesIff(e, suite, p, account);
    if ParseVersioned(p).Some? {
      forall e2: Encryptor
        ensures e2.Decrypt(suite, p, account) == Err(BadBase64)
      {
        DecryptByShape(e2, suite, p, account);
      }
    } else {
      RoundTrip(e, suite, p, account, nonce);
      OldKeysCanGo(e, suite, account, p, nonce);
      var data := suite.seal(suite.derive(e.keys[e.current], account), nonce, p);
      ParsePrint(e.current, suite.encode(data));
    }
  }

  /** A number with a plus sign is read as well, though no printer makes it. */
  lemma PlusIsRead(version: int, encoded: string)
    requires 0 <= version <= MAX_INT
    ensures ParseVersioned("v+" + PrintInt(version) + ":" + encoded) == Some(Versioned(version, encoded))
  {
    var number := "+" + PrintInt(version);
    var head := "v" + number;
    var p := head + ":" + encoded;
    assert "v+" + PrintInt(version) + ":" + encoded == p;
    ValueOfDigits(version);
    AtoiReadsPrintInt(version);
    assert number[1..] == PrintInt(version);
    FirstColon(head, encoded);
    assert p[1..|head|] == number && p[|head| + 1..] == encoded;
  }

  /** Among those that fail: every printed version number, also with a plus sign, before
      something that is not base64. */
  lemma LookalikePasswordsFail(e: Encryptor, suite: Suite, version: int, rest: string, account: int)
    requires MIN_INT <= version <= MAX_INT && suite.decode(rest) == None
    ensures e.Decrypt(suite, PrintVersioned(version, rest), account) == Err(BadBase64)
    ensures 0 <= version ==> e.Decrypt(suite, "v+" + PrintInt(version) + ":" + rest, account) == Err(BadBase64)
  {
    ParsePrint(version, rest);
    if 0 <= version {
      PlusIsRead(version, rest);
    }
  }

  /** Unversioned base64 that opens under some key of the encryptor decrypts to its plaintext
      exactly when it opens so under the current key.  Sealed under another key it passes for
      a plaintext: Decrypt returns the stored text, and rotation encrypts that text, so that
      no later Decrypt and no further rotation gives the plaintext. */
  lemma LegacyBase64Iff(e: Encryptor, suite: Suite, p: string, data: string, version: int, plain: string,
                        account: int, nonce: string, nonce2: string)
    requires e.Valid() && Lawful(suite) && p != "" && ParseVersioned(p).None? && suite.decode(p) == Some(data)
    requires e.DecryptRaw(suite, data, version, account) == Ok(plain) && plain != p
    ensures e.Decrypt(suite, p, account) == Ok(plain) <==> e.DecryptRaw(suite, data, e.current, account) == Ok(plain)
    ensures e.DecryptRaw(suite, data, e.current, account).Err? ==>
              var once := RotateRow(e, suite, account, p, nonce).0;
              var twice := RotateRow(e, suite, account, once, nonce2).0;
              && once != p && twice == once
              && e.Decrypt(suite, p, account) == e.Decrypt(suite, once, account) == Ok(p)
              && OnlyCurrent(e).Decrypt(suite, once, account) == Ok(p)
  {
    if e.DecryptRaw(suite, data, e.current, account).Err? {
      RotationSettles(e, suite, account, p, nonce, nonce2);
      RotationKeepsMeaning(e, suite, account, p, nonce);
      OldKeysCanGo(e, suite, account, p, nonce);
    }
  }

  // ---------------------------------------------------------------- rotation of the table

  /** The accounts whose stored password differs. */
  function Changed(before: map<int, string>, after: map<int, string>): set<int> {
    set id | id in after && (id !in before || before[id] != after[id])
  }

  /** The table halfway: rows in `todo` as they were, the others as they have to become. */
  function Blend(was: map<int, string>, goal: map<int, string>, todo: set<int>): map<int, string>
    requires was.Keys == goal.Keys
  {
    map id | id in was :: if id in todo then was[id] else goal[id]
  }

  lemma BlendStep(was: map<int, string>, goal: map<int, string>, todo: set<int>, id: int)
    requires was.Keys == goal.Keys && todo <= was.Keys && id in todo
    ensures Blend(was, goal, todo)[id := goal[id]] == Blend(was, goal, todo - {id})
    ensures Blend(was, goal, todo)[id] == was[id]
    ensures |Changed(was, Blend(was, goal, todo - {id}))| ==
            |Changed(was, Blend(was, goal, todo))| + (if goal[id] != was[id] then 1 else 0)
  {
    var before, after := Changed(was, Blend(was, goal, todo)), Changed(was, Blend(was, goal, todo - {id}));
    if goal[id] == was[id] {
      assert before == after;
    } else {
      assert after == before + {id};
    }
  }

  lemma BlendEnds(was: map<int, string>, goal: map<int, string>, todo: set<int>)
    requires was.Keys == goal.Keys && todo <= was.Keys
    requires forall id | id in was && id !in todo :: goal[id] == was[id]
    ensures Blend(was, goal, todo) == was && Blend(was, goal, {}) == goal
    ensures |Changed(was, was)| == 0
  {
    forall id | id in was
      ensures Blend(was, goal, todo)[id] == was[id]
    {
      assert id !in todo ==> goal[id] == was[id];
    }
    assert Blend(was, goal, todo).Keys == was.Keys;
    assert Blend(was, goal, {}).Keys == goal.Keys;
    assert Changed(was, was) == {};
  }

  /** The table after a rotation in which exactly the accounts in `stores` could be updated. */
  function RotateTable(e: Encryptor, suite: Suite, passwords: map<int, string>,
                       nonces: int -> string, stores: int -> bool): map<int, string> {
    map id | id in passwords ::
      if stores(id) then RotateRow(e, suite, id, passwords[id], nonces(id)).0 else passwords[id]
  }

  /** No password of the table changes what it decrypts to, or how it fails. */
  lemma TableKeepsMeaning(e: Encryptor, suite: Suite, passwords: map<int, string>,
                          nonces: int -> string, stores: int -> bool)
    requires e.Valid() && Lawful(suite)
    ensures var after := RotateTable(e, suite, passwords, nonces, stores);
            forall id | id in passwords ::
              e.Decrypt(suite, after[id], id) == e.Decrypt(suite, passwords[id], id)
  {
    forall id | id in passwords
      ensures e.Decrypt(suite, RotateRow(e, suite, id, passwords[id], nonces(id)).0, id) ==
              e.Decrypt(suite, passwords[id], id)
    {
      RotationKeepsMeaning(e, suite, id, passwords[id], nonces(id));
    }
  }

  /** Once every update has been stored, a second rotation changes no row, and every
      password that was decryptable before needs the current key only. */
  lemma SecondRotationFindsNothing(e: Encryptor, suite: Suite, passwords: map<int, string>,
                                   nonces: int -> string, nonces2: int -> string)
    requires e.Valid() && Lawful(suite)
    ensures var once := RotateTable(e, suite, passwords, nonces, _ => true);
            && RotateTable(e, suite, once, nonces2, _ => true) == once
            && Changed(once, RotateTable(e, suite, once, nonces2, _ => true)) == {}
            && forall id | id in passwords && e.Decrypt(suite, passwords[id], id).Ok? ::
                 id in once &&
                 OnlyCurrent(e).Decrypt(suite, once[id], id) == e.Decrypt(suite, passwords[id], id)
  {
    var once := RotateTable(e, suite, passwords, nonces, _ => true);
    forall id | id in passwords
      ensures RotateRow(e, suite, id, once[id], nonces2(id)) == (once[id], false)
      ensures e.Decrypt(suite, passwords[id], id).Ok? ==>
                OnlyCurrent(e).Decrypt(suite, once[id], id) == e.Decrypt(suite, passwords[id], id)
    {
      RotationSettles(e, suite, id, passwords[id], nonces(id), nonces2(id));
      if e.Decrypt(suite, passwords[id], id).Ok? {
        OldKeysCanGo(e, suite, id, passwords[id], nonces(id));
      }
    }
    assert RotateTable(e, suite, once, nonces2, _ => true) == once;
  }

  /** Rows whose update is refused, or that cannot be decrypted, stay; the others need the
      current key alone. */
  lemma StoredRowsNeedCurrentKey(e: Encryptor, suite: Suite, passwords: map<int, string>,
                                 nonces: int -> string, stores: int -> bool)
    requires e.Valid() && Lawful(suite)
    ensures var after := RotateTable(e, suite, passwords, nonces, stores);
            forall id | id in passwords ::
              && (!stores(id) || e.Decrypt(suite, passwords[id], id).Err? ==> after[id] == passwords[id])
              && (stores(id) && e.Decrypt(suite, passwords[id], id).Ok? ==>
                    OnlyCurrent(e).Decrypt(suite, after[id], id) == e.Decrypt(suite, passwords[id], id))
  {
    forall id | id in passwords && stores(id)
      ensures var after := RotateRow(e, suite, id, passwords[id], nonces(id)).0;
              if e.Decrypt(suite, passwords[id], id).Err? then after == passwords[id]
              else OnlyCurrent(e).Decrypt(suite, after, id) == e.Decrypt(suite, passwords[id], id)
    {
      if e.Decrypt(suite, passwords[id], id).Ok? {
        OldKeysCanGo(e, suite, id, passwords[id], nonces(id));
      }
    }
  }

  /** `password` of a row that needs rotation has to become `goal`. */
  ghost predicate RowGoal(e: Encryptor, suite: Suite, id: int, password: string, nonce: string,
                          stored: bool, goal: string) {
    && e.NeedsRotation(password)
    && goal == if stored then RotateRow(e, suite, id, password, nonce).0 else password
  }

  class Accounts {
    /** Passwords by account id; accounts whose password is NULL are absent. */
    var passwords: map<int, string>

    constructor (passwords: map<int, string>)
      ensures this.passwords == passwords
    {
      this.passwords := passwords;
    }

    /** The rows the rotation has to touch; the query leaves their order open. */
    method RowsToRotate(e: Encryptor) returns (toRotate: set<int>)
      ensures toRotate <= passwords.Keys
      ensures forall id | id in passwords :: id in toRotate <==> e.NeedsRotation(passwords[id])
    {
      toRotate := {};
      var todo := passwords.Keys;
      while todo != {}
        invariant todo <= passwords.Keys && toRotate <= passwords.Keys - todo
        invariant forall id | id in passwords && id !in todo ::
                    id in toRotate <==> e.NeedsRotation(passwords[id])
        decreases todo
      {
        SomeElement(todo);
        var id :| id in todo;
        todo := todo - {id};
        if passwords[id] != "" && e.NeedsRotation(passwords[id]) {
          toRotate := toRotate + {id};
        }
      }
    }

    /** Decrypts and re-encrypts one row; a row that fails, or whose update the database
        refuses, keeps its value. */
    method RotateOne(e: Encryptor, suite: Suite, id: int, nonce: string, stored: bool, ghost goal: string)
      returns (counted: bool)
      requires e.Valid() && Lawful(suite) && id in passwords
      requires RowGoal(e, suite, id, passwords[id], nonce, stored, goal)
      modifies this
      ensures passwords == old(passwords)[id := goal]
      ensures counted <==> goal != old(passwords)[id]
    {
      RotationSettles(e, suite, id, passwords[id], nonce, nonce);
      var plaintext := e.Decrypt(suite, passwords[id], id);
      if plaintext.Err? {
        return false;
      }
      var encrypted := e.Encrypt(suite, plaintext.value, id, nonce);
      if encrypted.Err? || !stored {
        return false;
      }
      passwords := passwords[id := encrypted.value];
      counted := true;
    }

    /** The second loop of the rotation: `goal` is what each row has to become. */
    method RotateRows(e: Encryptor, suite: Suite, toRotate: set<int>,
                      nonces: int -> string, stores: int -> bool, ghost goal: map<int, string>)
      returns (rotated: nat)
      requires e.Valid() && Lawful(suite) && toRotate <= passwords.Keys == goal.Keys
      requires forall id {:trigger RowGoal(e, suite, id, passwords[id], nonces(id), stores(id), goal[id])} |
                 id in toRotate :: RowGoal(e, suite, id, passwords[id], nonces(id), stores(id), goal[id])
      requires forall id | id in passwords && id !in toRotate :: goal[id] == passwords[id]
      modifies this
      ensures passwords == goal
      ensures rotated == |Changed(old(passwords), passwords)|
    {
      var todo := toRotate;
      rotated := 0;
      ghost var was := passwords;
      BlendEnds(was, goal, toRotate);
      while todo != {}
        invariant todo <= toRotate
        invariant passwords == Blend(was, goal, todo)
        invariant rotated == |Changed(was, passwords)|
        decreases todo
      {
        SomeElement(todo);
        var id :| id in todo;
        BlendStep(was, goal, todo, id);
        assert RowGoal(e, suite, id, was[id], nonces(id), stores(id), goal[id]);
        todo := todo - {id};
        var counted := RotateOne(e, suite, id, nonces(id), stores(id), goal[id]);
        if counted {
          rotated := rotated + 1;
        }
      }
    }

    /** Rotates the rows that need it; `stores` says which updates the database accepts.
        No password changes its meaning, and the result counts the rows that changed. */
    method RotateEncryptionKeys(e: Encryptor, suite: Suite, nonces: int -> string, stores: int -> bool)
      returns (rotated: nat)
      requires e.Valid() && Lawful(suite)
      modifies this
      ensures passwords == RotateTable(e, suite, old(passwords), nonces, stores)
      ensures forall id | id in passwords ::
                e.Decrypt(suite, passwords[id], id) == e.Decrypt(suite, old(passwords)[id], id)
      ensures rotated == |Changed(old(passwords), passwords)|
      ensures passwords.Keys == old(passwords).Keys
      ensures forall id | id in passwords && (!stores(id) || e.Decrypt(suite, old(passwords)[id], id).Err?) ::
                passwords[id] == old(passwords)[id]
      ensures forall id | id in passwords && stores(id) && e.Decrypt(suite, old(passwords)[id], id).Ok? ::
                Encryptor(e.current, map[e.current := e.keys[e.current]]).Decrypt(suite, passwords[id], id) ==
                e.Decrypt(suite, old(passwords)[id], id)
    {
      TableKeepsMeaning(e, suite, passwords, nonces, stores);
      StoredRowsNeedCurrentKey(e, suite, passwords, nonces, stores);
      var toRotate := RowsToRotate(e);
      rotated := RotateRows(e, suite, toRotate, nonces, stores,
                            RotateTable(e, suite, passwords, nonces, stores));
    }
  }
}
