/** Token revocation: logout, the blacklist and its sweeper
    (internal/api/handlers/auth.go, internal/db/auth.go, internal/api/middleware/auth.go,
    internal/auth/jwt.go).

    Signature checking and hashing are library code: a Scheme says which strings carry a
    good signature and with which claims, and how a token is hashed.  A token is expired
    from its expiry instant on (section 4.1.4 of RFC 7519).  One clock serves the
    application and the database. */
module TokenRevocation {

  import opened Common

  datatype Claims = Claims(userId: int, username: string, expiresAt: int)

  datatype Scheme = Scheme(verify: string -> Option<Claims>, hash: string -> string)

  /** Distinct tokens with a good signature have distinct hashes. */
  ghost predicate CollisionFree(s: Scheme) {
    forall a, b | s.verify(a).Some? && s.verify(b).Some? && s.hash(a) == s.hash(b) :: a == b
  }

  datatype Validation = Valid(claims: Claims) | Expired | Invalid

  /** ValidateToken. */
  function ValidateToken(s: Scheme, token: string, now: int): Validation {
    match s.verify(token)
    case None => Invalid
    case Some(claims) => if now < claims.expiresAt then Valid(claims) else Expired
  }

  /** Hash to expiry; the hash is the primary key. */
  type Table = map<string, int>

  function Inserted(rows: Table, hash: string, expiresAt: int): Table {
    if hash in rows then rows else rows[hash := expiresAt]
  }

  predicate Listed(rows: Table, hash: string, now: int) {
    hash in rows && rows[hash] > now
  }

  function Swept(rows: Table, now: int): Table {
    map hash | hash in rows && !(rows[hash] < now) :: rows[hash]
  }

  function Dots(token: string): nat {
    if token == [] then 0 else (if token[0] == '.' then 1 else 0) + Dots(token[1..])
  }

  /** The decision of the middleware's JWT branch; a blacklist lookup that fails in the
      database counts as "not listed". */
  predicate Accepts(s: Scheme, rows: Table, now: int, token: string, lookupOk: bool) {
    && Dots(token) == 2
    && ValidateToken(s, token, now).Valid?
    && !(lookupOk && Listed(rows, s.hash(token), now))
  }

  lemma {:induction false} NoDotsIff(s: string)
    ensures Dots(s) == 0 <==> '.' !in s
  {
    if s != [] {
      NoDotsIff(s[1..]);
      assert s == [s[0]] + s[1..];
    }
  }

  lemma {:induction false} DotsThen(a: string, rest: string)
    requires '.' !in a
    ensures Dots(a + ("." + rest)) == 1 + Dots(rest)
  {
    var s := a + ("." + rest);
    if a == [] {
      assert s[1..] == rest;
    } else {
      assert s[1..] == a[1..] + ("." + rest);
      DotsThen(a[1..], rest);
    }
  }

  /** The text before the first dot, and the text after it. */
  lemma {:induction false} CutAtDot(s: string) returns (a: string, rest: string)
    requires Dots(s) > 0
    ensures s == a + ("." + rest) && '.' !in a && Dots(rest) == Dots(s) - 1
  {
    if s[0] == '.' {
      a, rest := [], s[1..];
      assert s == a + ("." + rest);
    } else {
      var a1;
      a1, rest := CutAtDot(s[1..]);
      a := [s[0]] + a1;
      assert s == a + ("." + rest);
    }
  }

  /** A token has two dots exactly when it consists of three dot-free parts. */
  lemma TwoDotsIff(token: string)
    ensures Dots(token) == 2 <==>
            exists a, b, c :: token == a + ("." + (b + ("." + c))) && '.' !in a && '.' !in b && '.' !in c
  {
    if Dots(token) == 2 {
      var a, rest := CutAtDot(token);
      var b, c := CutAtDot(rest);
      NoDotsIff(c);
      assert token == a + ("." + (b + ("." + c)));
    }
    forall a, b, c | token == a + ("." + (b + ("." + c))) && '.' !in a && '.' !in b && '.' !in c
      ensures Dots(token) == 2
    {
      DotsThen(a, b + ("." + c));
      DotsThen(b, c);
      NoDotsIff(c);
    }
  }

  class Blacklist {
    var rows: Table

    constructor ()
      ensures rows == map[]
    {
      rows := map[];
    }

    method BlacklistToken(hash: string, expiresAt: int)
      modifies this
      ensures rows == Inserted(old(rows), hash, expiresAt)
      ensures rows == if hash in old(rows) then old(rows) else old(rows)[hash := expiresAt]
    {
      if hash !in rows {
        rows := rows[hash := expiresAt];
      }
    }

    method IsTokenBlacklisted(hash: string, now: int) returns (listed: bool)
      ensures listed <==> Listed(rows, hash, now)
    {
      listed := hash in rows && rows[hash] > now;
    }

    method CleanExpiredTokens(now: int)
      modifies this
      ensures rows == Swept(old(rows), now)
      ensures forall hash :: hash in rows <==> hash in old(rows) && old(rows)[hash] >= now
      ensures forall hash | hash in rows :: rows[hash] == old(rows)[hash]
    {
      var kept: Table := map[];
      var todo := rows.Keys;
      while todo != {}
        invariant todo <= rows.Keys
        invariant kept == map hash | hash in rows && hash !in todo && !(rows[hash] < now) :: rows[hash]
        invariant rows == old(rows)
        decreases todo
      {
        var hash :| hash in todo;
        todo := todo - {hash};
        if !(rows[hash] < now) {
          kept := kept[hash := rows[hash]];
        }
      }
      rows := kept;
    }

    /** Logout: an empty or already invalid token leaves the table alone. */
    method Logout(s: Scheme, token: string, now: int) returns (revoked: bool)
      modifies this
      ensures revoked <==> token != "" && s.verify(token).Some? && now < s.verify(token).value.expiresAt
      ensures rows == if revoked then Inserted(old(rows), s.hash(token), s.verify(token).value.expiresAt)
                      else old(rows)
    {
      if token == "" {
        return false;
      }
      var v := ValidateToken(s, token, now);
      if !v.Valid? {
        return false;
      }
      BlacklistToken(s.hash(token), v.claims.expiresAt);
      revoked := true;
    }

    /** The JWT branch of the middleware. */
    method Authenticate(s: Scheme, token: string, now: int, lookupOk: bool) returns (r: Option<Claims>)
      ensures r.Some? <==> Accepts(s, rows, now, token, lookupOk)
      ensures r.Some? ==> s.verify(token).Some? && now < s.verify(token).value.expiresAt
      ensures r.Some? && lookupOk ==> !(s.hash(token) in rows && rows[s.hash(token)] > now)
      ensures r.Some? ==> r == s.verify(token)
    {
      if Dots(token) != 2 {
        return None;
      }
      var v := ValidateToken(s, token, now);
      if !v.Valid? {
        return None;
      }
      if lookupOk {
        var listed := IsTokenBlacklisted(s.hash(token), now);
        if listed {
          return None;
        }
      }
      r := Some(v.claims);
    }
  }

  // ---------------------------------------------------------------- runs

  /** `revoked` is the history of tokens whose logout was written while they were valid. */
  datatype World = World(now: int, rows: Table, revoked: set<string>)

  datatype Step = Tick(elapsed: nat) | Logout(token: string, stored: bool) | Sweep

  function Next(s: Scheme, w: World, step: Step): World {
    match step
    case Tick(elapsed) => w.(now := w.now + elapsed)
    case Sweep => w.(rows := Swept(w.rows, w.now))
    case Logout(token, stored) =>
      if token != "" && stored && ValidateToken(s, token, w.now).Valid?
      then w.(rows := Inserted(w.rows, s.hash(token), s.verify(token).value.expiresAt),
              revoked := w.revoked + {token})
      else w
  }

  function Run(s: Scheme, w: World, steps: seq<Step>): World
    decreases |steps|
  {
    if steps == [] then w else Run(s, Next(s, w, steps[0]), steps[1..])
  }

  function Start(now: int): World {
    World(now, map[], {})
  }

  /** A revoked token is listed with its own expiry, or has expired. */
  ghost predicate Covered(s: Scheme, w: World, token: string) {
    && s.verify(token).Some?
    && var expiresAt := s.verify(token).value.expiresAt;
    || (s.hash(token) in w.rows && w.rows[s.hash(token)] == expiresAt)
    || expiresAt < w.now
  }

  /** A row stands for some token that was logged out. */
  ghost predicate Genuine(s: Scheme, w: World, hash: string) {
    hash in w.rows &&
    exists token | token in w.revoked ::
      s.hash(token) == hash && s.verify(token).Some? && s.verify(token).value.expiresAt == w.rows[hash]
  }

  ghost predicate Inv(s: Scheme, w: World) {
    && (forall token | token in w.revoked :: Covered(s, w, token))
    && (forall hash | hash in w.rows :: Genuine(s, w, hash))
  }

  /** A valid token that is not revoked is not listed. */
  lemma OnlyRevokedAreListed(s: Scheme, w: World, token: string)
    requires CollisionFree(s) && Inv(s, w) && s.verify(token).Some?
    ensures s.hash(token) in w.rows ==>
              token in w.revoked && w.rows[s.hash(token)] == s.verify(token).value.expiresAt
  {
    if s.hash(token) in w.rows {
      assert Genuine(s, w, s.hash(token));
      var t :| t in w.revoked && s.hash(t) == s.hash(token) && s.verify(t).Some?
               && s.verify(t).value.expiresAt == w.rows[s.hash(token)];
      assert t == token;
    }
  }

  lemma StepKeepsInv(s: Scheme, w: World, step: Step)
    requires CollisionFree(s) && Inv(s, w)
    ensures Inv(s, Next(s, w, step))
  {
    var w' := Next(s, w, step);
    if step.Logout? && s.verify(step.token).Some? {
      OnlyRevokedAreListed(s, w, step.token);
    }
    forall hash | hash in w'.rows
      ensures Genuine(s, w', hash)
    {
      if hash in w.rows {
        assert Genuine(s, w, hash);
        var t :| t in w.revoked && s.hash(t) == hash && s.verify(t).Some?
                 && s.verify(t).value.expiresAt == w.rows[hash];
        assert t in w'.revoked;
      } else {
        assert step.token in w'.revoked;
      }
    }
    forall token | token in w'.revoked
      ensures Covered(s, w', token)
    {
      assert token in w.revoked ==> Covered(s, w, token);
    }
  }

  lemma {:induction false} RunKeepsInv(s: Scheme, w: World, steps: seq<Step>)
    requires CollisionFree(s) && Inv(s, w)
    ensures Inv(s, Run(s, w, steps)) && w.revoked <= Run(s, w, steps).revoked
    decreases |steps|
  {
    if steps != [] {
      StepKeepsInv(s, w, steps[0]);
      RunKeepsInv(s, Next(s, w, steps[0]), steps[1..]);
    }
  }

  // ---------------------------------------------------------------- main results

  /** In every reachable state, whatever sweeps and logouts came before, a request is
      accepted exactly when its token is genuine, unexpired and never was logged out, or is
      logged out but the blacklist lookup itself fails. */
  lemma AcceptedIff(s: Scheme, start: int, steps: seq<Step>, token: string, lookupOk: bool)
    requires CollisionFree(s)
    ensures var w := Run(s, Start(start), steps);
            Accepts(s, w.rows, w.now, token, lookupOk) <==>
              && (exists a, b, c :: token == a + ("." + (b + ("." + c))) && '.' !in a && '.' !in b && '.' !in c)
              && s.verify(token).Some? && w.now < s.verify(token).value.expiresAt
              && (token !in w.revoked || !lookupOk)
  {
    TwoDotsIff(token);
    RunKeepsInv(s, Start(start), steps);
    var w := Run(s, Start(start), steps);
    if s.verify(token).Some? {
      OnlyRevokedAreListed(s, w, token);
      assert token in w.revoked ==> Covered(s, w, token);
    }
  }

  /** After a stored logout of a valid token no request carrying it is accepted in any
      later state, as long as the blacklist can be read. */
  lemma LogoutIsFinal(s: Scheme, start: int, before: seq<Step>, token: string, after: seq<Step>)
    requires CollisionFree(s) && token != ""
    requires ValidateToken(s, token, Run(s, Start(start), before).now).Valid?
    ensures var w := Next(s, Run(s, Start(start), before), Logout(token, true));
            var later := Run(s, w, after);
            !Accepts(s, later.rows, later.now, token, true)
  {
    RunKeepsInv(s, Start(start), before);
    var w0 := Run(s, Start(start), before);
    StepKeepsInv(s, w0, Logout(token, true));
    var w := Next(s, w0, Logout(token, true));
    RunKeepsInv(s, w, after);
    var later := Run(s, w, after);
    assert Covered(s, later, token);
  }
}
