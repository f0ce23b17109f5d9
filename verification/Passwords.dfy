/** Password hashing: a registry of algorithms, one of them preferred. */
module Passwords {
  import opened Calls

  const MIN_PASSWORD_LENGTH := 8
  const MAX_BCRYPT_PASSWORD_LENGTH := 72

  datatype HashError = TooShort | TooLong | Broken
  datatype Hashed = Encoded(text: string) | NotHashed(error: HashError)
  datatype Verdict = Match | Mismatch | Unverifiable

  /** One hashing scheme. Hashing also takes the random salt it draws. */
  datatype Algorithm = Algorithm(
    name: string,
    identifiers: seq<string>,
    hash: (string, nat) -> Hashed,
    verify: (string, string) -> Verdict)

  datatype Registry = Registry(preferred: Algorithm, algorithms: map<string, Algorithm>)

  /** The part of `s` before the first `$`, if there is one. */
  function UpToDollar(s: string): Option<string> {
    if s == "" then None
    else if s[0] == '$' then Some("")
    else match UpToDollar(s[1..])
      case None => None
      case Some(rest) => Some([s[0]] + rest)
  }

  /** The algorithm segment of a `$name$rest` hash. */
  function Identify(encoded: string): Option<string> {
    if encoded == "" || encoded[0] != '$' then None
    else match UpToDollar(encoded[1..])
      case None => None
      case Some(name) => if name == "" then None else Some(name)
  }

  function HashWith(r: Registry, password: string, salt: nat): Hashed {
    if |password| < MIN_PASSWORD_LENGTH then NotHashed(TooShort) else r.preferred.hash(password, salt)
  }

  function Verify(r: Registry, encoded: string, password: string): Verdict {
    match Identify(encoded)
    case None => Unverifiable
    case Some(name) => if name in r.algorithms then r.algorithms[name].verify(encoded, password) else Unverifiable
  }

  predicate NeedsRehash(r: Registry, encoded: string) {
    match Identify(encoded)
    case None => true
    case Some(name) => name in r.algorithms ==> r.algorithms[name].name != r.preferred.name
  }

  /** What this scheme encodes carries one of its identifiers and is accepted with the hashed
      password and no other. */
  ghost predicate Sound(a: Algorithm) {
    forall password, salt :: a.hash(password, salt).Encoded? ==>
      var encoded := a.hash(password, salt).text;
      && Identify(encoded).Some? && Identify(encoded).value in a.identifiers
      && AcceptsOnly(a, encoded, password)
  }

  ghost predicate AcceptsOnly(a: Algorithm, encoded: string, password: string) {
    forall other :: a.verify(encoded, other) == if other == password then Match else Mismatch
  }

  /** Every identifier leads to a scheme that claims it; the preferred scheme is registered. */
  ghost predicate Registered(r: Registry, schemes: seq<Algorithm>) {
    && |schemes| > 0 && r.preferred == schemes[0]
    && (forall k, id :: 0 <= k < |schemes| && id in schemes[k].identifiers ==>
          id in r.algorithms && r.algorithms[id] == schemes[k])
    && (forall id :: id in r.algorithms ==> exists k :: 0 <= k < |schemes| && id in schemes[k].identifiers)
  }

  /** The identifiers claimed by the first `n` schemes, in order. */
  function Claims(schemes: seq<Algorithm>, n: nat): seq<string>
    requires n <= |schemes|
  {
    if n == 0 then [] else Claims(schemes, n - 1) + schemes[n - 1].identifiers
  }

  predicate NoRepeats(names: seq<string>) {
    forall i, j :: 0 <= i < j < |names| ==> names[i] != names[j]
  }

  lemma {:induction false} Claimant(schemes: seq<Algorithm>, n: nat, id: string)
    requires n <= |schemes|
    ensures id in Claims(schemes, n) <==> exists k :: 0 <= k < n && id in schemes[k].identifiers
  {
    if n > 0 {
      Claimant(schemes, n - 1, id);
    }
  }

  /** Refuses exactly when an identifier is claimed twice. */
  method NewRegistry(preferred: Algorithm, others: seq<Algorithm>) returns (r: Option<Registry>)
    ensures r.Some? <==> NoRepeats(Claims([preferred] + others, 1 + |others|))
    ensures r.Some? ==> Registered(r.value, [preferred] + others)
  {
    var schemes := [preferred] + others;
    var algorithms: map<string, Algorithm> := map[];
    for k := 0 to |schemes|
      invariant Filled(schemes, k, [], algorithms)
    {
      var identifiers := schemes[k].identifiers;
      for i := 0 to |identifiers|
        invariant Filled(schemes, k, identifiers[..i], algorithms)
        invariant forall id :: id in identifiers[..i] ==> id in algorithms && algorithms[id] == schemes[k]
      {
        var id := identifiers[i];
        assert identifiers[..i + 1] == identifiers[..i] + [id];
        if id in algorithms {
          RepeatedClaim(schemes, k, i);
          return None;
        }
        algorithms := algorithms[id := schemes[k]];
        ClaimAdded(schemes, k, identifiers[..i], id);
      }
      assert identifiers[..|identifiers|] == identifiers;
      SchemeFilled(schemes, k, algorithms);
    }
    AllFilled(schemes, algorithms);
    return Some(Registry(preferred, algorithms));
  }

  lemma SchemeFilled(schemes: seq<Algorithm>, k: nat, algorithms: map<string, Algorithm>)
    requires k < |schemes| && Filled(schemes, k, schemes[k].identifiers, algorithms)
    requires forall id :: id in schemes[k].identifiers ==> id in algorithms && algorithms[id] == schemes[k]
    ensures Filled(schemes, k + 1, [], algorithms)
  {
  }

  lemma AllFilled(schemes: seq<Algorithm>, algorithms: map<string, Algorithm>)
    requires |schemes| > 0 && Filled(schemes, |schemes|, [], algorithms)
    ensures NoRepeats(Claims(schemes, |schemes|)) && Registered(Registry(schemes[0], algorithms), schemes)
  {
    assert Claims(schemes, |schemes|) + [] == Claims(schemes, |schemes|);
    forall id | id in algorithms ensures exists k :: 0 <= k < |schemes| && id in schemes[k].identifiers {
      Claimant(schemes, |schemes|, id);
    }
  }

  /** The map holds the claims of the first `k` schemes and these of the next, none repeated. */
  ghost predicate Filled(schemes: seq<Algorithm>, k: nat, some: seq<string>, algorithms: map<string, Algorithm>)
    requires k <= |schemes|
  {
    && NoRepeats(Claims(schemes, k) + some)
    && (forall id :: id in algorithms <==> id in Claims(schemes, k) + some)
    && (forall j, id :: 0 <= j < k && id in schemes[j].identifiers ==> id in algorithms && algorithms[id] == schemes[j])
  }

  lemma ClaimAdded(schemes: seq<Algorithm>, k: nat, some: seq<string>, id: string)
    requires k <= |schemes| && NoRepeats(Claims(schemes, k) + some) && id !in Claims(schemes, k) + some
    ensures NoRepeats(Claims(schemes, k) + (some + [id]))
    ensures forall x :: x in Claims(schemes, k) + (some + [id]) <==> x in Claims(schemes, k) + some || x == id
  {
    assert Claims(schemes, k) + (some + [id]) == Claims(schemes, k) + some + [id];
  }

  lemma {:induction false} ClaimsArePrefix(schemes: seq<Algorithm>, k: nat, n: nat)
    requires k <= n <= |schemes|
    ensures Claims(schemes, k) <= Claims(schemes, n)
  {
    if k < n {
      ClaimsArePrefix(schemes, k, n - 1);
    }
  }

  lemma RepeatedClaim(schemes: seq<Algorithm>, k: nat, i: nat)
    requires k < |schemes| && i < |schemes[k].identifiers|
    requires schemes[k].identifiers[i] in Claims(schemes, k) + schemes[k].identifiers[..i]
    ensures !NoRepeats(Claims(schemes, |schemes|))
  {
    var before, identifiers := Claims(schemes, k), schemes[k].identifiers;
    var all := Claims(schemes, k + 1);
    var front := before + identifiers[..i];
    var at :| 0 <= at < |front| && front[at] == identifiers[i];
    assert all == before + identifiers;
    assert all[at] == front[at] && all[|before| + i] == identifiers[i];
    ClaimsArePrefix(schemes, k + 1, |schemes|);
    var whole := Claims(schemes, |schemes|);
    assert whole[at] == all[at] && whole[|before| + i] == all[|before| + i];
  }

  /** A registry whose preferred scheme is sound hashes into text that it accepts with exactly
      that password and that needs no rehash. */
  lemma FreshHash(r: Registry, schemes: seq<Algorithm>, password: string, salt: nat)
    requires Registered(r, schemes) && Sound(r.preferred) && HashWith(r, password, salt).Encoded?
    ensures forall other ::
              Verify(r, HashWith(r, password, salt).text, other) == if other == password then Match else Mismatch
    ensures !NeedsRehash(r, HashWith(r, password, salt).text)
  {
  }

  lemma {:induction false} UpToDollarExactly(s: string, name: string)
    ensures UpToDollar(s) == Some(name) <==> '$' !in name && name + "$" <= s
  {
    if s != "" && name != "" {
      UpToDollarExactly(s[1..], name[1..]);
      assert name == [name[0]] + name[1..] && s == [s[0]] + s[1..];
      assert name + "$" <= s <==> name[0] == s[0] && name[1..] + "$" <= s[1..];
    }
  }

  /** A hash names its scheme between the two dollar signs it starts with. */
  lemma IdentifyExactly(encoded: string, name: string)
    ensures Identify(encoded) == Some(name)
       <==> name != "" && '$' !in name && exists rest :: encoded == "$" + name + "$" + rest
  {
    if encoded != "" && encoded[0] == '$' {
      var tail := encoded[1..];
      UpToDollarExactly(tail, name);
      assert encoded == "$" + tail;
      if name + "$" <= tail {
        assert encoded == "$" + name + "$" + tail[|name| + 1..];
      }
      if rest :| encoded == "$" + name + "$" + rest {
        assert tail == name + "$" + rest;
      }
    }
  }

  /** A hash is left alone exactly when the scheme that claims its identifier has the preferred
      one's name. */
  lemma RehashExactlyWhen(r: Registry, schemes: seq<Algorithm>, encoded: string)
    requires Registered(r, schemes)
    ensures !NeedsRehash(r, encoded)
       <==> exists k :: 0 <= k < |schemes| && schemes[k].name == schemes[0].name
              && Identify(encoded).Some? && Identify(encoded).value in schemes[k].identifiers
  {
  }

  // ---------------------------------------------------------------- one deployment after another

  /** This scheme wrote the hash, and accepts it with this password and no other. */
  ghost predicate WrittenBy(a: Algorithm, encoded: string, password: string) {
    Identify(encoded).Some? && Identify(encoded).value in a.identifiers && AcceptsOnly(a, encoded, password)
  }

  /** They differ in how they hash, if at all: a raised bcrypt cost is such a change. */
  ghost predicate VerifyAlike(a: Algorithm, b: Algorithm) {
    forall encoded, password :: a.verify(encoded, password) == b.verify(encoded, password)
  }

  /** The registry gives none of the scheme's identifiers to a scheme that verifies otherwise. */
  ghost predicate Honours(r: Registry, a: Algorithm) {
    forall id :: id in a.identifiers && id in r.algorithms ==> VerifyAlike(r.algorithms[id], a)
  }

  /** The registry still lists the scheme. */
  ghost predicate Recognises(r: Registry, a: Algorithm) {
    Honours(r, a) && forall id :: id in a.identifiers ==> id in r.algorithms
  }

  predicate Lists(r: Registry, encoded: string) {
    Identify(encoded).Some? && Identify(encoded).value in r.algorithms
  }

  /** A registry that honours a scheme opens its hashes with exactly the hashed password, or, if
      it no longer lists the scheme, not at all. */
  lemma HonouredHash(r: Registry, a: Algorithm, encoded: string, password: string, attempt: string)
    requires Honours(r, a) && WrittenBy(a, encoded, password)
    ensures Verify(r, encoded, attempt)
         == if !Lists(r, encoded) then Unverifiable else if attempt == password then Match else Mismatch
    ensures Recognises(r, a) ==> Lists(r, encoded)
  {
    var id := Identify(encoded).value;
    if id in r.algorithms {
      assert VerifyAlike(r.algorithms[id], a);
    }
  }

  lemma FreshHashWritten(r: Registry, password: string, salt: nat)
    requires Sound(r.preferred) && HashWith(r, password, salt).Encoded?
    ensures WrittenBy(r.preferred, HashWith(r, password, salt).text, password)
  {
  }

  // ---------------------------------------------------------------- bcrypt

  /** The bcrypt library: it looks at no more than the first 72 bytes of a password. */
  datatype BcryptCore = BcryptCore(hash: (string, nat) -> string, verify: (string, string) -> Verdict)

  function Seen(password: string): string {
    if |password| > MAX_BCRYPT_PASSWORD_LENGTH then password[..MAX_BCRYPT_PASSWORD_LENGTH] else password
  }

  const BCRYPT_IDENTIFIERS := ["2a", "2b", "2y"]

  /** The wrapper refuses longer input on both sides, so that truncation cannot be observed. */
  function Bcrypt(core: BcryptCore): Algorithm {
    Algorithm("bcrypt", BCRYPT_IDENTIFIERS,
              (password: string, salt: nat) =>
                if |password| > MAX_BCRYPT_PASSWORD_LENGTH then NotHashed(TooLong)
                else Encoded(core.hash(password, salt)),
              (encoded: string, password: string) =>
                if |password| > MAX_BCRYPT_PASSWORD_LENGTH then Mismatch else core.verify(encoded, password))
  }

  /** Although the library accepts any password that agrees on the bytes it sees, the wrapper
      accepts the hashed one only. */
  lemma BcryptIsSound(core: BcryptCore)
    requires forall password, salt ::
               && Identify(core.hash(password, salt)).Some?
               && Identify(core.hash(password, salt)).value in {"2a", "2b", "2y"}
    requires forall password, salt, other ::
               core.verify(core.hash(password, salt), other)
               == if Seen(other) == Seen(password) then Match else Mismatch
    ensures Sound(Bcrypt(core))
  {
    var a := Bcrypt(core);
    forall password, salt | a.hash(password, salt).Encoded?
      ensures AcceptsOnly(a, a.hash(password, salt).text, password)
    {
      forall other
        ensures a.verify(core.hash(password, salt), other) == if other == password then Match else Mismatch
      {
        assert core.verify(core.hash(password, salt), other)
            == if Seen(other) == Seen(password) then Match else Mismatch;
      }
    }
  }

  /** A deployment that prefers bcrypt hashes every password of 8 to 72 bytes and says which bound
      any other breaks. */
  lemma PasswordLengths(core: BcryptCore, r: Registry, password: string, salt: nat)
    requires r.preferred == Bcrypt(core)
    ensures HashWith(r, password, salt).Encoded? <==> 8 <= |password| <= 72
    ensures HashWith(r, password, salt) == NotHashed(TooShort) <==> |password| < 8
    ensures HashWith(r, password, salt) == NotHashed(TooLong) <==> |password| > 72
  {
  }

  /** Without the length rule the library accepts a different password. */
  lemma TruncationWouldMatch(core: BcryptCore, password: string, salt: nat, tail: string)
    requires forall p, s, other :: core.verify(core.hash(p, s), other) == Match <==> Seen(other) == Seen(p)
    requires |password| == MAX_BCRYPT_PASSWORD_LENGTH && tail != ""
    ensures core.verify(core.hash(password, salt), password + tail) == Match
    ensures Bcrypt(core).verify(core.hash(password, salt), password + tail) == Mismatch
  {
    assert Seen(password + tail) == password == Seen(password);
  }
}
