/**
 * The two cryptographic collaborators of the server, bcrypt and jsonwebtoken,
 * as ideal symbolic functions. bcrypt keeps its one visible quirk: it reads
 * only the first 72 bytes of the UTF-8 encoded password. The token has no
 * signing secret: it is a readable encoding of its expiry and claims, and that
 * nobody else mints tokens is an assumption of the server model.
 */
module Crypto {
  import opened Wrappers
  import Decimal
  import Seqs
  import Text

  /** A bcrypt salt; `genSalt` draws it from randomness, so it enters as a parameter. */
  type Salt = string

  /** A stored password: the salt and a tag computed from the password; never the plaintext itself. */
  datatype Digest = Digest(salt: Salt, tag: seq<int>)

  /** bcrypt reads at most this many bytes of the password. */
  const KeyLimit: nat := 72

  /** The bytes of `password` that bcrypt actually reads. */
  function Key(password: string): (k: seq<int>)
    ensures |k| <= KeyLimit
    ensures |Text.Utf8(password)| < KeyLimit ==> k == Text.Utf8(password)
    ensures k == Text.Utf8(password)[..|k|]
    ensures KeyLimit <= |Text.Utf8(password)| ==> k == Text.Utf8(password)[..KeyLimit]
  {
    var b := Text.Utf8(password);
    if |b| <= KeyLimit then b else b[..KeyLimit]
  }

  /** An injective stand-in for the hash: for a fixed salt, different keys give different tags. */
  function Tag(key: seq<int>, salt: Salt): (t: seq<int>)
    ensures |t| == |key|
  {
    seq(|key|, i requires 0 <= i < |key| => key[i] + i * (|salt| + 1))
  }

  lemma TagInjective(k1: seq<int>, k2: seq<int>, salt: Salt)
    requires Tag(k1, salt) == Tag(k2, salt)
    ensures k1 == k2
  {
    forall i | 0 <= i < |k1| ensures k1[i] == k2[i] {
      assert Tag(k1, salt)[i] == Tag(k2, salt)[i];
    }
  }

  /** `bcrypt.hash(password, salt)`. */
  function Hash(password: string, salt: Salt): (d: Digest)
    ensures d.salt == salt && Compare(password, d)
  {
    Digest(salt, Tag(Key(password), salt))
  }

  /** `bcrypt.compare(password, digest)`. */
  predicate Compare(password: string, digest: Digest) {
    Tag(Key(password), digest.salt) == digest.tag
  }

  /** A digest accepts exactly the passwords that agree with its own on the bytes bcrypt reads. */
  lemma CompareHash(password: string, candidate: string, salt: Salt)
    ensures Compare(candidate, Hash(password, salt)) <==> Key(candidate) == Key(password)
  {
    if Compare(candidate, Hash(password, salt)) {
      TagInjective(Key(candidate), Key(password), salt);
    }
  }

  /** A password shorter than 72 bytes is accepted by its digest and by no other string. */
  lemma CompareHashShort(password: string, candidate: string, salt: Salt)
    requires |Text.Utf8(password)| < KeyLimit
    ensures Compare(candidate, Hash(password, salt)) <==> candidate == password
  {
    CompareHash(password, candidate, salt);
    if Key(candidate) == Key(password) {
      assert |Text.Utf8(candidate)| < KeyLimit;
      Text.Utf8Injective(candidate, password);
    }
  }

  /** From 72 bytes on, a digest accepts any string with the same first 72 bytes. */
  lemma CompareHashTruncates(password: string, candidate: string, salt: Salt)
    requires KeyLimit <= |Text.Utf8(password)| && KeyLimit <= |Text.Utf8(candidate)|
    requires Text.Utf8(candidate)[..KeyLimit] == Text.Utf8(password)[..KeyLimit]
    ensures Compare(candidate, Hash(password, salt))
  {
    CompareHash(password, candidate, salt);
  }

  /** The claims the server puts in a session token. */
  datatype Claims = Claims(username: string, userId: nat)

  /** `expiresIn: '24h'`, in seconds. */
  const Lifetime: nat := 86400

  /** The symbolic token: expiry, user id and username, separated by dots. */
  function Encode(exp: nat, c: Claims): string {
    Decimal.Digits(exp) + "." + Decimal.Digits(c.userId) + "." + c.username
  }

  /** Reads back expiry and claims from a token, or `None` when it is malformed. */
  function Decode(t: string): Option<(nat, Claims)> {
    var i := Seqs.IndexOf(t, '.');
    if i <= 0 || !Decimal.AllDigits(t[..i]) then None
    else
      var rest := t[i + 1..];
      var j := Seqs.IndexOf(rest, '.');
      if j <= 0 || !Decimal.AllDigits(rest[..j]) then None
      else Some((Decimal.Value(t[..i]), Claims(rest[j + 1..], Decimal.Value(rest[..j]))))
  }

  lemma IndexOfAfterDigits(d: string, rest: string)
    requires d != [] && Decimal.AllDigits(d)
    ensures Seqs.IndexOf(d + "." + rest, '.') == |d|
    ensures (d + "." + rest)[..|d|] == d && (d + "." + rest)[|d| + 1..] == rest
  {
    var s := d + "." + rest;
    assert s[|d|] == '.';
    assert s[..|d|] == d;
  }

  lemma {:induction false} DecodeEncode(exp: nat, c: Claims)
    ensures Decode(Encode(exp, c)) == Some((exp, c))
  {
    var e, u := Decimal.Digits(exp), Decimal.Digits(c.userId);
    var t := Encode(exp, c);
    assert t == e + "." + (u + "." + c.username);
    IndexOfAfterDigits(e, u + "." + c.username);
    IndexOfAfterDigits(u, c.username);
    Decimal.ValueOfDigits(exp);
    Decimal.ValueOfDigits(c.userId);
  }

  /** `jwt.sign(claims, secret, { expiresIn: '24h' })` at second `issuedAt`. */
  function Sign(c: Claims, issuedAt: nat): (t: string)
    ensures Decode(t) == Some((issuedAt + Lifetime, c))
  {
    DecodeEncode(issuedAt + Lifetime, c);
    Encode(issuedAt + Lifetime, c)
  }

  /**
   * `jwt.verify(token, secret)` at second `now`: the claims of a canonical
   * encoding whose expiry is still ahead, and `None` for a malformed or
   * expired one. With no secret in the model, any canonical encoding passes,
   * including one nobody minted.
   */
  function Verify(t: string, now: nat): (r: Option<Claims>)
    ensures r.Some? ==> exists exp :: now < exp && t == Encode(exp, r.value)
    ensures r.Some? ==> Decode(t).Some? && Decode(t).value.1 == r.value
  {
    match Decode(t)
    case None => None
    case Some((exp, c)) => if Encode(exp, c) == t && now < exp then Some(c) else None
  }

  /** A minted token verifies to exactly its claims before its expiry, and fails from then on. */
  lemma VerifySign(c: Claims, issuedAt: nat, now: nat)
    ensures Verify(Sign(c, issuedAt), now) == if now < issuedAt + Lifetime then Some(c) else None
  {
    DecodeEncode(issuedAt + Lifetime, c);
  }

  /** A token is never empty, so a minted token is never taken for a missing cookie. */
  lemma SignNonEmpty(c: Claims, issuedAt: nat)
    ensures Sign(c, issuedAt) != ""
  {
    assert Sign(c, issuedAt)[|Decimal.Digits(issuedAt + Lifetime)|] == '.';
  }
}
