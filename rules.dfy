/**
 * The side-effect-free decisions of the server: the signup field rules, the
 * authentication gate and the like toggle on a post's list of likers.
 */
module ServerRules {
  import opened Wrappers
  import Seqs
  import Decimal
  import Text
  import Crypto

  type UserId = nat
  type PostId = nat

  // ----- signup field rules -----

  /** The body of a signup request; a field the browser did not send is the empty string. */
  datatype SignupForm = SignupForm(username: string, email: string, password: string, city: string, age: string)

  const UsernameMessage := "Username must be at least 3 characters"
  const EmailMessage := "Email must be valid"
  const PasswordMessage := "Password must be at least 6 characters"
  const CityMessage := "City is required"
  const AgeMessage := "Age must be a number"

  /** All five field rules hold; `isEmail` is express-validator's address check. */
  predicate FieldRulesHold(f: SignupForm, isEmail: string -> bool)
    ensures FieldRulesHold(f, isEmail) ==>
      3 <= |f.username| && 6 <= |f.password| && isEmail(f.email) && f.city != ""
      && Decimal.ParseInt(f.age).Some? && Decimal.ParseInt(f.age).value >= 1
  {
    && Text.ValidatorLength(f.username) >= 3
    && isEmail(f.email)
    && Text.ValidatorLength(f.password) >= 6
    && f.city != ""
    && Decimal.IsPositiveInt(f.age)
  }

  function Check(ok: bool, message: string): seq<string> {
    if ok then [] else [message]
  }

  /** The five checks in declaration order: no message when all pass, each message exactly when its check fails, none twice. */
  lemma FiveChecks(user: bool, email: bool, password: bool, city: bool, age: bool)
    ensures var errs := Check(user, UsernameMessage) + Check(email, EmailMessage) + Check(password, PasswordMessage)
                        + Check(city, CityMessage) + Check(age, AgeMessage);
      && (errs == [] <==> user && email && password && city && age)
      && (UsernameMessage in errs <==> !user)
      && (EmailMessage in errs <==> !email)
      && (PasswordMessage in errs <==> !password)
      && (CityMessage in errs <==> !city)
      && (AgeMessage in errs <==> !age)
      && Seqs.NoDup(errs)
  {
  }

  /** The messages `validationResult` collects, in the order the rules are declared. */
  function SignupErrors(f: SignupForm, isEmail: string -> bool): (errs: seq<string>)
    ensures errs == [] <==> FieldRulesHold(f, isEmail)
    ensures UsernameMessage in errs <==> Text.ValidatorLength(f.username) < 3
    ensures EmailMessage in errs <==> !isEmail(f.email)
    ensures PasswordMessage in errs <==> Text.ValidatorLength(f.password) < 6
    ensures CityMessage in errs <==> f.city == ""
    ensures AgeMessage in errs <==> !Decimal.IsPositiveInt(f.age)
    ensures Seqs.NoDup(errs)
  {
    FiveChecks(Text.ValidatorLength(f.username) >= 3, isEmail(f.email), Text.ValidatorLength(f.password) >= 6,
               f.city != "", Decimal.IsPositiveInt(f.age));
    Check(Text.ValidatorLength(f.username) >= 3, UsernameMessage)
    + Check(isEmail(f.email), EmailMessage)
    + Check(Text.ValidatorLength(f.password) >= 6, PasswordMessage)
    + Check(f.city != "", CityMessage)
    + Check(Decimal.IsPositiveInt(f.age), AgeMessage)
  }

  // ----- authentication gate -----

  /** The gate either turns the request away, clearing the cookie or not, or lets it through with the token's claims. */
  datatype GateResult = Reject(clearCookie: bool) | Accept(claims: Crypto.Claims)

  /** `isLoggedIn` over the `token` cookie of the request at second `now`. */
  function IsLoggedIn(token: Option<string>, now: nat): (g: GateResult)
    ensures g == Reject(false) <==> token.None? || token.value == ""
    ensures g == Reject(true) <==> token.Some? && token.value != "" && Crypto.Verify(token.value, now).None?
    ensures g.Accept? <==> token.Some? && token.value != "" && Crypto.Verify(token.value, now).Some?
    ensures g.Accept? ==> Crypto.Verify(token.value, now) == Some(g.claims)
  {
    if token.None? || token.value == "" then Reject(false)
    else match Crypto.Verify(token.value, now)
      case None => Reject(true)
      case Some(claims) => Accept(claims)
  }

  /** A token minted at login opens the gate with its own claims for 24 hours; afterwards it is cleared. */
  lemma GateOnMintedToken(c: Crypto.Claims, issuedAt: nat, now: nat)
    ensures IsLoggedIn(Some(Crypto.Sign(c, issuedAt)), now)
            == if now < issuedAt + Crypto.Lifetime then Accept(c) else Reject(true)
  {
    Crypto.SignNonEmpty(c, issuedAt);
    Crypto.VerifySign(c, issuedAt, now);
  }

  // ----- like toggle -----

  /** The likers after the toggle: the caller appended when absent, its first occurrence removed otherwise. */
  function Toggled(like: seq<UserId>, uid: UserId): (r: seq<UserId>)
    ensures |r| == if uid in like then |like| - 1 else |like| + 1
  {
    if uid in like then
      Seqs.RemoveFirstLength(like, uid);
      Seqs.RemoveFirst(like, uid)
    else like + [uid]
  }

  /** The toggle takes one copy of the caller out of the list, or puts one in, and changes no one else's count. */
  lemma ToggledMultiset(like: seq<UserId>, uid: UserId)
    ensures uid in like ==> multiset(Toggled(like, uid)) == multiset(like) - multiset{uid}
    ensures uid !in like ==> multiset(Toggled(like, uid)) == multiset(like) + multiset{uid}
  {
    if uid in like {
      Seqs.RemoveFirstMultiset(like, uid);
    }
  }

  /** The handler's `indexOf` and `splice`, or `push` when the caller is not found, computes the toggle. */
  lemma SpliceToggles(like: seq<UserId>, uid: UserId)
    ensures var i := Seqs.IndexOf(like, uid);
      (if i == -1 then like + [uid] else like[..i] + like[i + 1..]) == Toggled(like, uid)
  {
    if uid in like {
      Seqs.SpliceAtIndexOf(like, uid);
    }
  }

  /** From "not liked", liking and unliking gives back the very same list. */
  lemma ToggleTwiceRestores(like: seq<UserId>, uid: UserId)
    requires uid !in like
    ensures Toggled(Toggled(like, uid), uid) == like
  {
    Seqs.RemoveFirstOfAppended(like, uid);
  }

  /** On a duplicate-free list the toggle flips the caller's membership, touches no one else and keeps the list duplicate-free. */
  lemma ToggledNoDup(like: seq<UserId>, uid: UserId)
    requires Seqs.NoDup(like)
    ensures Seqs.NoDup(Toggled(like, uid))
    ensures uid in Toggled(like, uid) <==> uid !in like
    ensures forall v :: v != uid ==> (v in Toggled(like, uid) <==> v in like)
  {
    if uid in like {
      Seqs.RemoveFirstNoDup(like, uid);
    } else {
      var r := like + [uid];
      forall i, j | 0 <= i < j < |r| ensures r[i] != r[j] {
        if j == |like| {
          assert r[i] == like[i];
        }
      }
    }
  }

  /** From "liked", two toggles give back the same likers, moved to the end. */
  lemma ToggleTwicePermutes(like: seq<UserId>, uid: UserId)
    requires Seqs.NoDup(like) && uid in like
    ensures multiset(Toggled(Toggled(like, uid), uid)) == multiset(like)
  {
    ToggledNoDup(like, uid);
    Seqs.RemoveFirstMultiset(like, uid);
  }
}
