/**
 * The request handlers of the Express server over an in-memory store of
 * users and posts: signup, login, creating a post, uploading a profile
 * picture, toggling a like, editing a post, logging out, and the dispatcher
 * that puts the authentication gate in front of the routes that need it.
 */
module Server {
  import opened Wrappers
  import opened ServerRules
  import Seqs
  import Decimal
  import Crypto
  import Text

  /** A user document; `post` lists the ids of the user's posts in creation order. */
  datatype User = User(
    username: string,
    email: string,
    password: Crypto.Digest,
    age: int,
    city: string,
    profilePic: string,
    post: seq<PostId>)

  /** A post document; `like` lists the ids of the users who like it. */
  datatype Post = Post(content: string, date: int, like: seq<UserId>, user: UserId)

  /** The schema default of `profilePic`. */
  const DefaultProfilePic := "default.svg"

  const DuplicateMessage := "Username or email already exists"
  const MissingCredentialsMessage := "Username and password are required"
  const BadCredentialsMessage := "Invalid username or password"
  const NotFoundMessage := "Post not found"
  const ForbiddenMessage := "Unauthorized"

  /** What the browser gets back: a 302 redirect, an error status with its messages, or a rendered page. */
  datatype Response = Redirect(location: string) | Status(code: nat, messages: seq<string>) | Render(view: string)

  /** What happens to the `token` cookie. */
  datatype CookieEffect = Keep | SetToken(token: string) | ClearToken

  datatype Outcome = Outcome(response: Response, cookie: CookieEffect)

  /** The two `findOne` filters on users: `{ username }` and `{ $or: [{ username }, { email }] }`. */
  datatype Query = ByUsername(name: string) | ByUsernameOrEmail(name: string, email: string)

  predicate Matches(u: User, q: Query) {
    match q
    case ByUsername(name) => u.username == name
    case ByUsernameOrEmail(name, email) => u.username == name || u.email == email
  }

  /** Some user already has this username or this email. */
  ghost predicate Taken(users: map<UserId, User>, name: string, email: string) {
    exists id :: id in users && Matches(users[id], ByUsernameOrEmail(name, email))
  }

  /** No two users share a username, and no two share an email. */
  ghost predicate UniqueAccounts(users: map<UserId, User>) {
    forall a, b :: a in users && b in users && a != b ==>
      users[a].username != users[b].username && users[a].email != users[b].email
  }

  /** Every post's author exists and no user likes a post twice. */
  ghost predicate PostsWellFormed(users: map<UserId, User>, posts: map<PostId, Post>) {
    forall p :: p in posts ==> posts[p].user in users && Seqs.NoDup(posts[p].like)
  }

  /** A user's `post` list names only existing posts written by that user. */
  ghost predicate PostListsOwned(users: map<UserId, User>, posts: map<PostId, Post>) {
    forall u, i :: u in users && 0 <= i < |users[u].post| ==>
      users[u].post[i] in posts && posts[users[u].post[i]].user == u
  }

  /** Every claim set minted at login names an existing user by its id and username. */
  ghost predicate IssuedMatch(users: map<UserId, User>, issued: set<Crypto.Claims>) {
    forall c :: c in issued ==> c.userId in users && users[c.userId].username == c.username
  }

  /** What a token carries: its expiry second and its claims. */
  type Payload = (nat, Crypto.Claims)

  /** Every payload login has signed carries a claim set login has issued. */
  ghost predicate MintedMatch(minted: set<Payload>, issued: set<Crypto.Claims>) {
    forall m :: m in minted ==> m.1 in issued
  }

  /** Every existing user is still there, with the same username, email and password. */
  ghost predicate IdentitiesKept(before: map<UserId, User>, after: map<UserId, User>) {
    forall id :: id in before ==>
      && id in after
      && after[id].username == before[id].username
      && after[id].email == before[id].email
      && after[id].password == before[id].password
  }

  /** The user document signup creates from a form that passed the field rules. */
  function NewUser(f: SignupForm, salt: Crypto.Salt): (u: User)
    requires Decimal.IsPositiveInt(f.age)
    ensures u.username == f.username && u.email == f.email && u.city == f.city
    ensures Crypto.Compare(f.password, u.password) && u.age >= 1
    ensures u.profilePic == DefaultProfilePic && u.post == []
  {
    User(f.username, f.email, Crypto.Hash(f.password, salt), Decimal.ParseInt(f.age).value,
         f.city, DefaultProfilePic, [])
  }

  /** Adding an account whose username and email are both new keeps accounts unique. */
  lemma AddingFreshAccountKeepsUnique(users: map<UserId, User>, id: UserId, u: User)
    requires UniqueAccounts(users) && id !in users && !Taken(users, u.username, u.email)
    ensures UniqueAccounts(users[id := u])
  {
    var m := users[id := u];
    forall a, b | a in m && b in m && a != b
      ensures m[a].username != m[b].username && m[a].email != m[b].email
    {
      if a == id {
        assert !Matches(users[b], ByUsernameOrEmail(u.username, u.email));
      } else if b == id {
        assert !Matches(users[a], ByUsernameOrEmail(u.username, u.email));
      }
    }
  }

  /**
   * The stored password of a new user is a digest, not the text; it accepts
   * the strings that agree with the password typed at signup on the first 72
   * UTF-8 bytes, and for a shorter password that is the typed password alone.
   */
  lemma StoredPasswordAccepts(f: SignupForm, salt: Crypto.Salt, candidate: string)
    requires Decimal.IsPositiveInt(f.age)
    ensures NewUser(f, salt).password == Crypto.Hash(f.password, salt)
    ensures Crypto.Compare(candidate, NewUser(f, salt).password) <==> Crypto.Key(candidate) == Crypto.Key(f.password)
    ensures |Text.Utf8(f.password)| < Crypto.KeyLimit ==>
      (Crypto.Compare(candidate, NewUser(f, salt).password) <==> candidate == f.password)
  {
    Crypto.CompareHash(f.password, candidate, salt);
    if |Text.Utf8(f.password)| < Crypto.KeyLimit {
      Crypto.CompareHashShort(f.password, candidate, salt);
    }
  }

  /** With unique usernames, the claims of an issued token name the only user with that username. */
  lemma IssuedClaimsIdentifyUser(users: map<UserId, User>, issued: set<Crypto.Claims>, c: Crypto.Claims)
    requires UniqueAccounts(users) && IssuedMatch(users, issued) && c in issued
    ensures c.userId in users
    ensures forall id :: id in users && Matches(users[id], ByUsername(c.username)) ==> id == c.userId
  {
  }

  /** Under unique usernames, a username picks out at most one user id. */
  lemma UsernameIdentifies(users: map<UserId, User>, id: UserId)
    requires UniqueAccounts(users) && id in users
    ensures forall j :: j in users && users[j].username == users[id].username ==> j == id
  {
  }

  /** Every user id is below the next one handed out, and likewise for posts. */
  ghost predicate IdsBelow(users: map<UserId, User>, posts: map<PostId, Post>, nextUserId: nat, nextPostId: nat) {
    && (forall id :: id in users ==> id < nextUserId)
    && (forall id :: id in posts ==> id < nextPostId)
  }

  /** The store invariant, over the collections, the id counters and the ghost records of login. */
  ghost predicate Consistent(users: map<UserId, User>, posts: map<PostId, Post>, nextUserId: nat, nextPostId: nat,
                             issued: set<Crypto.Claims>, minted: set<Payload>) {
    && IdsBelow(users, posts, nextUserId, nextPostId)
    && UniqueAccounts(users)
    && PostsWellFormed(users, posts)
    && PostListsOwned(users, posts)
    && IssuedMatch(users, issued)
    && MintedMatch(minted, issued)
  }

  /** Signup's insertion of a fresh account with no posts keeps the invariant. */
  lemma AddUserKeepsConsistent(users: map<UserId, User>, posts: map<PostId, Post>, nextUserId: nat, nextPostId: nat,
                               issued: set<Crypto.Claims>, minted: set<Payload>, u: User)
    requires Consistent(users, posts, nextUserId, nextPostId, issued, minted)
    requires !Taken(users, u.username, u.email) && u.post == []
    ensures nextUserId !in users
    ensures Consistent(users[nextUserId := u], posts, nextUserId + 1, nextPostId, issued, minted)
    ensures IdentitiesKept(users, users[nextUserId := u])
  {
    AddingFreshAccountKeepsUnique(users, nextUserId, u);
  }

  /** Login's new claim set and signed payload keep the invariant. */
  lemma MintKeepsConsistent(users: map<UserId, User>, posts: map<PostId, Post>, nextUserId: nat, nextPostId: nat,
                            issued: set<Crypto.Claims>, minted: set<Payload>, id: UserId, now: nat)
    requires Consistent(users, posts, nextUserId, nextPostId, issued, minted) && id in users
    ensures var c := Crypto.Claims(users[id].username, id);
      Consistent(users, posts, nextUserId, nextPostId, issued + {c}, minted + {(now + Crypto.Lifetime, c)})
  {
  }

  /** A new post by an existing author, appended to the author's list, keeps the invariant. */
  lemma AddPostKeepsConsistent(users: map<UserId, User>, posts: map<PostId, Post>, nextUserId: nat, nextPostId: nat,
                               issued: set<Crypto.Claims>, minted: set<Payload>, uid: UserId, p: Post)
    requires Consistent(users, posts, nextUserId, nextPostId, issued, minted)
    requires uid in users && p.user == uid && p.like == []
    ensures nextPostId !in posts
    ensures var u := users[uid].(post := users[uid].post + [nextPostId]);
      && Consistent(users[uid := u], posts[nextPostId := p], nextUserId, nextPostId + 1, issued, minted)
      && IdentitiesKept(users, users[uid := u])
  {
    var u := users[uid].(post := users[uid].post + [nextPostId]);
    var us, ps := users[uid := u], posts[nextPostId := p];
    forall v, i | v in us && 0 <= i < |us[v].post|
      ensures us[v].post[i] in ps && ps[us[v].post[i]].user == v
    {
      if v == uid && i < |users[uid].post| {
        assert us[v].post[i] == users[uid].post[i];
      }
    }
  }

  /** Changing a user's profile picture keeps the invariant. */
  lemma SetPictureKeepsConsistent(users: map<UserId, User>, posts: map<PostId, Post>, nextUserId: nat, nextPostId: nat,
                                  issued: set<Crypto.Claims>, minted: set<Payload>, uid: UserId, pic: string)
    requires Consistent(users, posts, nextUserId, nextPostId, issued, minted) && uid in users
    ensures var u := users[uid].(profilePic := pic);
      && Consistent(users[uid := u], posts, nextUserId, nextPostId, issued, minted)
      && IdentitiesKept(users, users[uid := u])
  {
    var us := users[uid := users[uid].(profilePic := pic)];
    assert forall v :: v in us ==> us[v].post == users[v].post;
  }

  /** Replacing a post by one with the same author and a duplicate-free like list keeps the invariant. */
  lemma ReplacePostKeepsConsistent(users: map<UserId, User>, posts: map<PostId, Post>, nextUserId: nat, nextPostId: nat,
                                   issued: set<Crypto.Claims>, minted: set<Payload>, pid: PostId, p: Post)
    requires Consistent(users, posts, nextUserId, nextPostId, issued, minted)
    requires pid in posts && p.user == posts[pid].user && (p.like == posts[pid].like || Seqs.NoDup(p.like))
    ensures Consistent(users, posts[pid := p], nextUserId, nextPostId, issued, minted)
  {
  }

  /** Toggling the caller's like on an existing post keeps the invariant. */
  lemma ToggleKeepsConsistent(users: map<UserId, User>, posts: map<PostId, Post>, nextUserId: nat, nextPostId: nat,
                              issued: set<Crypto.Claims>, minted: set<Payload>, pid: PostId, uid: UserId)
    requires Consistent(users, posts, nextUserId, nextPostId, issued, minted) && pid in posts
    ensures Consistent(users, posts[pid := posts[pid].(like := Toggled(posts[pid].like, uid))],
                       nextUserId, nextPostId, issued, minted)
  {
    ToggledNoDup(posts[pid].like, uid);
    ReplacePostKeepsConsistent(users, posts, nextUserId, nextPostId, issued, minted,
                               pid, posts[pid].(like := Toggled(posts[pid].like, uid)));
  }

  /** The server's pages. */
  datatype Page = SignupPage | LoginPage | ProfilePage | PostsPage | UploadPage | EditPage(postId: PostId)

  function View(p: Page): string {
    match p
    case SignupPage => "signup"
    case LoginPage => "login"
    case ProfilePage => "profile"
    case PostsPage => "post"
    case UploadPage => "profileUpload"
    case EditPage(_) => "edit"
  }

  /** A request: the route with its parameters and body, and the `token` cookie it carries. */
  datatype Route =
    | ShowPage(page: Page)
    | SignupRoute(form: SignupForm)
    | LoginRoute(username: string, password: string)
    | NewPost(content: string)
    | UploadRoute(filename: string)
    | LikeRoute(likedPost: PostId)
    | EditRoute(editedPost: PostId, content: string)
    | LogoutRoute

  datatype Request = Request(route: Route, token: Option<string>)

  /** The routes registered with the `isLoggedIn` gate. */
  predicate Gated(r: Route)
    ensures r.SignupRoute? || r.LoginRoute? || r.LogoutRoute? ==> !Gated(r)
    ensures r.NewPost? || r.UploadRoute? || r.LikeRoute? || r.EditRoute? ==> Gated(r)
    ensures r.ShowPage? ==> (Gated(r) <==> r.page != SignupPage && r.page != LoginPage)
  {
    !(r.SignupRoute? || r.LoginRoute? || r.LogoutRoute? || r == ShowPage(SignupPage) || r == ShowPage(LoginPage))
  }

  /** The database: the `user` and `post` collections. */
  class Store {
    var users: map<UserId, User>
    var posts: map<PostId, Post>
    /** The ids the next created user and post receive. */
    var nextUserId: nat
    var nextPostId: nat
    /** The date every new post gets: the post schema's default is evaluated once, when the schema is loaded. */
    const postDate: int
    /** The claim sets login has put into tokens so far. */
    ghost var issued: set<Crypto.Claims>
    /** The payloads, expiry and claims, of the tokens login has signed so far. */
    ghost var minted: set<Payload>

    ghost predicate IdsBounded()
      reads this
    {
      IdsBelow(users, posts, nextUserId, nextPostId)
    }

    ghost predicate Valid()
      reads this
    {
      Consistent(users, posts, nextUserId, nextPostId, issued, minted)
    }

    /**
     * The unforgeability of the signed token, as an assumption about the
     * request: a token the gate accepts on a gated route carries a payload
     * this server's login signed. The token model carries no secret, so the
     * model cannot establish this itself.
     */
    ghost predicate TokenUnforged(req: Request, now: nat)
      reads this
    {
      Gated(req.route) && IsLoggedIn(req.token, now).Accept? ==>
        Crypto.Decode(req.token.value).Some? && Crypto.Decode(req.token.value).value in minted
    }

    constructor (schemaLoadTime: int)
      ensures Valid()
      ensures users == map[] && posts == map[] && issued == {} && minted == {} && postDate == schemaLoadTime
    {
      users, posts := map[], map[];
      nextUserId, nextPostId := 0, 0;
      postDate := schemaLoadTime;
      issued, minted := {}, {};
    }

    /** `findOne(q)`: the first user, in insertion order, that matches. */
    method FindOne(q: Query) returns (r: Option<UserId>)
      requires IdsBounded()
      ensures r.Some? ==> r.value in users && Matches(users[r.value], q)
      ensures r.Some? ==> forall id :: id in users && id < r.value ==> !Matches(users[id], q)
      ensures r.None? ==> forall id :: id in users ==> !Matches(users[id], q)
    {
      var i := 0;
      while i < nextUserId
        invariant i <= nextUserId
        invariant forall id :: id in users && id < i ==> !Matches(users[id], q)
      {
        if i in users && Matches(users[i], q) {
          return Some(i);
        }
        i := i + 1;
      }
      return None;
    }

    /** `POST /signup`. */
    method Signup(f: SignupForm, isEmail: string -> bool, salt: Crypto.Salt) returns (out: Outcome)
      requires Valid()
      modifies this
      ensures Valid()
      ensures posts == old(posts) && nextPostId == old(nextPostId) && issued == old(issued) && minted == old(minted)
      ensures IdentitiesKept(old(users), users)
      ensures out.cookie == Keep
      ensures !FieldRulesHold(f, isEmail) ==>
        out.response == Status(400, SignupErrors(f, isEmail))
        && users == old(users) && nextUserId == old(nextUserId)
      ensures FieldRulesHold(f, isEmail) && Taken(old(users), f.username, f.email) ==>
        out.response == Status(400, [DuplicateMessage])
        && users == old(users) && nextUserId == old(nextUserId)
      ensures FieldRulesHold(f, isEmail) && !Taken(old(users), f.username, f.email) ==>
        out.response == Redirect("/login")
        && old(nextUserId) !in old(users)
        && users == old(users)[old(nextUserId) := NewUser(f, salt)]
        && nextUserId == old(nextUserId) + 1
    {
      var errors := SignupErrors(f, isEmail);
      if errors != [] {
        return Outcome(Status(400, errors), Keep);
      }
      var existing := FindOne(ByUsernameOrEmail(f.username, f.email));
      if existing.Some? {
        return Outcome(Status(400, [DuplicateMessage]), Keep);
      }
      var u := NewUser(f, salt);
      AddUserKeepsConsistent(users, posts, nextUserId, nextPostId, issued, minted, u);
      users := users[nextUserId := u];
      nextUserId := nextUserId + 1;
      out := Outcome(Redirect("/login"), Keep);
    }

    /** The success path of login: signs a token for user `id` and records its claims and payload. */
    method StartSession(id: UserId, now: nat) returns (token: string)
      requires Valid() && id in users
      modifies this`issued, this`minted
      ensures Valid()
      ensures token == Crypto.Sign(Crypto.Claims(users[id].username, id), now)
      ensures issued == old(issued) + {Crypto.Claims(users[id].username, id)}
      ensures minted == old(minted) + {(now + Crypto.Lifetime, Crypto.Claims(users[id].username, id))}
    {
      var claims := Crypto.Claims(users[id].username, id);
      MintKeepsConsistent(users, posts, nextUserId, nextPostId, issued, minted, id, now);
      issued, minted := issued + {claims}, minted + {(now + Crypto.Lifetime, claims)};
      token := Crypto.Sign(claims, now);
    }

    /** `POST /login` at second `now`; only the ghost records of issued claims and signed payloads may change. */
    method Login(username: string, password: string, now: nat) returns (out: Outcome)
      requires Valid()
      modifies this`issued, this`minted
      ensures Valid()
      ensures username == "" || password == "" ==>
        out == Outcome(Status(400, [MissingCredentialsMessage]), Keep) && issued == old(issued) && minted == old(minted)
      ensures username != "" && password != "" && (forall id :: id in users ==> users[id].username != username) ==>
        out == Outcome(Status(401, [BadCredentialsMessage]), Keep) && issued == old(issued) && minted == old(minted)
      ensures forall id :: id in users && users[id].username == username && username != "" && password != "" ==>
        if Crypto.Compare(password, users[id].password) then
          && out == Outcome(Redirect("/profile"), SetToken(Crypto.Sign(Crypto.Claims(username, id), now)))
          && issued == old(issued) + {Crypto.Claims(username, id)}
          && minted == old(minted) + {(now + Crypto.Lifetime, Crypto.Claims(username, id))}
        else
          out == Outcome(Status(401, [BadCredentialsMessage]), Keep) && issued == old(issued) && minted == old(minted)
    {
      if username == "" || password == "" {
        return Outcome(Status(400, [MissingCredentialsMessage]), Keep);
      }
      var found := FindOne(ByUsername(username));
      if found.None? {
        return Outcome(Status(401, [BadCredentialsMessage]), Keep);
      }
      var id := found.value;
      var user := users[id];
      assert forall j :: j in users && users[j].username == username ==> j == id by {
        assert user.username == username;
        UsernameIdentifies(users, id);
      }
      if Crypto.Compare(password, user.password) {
        var token := StartSession(id, now);
        out := Outcome(Redirect("/profile"), SetToken(token));
      } else {
        out := Outcome(Status(401, [BadCredentialsMessage]), Keep);
      }
    }

    /** `POST /post` for the logged-in caller. */
    method CreatePost(claims: Crypto.Claims, content: string) returns (out: Outcome)
      requires Valid() && claims in issued
      modifies this`posts, this`users, this`nextPostId
      ensures Valid()
      ensures old(nextPostId) !in old(posts) && nextPostId == old(nextPostId) + 1
      ensures posts == old(posts)[old(nextPostId) := Post(content, postDate, [], claims.userId)]
      ensures claims.userId in old(users)
      ensures users.Keys == old(users.Keys) && IdentitiesKept(old(users), users)
      ensures users == old(users)[claims.userId :=
        old(users)[claims.userId].(post := old(users)[claims.userId].post + [old(nextPostId)])]
      ensures out == Outcome(Redirect("/post"), Keep)
    {
      var found := FindOne(ByUsername(claims.username));
      IssuedClaimsIdentifyUser(users, issued, claims);
      var uid := found.value;
      var pid := nextPostId;
      var author := users[uid];
      AddPostKeepsConsistent(users, posts, nextUserId, nextPostId, issued, minted, uid, Post(content, postDate, [], uid));
      posts := posts[pid := Post(content, postDate, [], uid)];
      users := users[uid := author.(post := author.post + [pid])];
      nextPostId := nextPostId + 1;
      out := Outcome(Redirect("/post"), Keep);
    }

    /** `POST /upload`: the uploaded file's generated name becomes the caller's profile picture. */
    method Upload(claims: Crypto.Claims, filename: string) returns (out: Outcome)
      requires Valid() && claims in issued
      modifies this`users
      ensures Valid()
      ensures claims.userId in old(users)
      ensures users.Keys == old(users.Keys) && IdentitiesKept(old(users), users)
      ensures users == old(users)[claims.userId := old(users)[claims.userId].(profilePic := filename)]
      ensures out == Outcome(Redirect("/post"), Keep)
    {
      var found := FindOne(ByUsername(claims.username));
      IssuedClaimsIdentifyUser(users, issued, claims);
      var uid := found.value;
      var user := users[uid];
      SetPictureKeepsConsistent(users, posts, nextUserId, nextPostId, issued, minted, uid, filename);
      users := users[uid := user.(profilePic := filename)];
      out := Outcome(Redirect("/post"), Keep);
    }

    /** `GET /like/:id`: like the post when the caller does not yet, unlike it otherwise. */
    method ToggleLike(claims: Crypto.Claims, pid: PostId) returns (out: Outcome)
      requires Valid() && pid in posts
      modifies this`posts
      ensures Valid()
      ensures users == old(users)
      ensures posts == old(posts)[pid := old(posts)[pid].(like := Toggled(old(posts)[pid].like, claims.userId))]
      ensures out == Outcome(Redirect("/post"), Keep)
    {
      var post := posts[pid];
      var uid := claims.userId;
      var index := Seqs.IndexOf(post.like, uid);
      var like := if index == -1 then post.like + [uid] else post.like[..index] + post.like[index + 1..];
      assert like == Toggled(post.like, uid) by {
        SpliceToggles(post.like, uid);
      }
      assert Consistent(users, posts[pid := post.(like := like)], nextUserId, nextPostId, issued, minted) by {
        ToggleKeepsConsistent(users, posts, nextUserId, nextPostId, issued, minted, pid, uid);
      }
      posts := posts[pid := post.(like := like)];
      out := Outcome(Redirect("/post"), Keep);
    }

    /** `POST /edit/:id`: only the author may replace a post's content. */
    method EditPost(claims: Crypto.Claims, pid: PostId, content: string) returns (out: Outcome)
      requires Valid()
      modifies this`posts
      ensures Valid()
      ensures users == old(users)
      ensures pid !in old(posts) ==>
        out == Outcome(Status(404, [NotFoundMessage]), Keep) && posts == old(posts)
      ensures pid in old(posts) && old(posts)[pid].user != claims.userId ==>
        out == Outcome(Status(403, [ForbiddenMessage]), Keep) && posts == old(posts)
      ensures pid in old(posts) && old(posts)[pid].user == claims.userId ==>
        out == Outcome(Redirect("/post"), Keep)
        && posts == old(posts)[pid := old(posts)[pid].(content := content)]
    {
      if pid !in posts {
        return Outcome(Status(404, [NotFoundMessage]), Keep);
      }
      var post := posts[pid];
      if post.user != claims.userId {
        return Outcome(Status(403, [ForbiddenMessage]), Keep);
      }
      ReplacePostKeepsConsistent(users, posts, nextUserId, nextPostId, issued, minted, pid, post.(content := content));
      posts := posts[pid := post.(content := content)];
      out := Outcome(Redirect("/post"), Keep);
    }

    /** One request at second `now`, with `salt` the salt bcrypt would draw and `isEmail` the server's address check. */
    method Handle(req: Request, now: nat, salt: Crypto.Salt, isEmail: string -> bool) returns (out: Outcome)
      requires Valid() && TokenUnforged(req, now)
      requires req.route.LikeRoute? && IsLoggedIn(req.token, now).Accept? ==> req.route.likedPost in posts
      modifies this
      ensures Valid()
      ensures Gated(req.route) && IsLoggedIn(req.token, now).Reject? ==>
        && out == Outcome(Redirect("/login"), if IsLoggedIn(req.token, now).clearCookie then ClearToken else Keep)
        && unchanged(this)
      ensures req.route.LogoutRoute? ==> out == Outcome(Redirect("/login"), ClearToken) && unchanged(this)
      ensures users.Keys != old(users.Keys) ==> req.route.SignupRoute?
      ensures posts != old(posts) ==> Gated(req.route) && IsLoggedIn(req.token, now).Accept?
      ensures IdentitiesKept(old(users), users)
    {
      if !Gated(req.route) {
        match req.route {
          case ShowPage(page) => out := Outcome(Render(View(page)), Keep);
          case SignupRoute(form) => out := Signup(form, isEmail, salt);
          case LoginRoute(username, password) => out := Login(username, password, now);
          case LogoutRoute => out := Outcome(Redirect("/login"), ClearToken);
        }
        return;
      }
      var gate := IsLoggedIn(req.token, now);
      if gate.Reject? {
        return Outcome(Redirect("/login"), if gate.clearCookie then ClearToken else Keep);
      }
      var claims := gate.claims;
      assert claims in issued;
      match req.route {
        case ShowPage(page) => out := Outcome(Render(View(page)), Keep);
        case NewPost(content) => out := CreatePost(claims, content);
        case UploadRoute(filename) => out := Upload(claims, filename);
        case LikeRoute(pid) => out := ToggleLike(claims, pid);
        case EditRoute(pid, content) => out := EditPost(claims, pid, content);
      }
    }
  }
}
