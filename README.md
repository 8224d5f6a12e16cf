# Mini social app: verified model of the request logic and the browser rules

This project models the core of a small Express/MongoDB social network. The
server lets people sign up, log in with a signed session token held in the
`token` cookie, write posts, like and unlike posts, edit their own posts and
upload a profile picture. The browser script chooses the theme, validates
form fields and builds the navigation bar.

- `wrappers.dfy` (`Wrappers`): the `Option` type.
- `seqs.dfy` (`Seqs`): `indexOf`, removing a first occurrence (`splice(i, 1)`), duplicate-freedom.
- `decimal.dfy` (`Decimal`): numerals, and the integer syntax of express-validator's `isInt`.
- `text.dfy` (`Text`): ECMAScript whitespace, `trim`, UTF-16 length, validator.js `isLength` length, UTF-8 encoding.
- `crypto.dfy` (`Crypto`): bcrypt and jsonwebtoken as ideal symbolic functions.
  - A digest accepts exactly the passwords that agree with its own on the first 72 UTF-8 bytes.
  - A token is an unsigned encoding of its expiry and claims. A minted token verifies to its own claims until 24 hours after it was issued.
- `rules.dfy` (`ServerRules`): the side-effect-free server decisions.
  - The signup field rules.
  - The `isLoggedIn` gate.
  - The like toggle on a list of likers.
- `server.dfy` (`Server`): the `Store` class.
  - It holds the `user` and `post` collections as maps from ids to documents.
  - Each route handler is a method on it.
  - `Handle` puts the gate in front of the routes that have it.
- `client.dfy` (`Client`): the `ThemeManager` class, `isValidEmail`, `validateField` and the navigation rules.

The store invariant `Store.Valid` holds across every handler. It states these facts:
- usernames are unique, and so are emails;
- every post's author exists;
- no post lists a liker twice;
- every id in a user's `post` list names a post by that user;
- every claim set that login put into a token names an existing user;
- every payload (expiry and claims) that login signed carries such a claim set.

Three behaviours of the code matter to the model:
- `/logout` is not behind the authentication gate (`api/index.js:282-286`).
- The likers of a post are a list, not a set. Toggling removes the first occurrence only. The list stays duplicate-free because nothing else adds to it; `ToggledNoDup` proves this.
- Every post gets the same date: the time the post schema was loaded. The schema default is `Date.now()`, evaluated once (`models/post.js:10`). The store carries that instant as the constant `postDate`.

## Model

| member | source | states |
|---|---|---|
| `Seqs.IndexOf` | api/index.js:244 | the result is -1 exactly when the caller is not a liker, otherwise the first index holding it |
| `Seqs.SpliceAtIndexOf` | api/index.js:247-249 | `splice(index, 1)` at the index `indexOf` returned removes exactly the first occurrence |
| `Decimal.ParseInt` | api/index.js:90-92 | a parsed age comes from a non-empty string that ends in a digit; `ParseIntExact` gives the exact language and value |
| `Decimal.ParseIntOfParts` | api/index.js:90-92 | an optional `+` or `-`, any number of leading zeros and a numeral parse to that numeral's number with the sign applied |
| `Decimal.ParseIntParts` | api/index.js:90-92 | every string that parses is such a sign, zeros and numeral, and the result is the signed number |
| `Decimal.ParseIntExact` | api/index.js:90-92 | the parse yields `v` if and only if the string is an optional sign, leading zeros and the numeral of `n`, with `v` equal to `n` under that sign |
| `Decimal.ParseIntNumerals` | api/index.js:90-92 | every numeral, bare or signed with `+` or `-`, parses to the number it denotes |
| `Decimal.PositiveIntNumerals` | api/index.js:90-92 | the age rule accepts a numeral exactly when its value is at least 1, and rejects the empty field and negative numerals |
| `Text.Trim` | api/public/javascript/app.js:160 | the trimmed value is empty exactly when the input is all whitespace; otherwise it neither starts nor ends with whitespace; it is a slice of the input with only whitespace cut off both ends |
| `Text.TrimIdempotent` | api/public/javascript/app.js:160 | trimming a trimmed value changes nothing |
| `Text.Utf16Length` | api/public/javascript/app.js:174 | JavaScript `length` lies between the number of code points and twice that |
| `Text.ValidatorLength` | api/index.js:74-84 | the length `isLength` measures never exceeds the number of code points |
| `Text.LengthsAgree` | api/index.js:74-84 | for text in the Basic Multilingual Plane without variation selectors, the server's and the browser's lengths both count characters |
| `Text.Utf8Injective` | api/index.js:115 | different strings have different UTF-8 encodings, so bcrypt tells apart any two passwords within its byte limit |
| `Crypto.Key` | api/index.js:115 | bcrypt reads at most 72 bytes: all of the UTF-8 encoding when it is shorter, otherwise its first 72 bytes |
| `Crypto.Hash` | api/index.js:115 | the digest keeps the salt and accepts the password it was made from |
| `Crypto.Compare` | api/index.js:163 | `bcrypt.compare` recomputes the tag from the candidate's first 72 bytes and the digest's salt |
| `Crypto.CompareHash` | api/index.js:163 | `bcrypt.compare` accepts a digest made by `bcrypt.hash` exactly for the candidates that agree with the password on the bytes bcrypt reads |
| `Crypto.CompareHashShort` | api/index.js:163 | for a password under 72 bytes, the digest accepts that password and no other string |
| `Crypto.CompareHashTruncates` | api/index.js:163 | for a password of 72 bytes or more, the digest accepts every string with the same first 72 bytes |
| `Crypto.Sign` | api/index.js:166-170 | a minted token decodes to the claims and an expiry 24 hours after the issuing second |
| `Crypto.Verify` | api/index.js:316 | a token verifies only if it is the canonical encoding of the returned claims with an expiry still ahead, and then it decodes to those claims |
| `Crypto.VerifySign` | api/index.js:166-170 | a token minted at login verifies to exactly its claims before the 24-hour horizon, and fails from then on |
| `Crypto.SignNonEmpty` | api/index.js:312 | a minted token is never empty, so the gate never treats it as missing |
| `ServerRules.FieldRulesHold` | api/index.js:73-92 | a form that passes has a username of at least 3 and a password of at least 6 characters, an e-mail the address check accepts, a city, and an age that parses to at least 1 |
| `ServerRules.SignupErrors` | api/index.js:73-97 | there are no errors exactly when all five field rules hold; each rule's message is present exactly when that rule fails |
| `ServerRules.IsLoggedIn` | api/index.js:310-323 | an absent or empty cookie redirects without clearing; a cookie that fails verification is cleared; otherwise the gate accepts with the verified claims |
| `ServerRules.GateOnMintedToken` | api/index.js:310-323 | a token from login opens the gate with its own claims for 24 hours and is cleared afterwards |
| `ServerRules.Toggled` | api/index.js:244-249 | the toggle shortens the likers by one when the caller is among them and lengthens them by one otherwise |
| `ServerRules.ToggledMultiset` | api/index.js:244-249 | the toggle takes one copy of the caller out of the likers or adds one, and leaves everyone else's count alone |
| `ServerRules.SpliceToggles` | api/index.js:244-249 | `indexOf` followed by `push` or `splice(index, 1)` computes the toggle |
| `ServerRules.ToggleTwiceRestores` | api/index.js:241-253 | from "not liked", two toggles restore the exact list of likers |
| `ServerRules.ToggledNoDup` | api/index.js:244-249 | on a duplicate-free list, the toggle flips the caller's membership, leaves everyone else's alone and keeps the list duplicate-free |
| `ServerRules.ToggleTwicePermutes` | api/index.js:244-249 | from "liked", two toggles give back the same likers (as a multiset) |
| `Server.NewUser` | api/index.js:117-123 | the new user keeps the form's username, email and city, stores a digest that accepts the typed password, has an age of at least 1, the default picture and no posts |
| `Server.Gated` | api/index.js:197-286 | signup, login and logout and their pages are open; posting, uploading, liking, editing and every other page are behind the gate |
| `Server.AddingFreshAccountKeepsUnique` | api/index.js:103-112 | adding a user whose username and email both match no existing user keeps usernames and emails unique |
| `Server.StoredPasswordAccepts` | api/index.js:114-123 | the stored password of a new user is a digest of the typed password; it accepts the strings that share the typed password's first 72 bytes, which for a shorter password is that password alone |
| `Server.IssuedClaimsIdentifyUser` | api/index.js:213 | under unique usernames, the username in a token issued at login finds exactly the token's user id |
| `Server.Store.constructor` | models/post.js:6-20 | the store starts empty; every post will carry the date fixed when the schema was loaded |
| `Server.Store.FindOne` | api/index.js:104-106 | `findOne` returns the first user in insertion order that matches the filter, or nothing when no user matches |
| `Server.Store.Signup` | api/index.js:73-134 | a field-rule failure gives 400 with the rule messages; a taken username or email gives 400 "Username or email already exists"; in both cases no user is added. Otherwise exactly one user is added, with a hashed password, the default picture and no posts, and the response redirects to `/login`. No cookie is set in any case, and uniqueness is preserved |
| `Server.Store.Login` | api/index.js:142-193 | a missing username or password gives 400. An unknown username and a wrong password both give 401 with the same message and no cookie. A match sets the cookie to a token for exactly `{username, user_id}`, records the token's payload as minted, and redirects to `/profile`. Its frame holds only the ghost records, so no document changes |
| `Server.Store.StartSession` | api/index.js:164-178 | the token signed for user `id` carries exactly `{username, user_id}`; its claims join the issued ones and its payload the minted ones; the store invariant is kept |
| `Server.Store.CreatePost` | api/index.js:210-222 | exactly one post is added with the given content, the caller as author and no likers; its id is appended to the caller's post list; no other user changes; redirect to `/post` |
| `Server.Store.Upload` | api/index.js:230-236 | only the caller's `profilePic` changes, to the uploaded file's name; redirect to `/post` |
| `Server.Store.ToggleLike` | api/index.js:241-253 | only that post's likers change, to the toggled list; the store invariant, including duplicate-free likers, is kept; redirect to `/post` |
| `Server.Store.EditPost` | api/index.js:262-278 | a missing post gives 404 and a non-author gives 403, both leaving posts unchanged; the author replaces only the content and is redirected to `/post` |
| `Server.Store.Handle` | api/index.js:197-286 | every gated route turned away by the gate redirects to `/login`, clears the cookie only for a bad token and changes nothing; logout clears the cookie without the gate and changes nothing in the store. Only signup adds users; only a request that passed the gate changes posts. No username, email or password ever changes. Tokens the gate accepts are assumed to carry a payload login signed |
| `Client.InitialTheme` | api/public/javascript/app.js:4 | the start theme is the stored one when it is non-empty, `light` otherwise |
| `Client.NextTheme` | api/public/javascript/app.js:22-23 | toggling always yields `light` or `dark`, and never the current theme |
| `Client.ToggleTwiceRestoresTheme` | api/public/javascript/app.js:22-26 | starting from `light` or `dark`, two toggles restore the theme |
| `Client.TogglesAlternate` | api/public/javascript/app.js:22-26 | after the first toggle, from whatever stored value, toggling alternates between the two themes |
| `Client.ThemeManager.constructor` | api/public/javascript/app.js:3-12 | the current theme starts as the stored theme or `light` |
| `Client.ThemeManager.ApplyTheme` | api/public/javascript/app.js:14-20 | the applied theme becomes the current theme |
| `Client.ThemeManager.ToggleTheme` | api/public/javascript/app.js:22-26 | the current theme becomes the toggled one |
| `Client.IsValidEmail` | api/public/javascript/app.js:205-208 | an accepted address has at least five characters and contains `@`; `EmailPattern` states its exact language |
| `Client.EmailPatternSound` | api/public/javascript/app.js:205-208 | every address `isValidEmail` accepts matches `^[^\s@]+@[^\s@]+\.[^\s@]+$` |
| `Client.EmailPatternComplete` | api/public/javascript/app.js:205-208 | every string the pattern matches is accepted |
| `Client.EmailPattern` | api/public/javascript/app.js:205-208 | `isValidEmail` holds exactly when the pattern matches |
| `Client.EmailShape` | api/public/javascript/app.js:206 | an accepted address has no whitespace, exactly one `@`, and does not start with `@` |
| `Client.ValidateField` | api/public/javascript/app.js:159-184 | a field is valid exactly when no message is shown |
| `Client.RequiredBlankRejected` | api/public/javascript/app.js:168-170 | a required field holding only whitespace is invalid with "This field is required", whatever its type |
| `Client.OptionalBlankAccepted` | api/public/javascript/app.js:167-183 | a blank field that is not required is valid, whatever its type |
| `Client.EmailFieldRule` | api/public/javascript/app.js:171-173 | a filled e-mail field is valid exactly when its trimmed value matches the e-mail pattern; when it is invalid, the message is the e-mail message |
| `Client.PasswordFieldRule` | api/public/javascript/app.js:174-176 | a filled password field is valid exactly when its trimmed value has at least 6 UTF-16 code units |
| `Client.OtherFieldsValid` | api/public/javascript/app.js:179-183 | a filled field of any other type is valid |
| `Client.NavTable` | api/public/javascript/app.js:367-372 | four entries end with Logout, always shown; each of the other three is shown exactly when its link is not the current path |
| `Client.CreateNavigation` | api/public/javascript/app.js:366-383 | the loop appends the links of exactly the shown table entries, in table order |
| `Client.NavigationLinks` | api/public/javascript/app.js:367-372 | the navigation is Profile, Posts and Upload, each only when it is not the current page, followed by Logout in every case |
| `Client.NavigationLeavesPage` | api/public/javascript/app.js:367-383 | Logout is always the last link, and every other link leads away from the current page |
| `Client.EnhanceNavigation` | api/public/javascript/app.js:305-318 | no navigation is built on `/` and `/login`; everywhere else it is the table's shown links |

## Left out

- MongoDB and Mongoose are replaced by two in-memory maps:
  - connection setup, `save`, `populate` and `findOneAndUpdate` are not modelled;
  - ObjectIds are natural numbers handed out in increasing order.
- The 500 responses of the `catch` blocks in signup and login are not modelled. They fire when the database or bcrypt fails, and in-memory maps do not fail.
- Post ids in `/like/:id` and `/edit/:id` are modelled as well-formed ids. A malformed id makes `findOne` throw a cast error. POST `/edit/:id` then answers 500 "Server error" (`api/index.js:265`, `api/index.js:275-276`). GET `/like/:id` throws without sending a response (`api/index.js:242`).
- bcrypt is modelled as an ideal hash of the first 72 bytes of the UTF-8 encoded password:
  - `genSalt` draws randomness, so the salt is a parameter;
  - the number of salt rounds is not modelled;
  - the zero byte the native code appends to the key, which it then repeats to fill 72 bytes, is not modelled; it matters only for passwords that contain U+0000;
  - lone surrogates, which Node encodes as U+FFFD, are not modelled, because a Dafny string cannot hold them.
- jsonwebtoken is modelled without its signature, and the signing secret is left out:
  - a token is a readable encoding of its expiry and claims;
  - `Crypto.Verify` accepts any canonical encoding whose expiry is ahead, including one that login never minted;
  - that only minted tokens reach the handlers is the assumption `Server.Store.TokenUnforged`, over the ghost set `minted` of the payloads that login signed;
  - verification fails when the clock, a parameter in seconds, has reached the expiry;
  - the `iat` claim is not modelled;
  - the three failure kinds (malformed, bad signature, expired) are not told apart, because the gate treats them alike.
- express-validator's `isEmail` is library behaviour. It enters signup as a parameter `isEmail: string -> bool`.
- Multer is not modelled:
  - multipart parsing and file storage are left out, and only the generated file name enters `Upload`;
  - the upload middleware runs before the gate, so a rejected request still stores its file;
  - a request without a file makes the source throw.
- `Server.Store.ToggleLike` requires that the post exists. The source dereferences a missing post and throws; no error response is modelled for it.
- `Server.Store.CreatePost` and `Server.Store.Upload` require claims that login issued. The source looks the user up by username and throws when no user is found.
- `Server.Store.Handle` requires `TokenUnforged`: a token the gate accepts on a gated route carries a payload that login signed. From it, `Handle` derives that the accepted claims were issued. A forged token is not modelled.
- `Server.Store.Handle` states only the gate, logout and store-wide safety facts. The effect of each accepted route is stated by the handler it calls.
- The cookie options (`httpOnly`, `secure`, `maxAge`) are read from the environment and are not modelled. A set cookie is only its token.
- Page rendering is not modelled. A page is its view name. GET `/profile`, `/post` and `/edit/:id` do not model the lookups that feed the view.
- The `/test-db` route, console logging, `app.listen` and the static-file and body-parser middleware are not modelled.
- The first, overridden definition of `isLoggedIn` is not modelled. It differs from the second only by logging.
- Concurrent requests and the read-modify-write race on likes and edits are not modelled. The model handles one request at a time.
- Form bodies are strings; a missing field is the empty string. Array or object bodies are not modelled.
- The signup field rules are modelled on the body only. express-validator's `check` (`api/index.js:74-92`) also validates same-named cookies, headers, route parameters and query parameters, and every copy present must pass. A valid body sent with, say, a cookie `age=0` is rejected by the source but accepted by the model.
- A stored age is the exact integer value. The floating-point rounding of very long numerals is not modelled.
- In the browser script, the following are not modelled:
  - DOM updates, CSS, animation, event listeners and `setTimeout`;
  - `IntersectionObserver` and the `matchMedia` listener;
  - the `localStorage` write in `applyTheme` and the toggle button;
  - the "navigation already exists" check, and the hover and active-link effects;
  - `enhanceForms`, `PostEnhancer` and `Utils`;
  - the DOM halves of `clearValidation` and `showValidationError`.
- `api/public/javascript/app-simple.js` is not part of this model. It is DOM class toggling and form styling.
- `test-production.js`, `test-forms.js` and `test-views.js` are not part of this model. They are network scripts.
