/**
 * The decision rules of the browser script: the theme manager's state, the
 * form-field validator with its e-mail pattern, and the choice of navigation
 * links.
 */
module Client {
  import opened Wrappers
  import Seqs
  import Text

  // ----- theme -----

  /** The theme a page starts with: the stored one, or `light` when nothing (or an empty string) is stored. */
  function InitialTheme(stored: Option<string>): (t: string)
    ensures t != ""
    ensures stored.Some? && stored.value != "" ==> t == stored.value
    ensures stored.None? || stored.value == "" ==> t == "light"
  {
    if stored.Some? && stored.value != "" then stored.value else "light"
  }

  /** The theme `toggleTheme` switches to: `dark` from `light`, `light` from anything else. */
  function NextTheme(t: string): (n: string)
    ensures n == "light" || n == "dark"
    ensures n != t
  {
    if t == "light" then "dark" else "light"
  }

  /** Between the two themes, toggling twice restores the original theme. */
  lemma ToggleTwiceRestoresTheme(t: string)
    requires t == "light" || t == "dark"
    ensures NextTheme(NextTheme(t)) == t
  {
  }

  /** Whatever theme was stored, from the first toggle on the page alternates between the two themes. */
  lemma TogglesAlternate(t: string)
    ensures NextTheme(NextTheme(NextTheme(t))) == NextTheme(t)
  {
    ToggleTwiceRestoresTheme(NextTheme(t));
  }

  class ThemeManager {
    var currentTheme: string

    /** Reads the stored theme and applies it. */
    constructor (stored: Option<string>)
      ensures currentTheme == InitialTheme(stored)
    {
      currentTheme := InitialTheme(stored);
      new;
      ApplyTheme(currentTheme);
    }

    method ApplyTheme(theme: string)
      modifies this
      ensures currentTheme == theme
    {
      currentTheme := theme;
    }

    method ToggleTheme()
      modifies this
      ensures currentTheme == NextTheme(old(currentTheme))
    {
      var newTheme := if currentTheme == "light" then "dark" else "light";
      ApplyTheme(newTheme);
    }
  }

  // ----- e-mail pattern -----

  /** A character of the class `[^\s@]`. */
  predicate AddressChar(c: char) {
    !Text.IsSpace(c) && c != '@'
  }

  /** A run `[^\s@]+`. */
  predicate Run(s: string) {
    s != [] && forall i :: 0 <= i < |s| ==> AddressChar(s[i])
  }

  /** The strings the regular expression `^[^\s@]+@[^\s@]+\.[^\s@]+$` matches, read off its structure. */
  ghost predicate MatchesEmailPattern(s: string) {
    exists i, j :: 0 < i && i + 1 < j && j + 1 < |s| && s[i] == '@' && s[j] == '.'
                   && Run(s[..i]) && Run(s[i + 1..j]) && Run(s[j + 1..])
  }

  /** `isValidEmail`: a run, `@`, then a domain of address characters with a dot neither first nor last. */
  predicate IsValidEmail(s: string)
    ensures IsValidEmail(s) ==> 5 <= |s| && '@' in s
  {
    var at := Seqs.IndexOf(s, '@');
    && at > 0
    && Run(s[..at])
    && var domain := s[at + 1..];
       && (forall k :: 0 <= k < |domain| ==> AddressChar(domain[k]))
       && exists k :: 0 < k < |domain| - 1 && domain[k] == '.'
  }

  /** Every string the decision procedure accepts matches the e-mail pattern. */
  lemma EmailPatternSound(s: string)
    requires IsValidEmail(s)
    ensures MatchesEmailPattern(s)
  {
    var at := Seqs.IndexOf(s, '@');
    var domain := s[at + 1..];
    assert forall k :: 0 <= k < |domain| ==> AddressChar(domain[k]);
    var k :| 0 < k < |domain| - 1 && domain[k] == '.';
    var j := at + 1 + k;
    var host, tld := s[at + 1..j], s[j + 1..];
    assert host == domain[..k] && tld == domain[k + 1..];
    forall m | 0 <= m < |host| ensures AddressChar(host[m]) {
      assert host[m] == domain[m];
    }
    forall m | 0 <= m < |tld| ensures AddressChar(tld[m]) {
      assert tld[m] == domain[k + 1 + m];
    }
    assert s[at] == '@' && s[j] == domain[k];
    assert Run(s[..at]) && Run(host) && Run(tld);
  }

  /** Every string the e-mail pattern matches is accepted by the decision procedure. */
  lemma EmailPatternComplete(s: string, i: int, j: int)
    requires 0 < i && i + 1 < j && j + 1 < |s| && s[i] == '@' && s[j] == '.'
    requires Run(s[..i]) && Run(s[i + 1..j]) && Run(s[j + 1..])
    ensures IsValidEmail(s)
  {
    assert '@' !in s[..i] by {
      forall m | 0 <= m < i ensures s[..i][m] != '@' { assert AddressChar(s[..i][m]); }
    }
    assert Seqs.IndexOf(s, '@') == i;
    var domain := s[i + 1..];
    forall k | 0 <= k < |domain| ensures AddressChar(domain[k]) {
      if k < j - i - 1 {
        assert domain[k] == s[i + 1..j][k];
      } else if k > j - i - 1 {
        assert domain[k] == s[j + 1..][k - (j - i)];
      }
    }
    assert domain[j - i - 1] == '.';
  }

  /** The decision procedure accepts exactly the strings the pattern matches. */
  lemma EmailPattern(s: string)
    ensures IsValidEmail(s) <==> MatchesEmailPattern(s)
  {
    if IsValidEmail(s) {
      EmailPatternSound(s);
    }
    if MatchesEmailPattern(s) {
      var i, j :| 0 < i && i + 1 < j && j + 1 < |s| && s[i] == '@' && s[j] == '.'
                  && Run(s[..i]) && Run(s[i + 1..j]) && Run(s[j + 1..]);
      EmailPatternComplete(s, i, j);
    }
  }

  /** An address the check accepts has no whitespace and exactly one `@`, with something before it. */
  lemma EmailShape(s: string)
    requires IsValidEmail(s)
    ensures forall i :: 0 <= i < |s| ==> !Text.IsSpace(s[i])
    ensures multiset(s)['@'] == 1
    ensures s[0] != '@'
  {
    var at := Seqs.IndexOf(s, '@');
    var local, domain := s[..at], s[at + 1..];
    assert s == local + [s[at]] + domain;
    assert '@' !in domain by {
      forall k | 0 <= k < |domain| ensures domain[k] != '@' { assert AddressChar(domain[k]); }
    }
    forall i | 0 <= i < |s| ensures !Text.IsSpace(s[i]) {
      if i < at {
        assert s[i] == local[i];
      } else if i > at {
        assert s[i] == domain[i - at - 1];
      }
    }
    assert s[0] == local[0];
  }

  // ----- field validation -----

  /** What `validateField` decides: whether the field is valid and the message shown when it is not. */
  datatype FieldCheck = FieldCheck(isValid: bool, message: string)

  const RequiredMessage := "This field is required"
  const InvalidEmailMessage := "Please enter a valid email address"
  const ShortPasswordMessage := "Password must be at least 6 characters"

  /** `validateField` for a field with raw value `raw`, input type `fieldType` and `required` attribute `required`. */
  function ValidateField(raw: string, fieldType: string, required: bool): (v: FieldCheck)
    ensures v.isValid <==> v.message == ""
  {
    var value := Text.Trim(raw);
    if required && value == "" then FieldCheck(false, RequiredMessage)
    else if fieldType == "email" && value != "" && !IsValidEmail(value) then FieldCheck(false, InvalidEmailMessage)
    else if fieldType == "password" && value != "" && Text.Utf16Length(value) < 6 then FieldCheck(false, ShortPasswordMessage)
    else FieldCheck(true, "")
  }

  /** A required field holding only whitespace is rejected as missing, whatever its type. */
  lemma RequiredBlankRejected(raw: string, fieldType: string)
    requires forall i :: 0 <= i < |raw| ==> Text.IsSpace(raw[i])
    ensures ValidateField(raw, fieldType, true) == FieldCheck(false, RequiredMessage)
  {
  }

  /** A blank field that is not required is valid, whatever its type. */
  lemma OptionalBlankAccepted(raw: string, fieldType: string)
    requires forall i :: 0 <= i < |raw| ==> Text.IsSpace(raw[i])
    ensures ValidateField(raw, fieldType, false).isValid
  {
  }

  /** A filled e-mail field is valid exactly when its trimmed value matches the e-mail pattern. */
  lemma EmailFieldRule(raw: string, required: bool)
    requires Text.Trim(raw) != ""
    ensures ValidateField(raw, "email", required).isValid <==> MatchesEmailPattern(Text.Trim(raw))
    ensures !ValidateField(raw, "email", required).isValid ==>
      ValidateField(raw, "email", required).message == InvalidEmailMessage
  {
    EmailPattern(Text.Trim(raw));
  }

  /** A filled password field is valid exactly when its trimmed value has at least 6 UTF-16 code units. */
  lemma PasswordFieldRule(raw: string, required: bool)
    requires Text.Trim(raw) != ""
    ensures ValidateField(raw, "password", required).isValid <==> Text.Utf16Length(Text.Trim(raw)) >= 6
  {
  }

  /** A filled field of any other type is always valid. */
  lemma OtherFieldsValid(raw: string, fieldType: string, required: bool)
    requires fieldType != "email" && fieldType != "password" && Text.Trim(raw) != ""
    ensures ValidateField(raw, fieldType, required) == FieldCheck(true, "")
  {
  }

  // ----- navigation -----

  datatype NavLink = NavLink(href: string, text: string)

  /** An entry of the link table with its `show` flag. */
  datatype NavEntry = NavEntry(link: NavLink, show: bool)

  const ProfileLink := NavLink("/profile", "👤 Profile")
  const PostsLink := NavLink("/post", "📝 Posts")
  const UploadLink := NavLink("/profile/upload", "📷 Upload")
  const LogoutLink := NavLink("/logout", "🚪 Logout")

  /** The pages on which no navigation is built: signup and login. */
  const AuthPages: seq<string> := ["/", "/login"]

  /** The link table of `createNavigation` for the current path. */
  function NavTable(currentPath: string): (t: seq<NavEntry>)
    ensures |t| == 4 && t[3] == NavEntry(LogoutLink, true)
    ensures forall i :: 0 <= i < 3 ==> (t[i].show <==> t[i].link.href != currentPath)
  {
    [ NavEntry(ProfileLink, currentPath != "/profile"),
      NavEntry(PostsLink, currentPath != "/post"),
      NavEntry(UploadLink, currentPath != "/profile/upload"),
      NavEntry(LogoutLink, true) ]
  }

  /** The links of the entries that are shown, in table order. */
  function Shown(entries: seq<NavEntry>): seq<NavLink> {
    if entries == [] then []
    else
      var last := entries[|entries| - 1];
      Shown(entries[..|entries| - 1]) + (if last.show then [last.link] else [])
  }

  lemma ShownAppend(entries: seq<NavEntry>, e: NavEntry)
    ensures Shown(entries + [e]) == Shown(entries) + (if e.show then [e.link] else [])
  {
    assert (entries + [e])[..|entries|] == entries;
  }

  /** `createNavigation`: appends a link for every shown entry of the table. */
  method CreateNavigation(currentPath: string) returns (links: seq<NavLink>)
    ensures links == Shown(NavTable(currentPath))
  {
    var table := NavTable(currentPath);
    links := [];
    for i := 0 to |table|
      invariant links == Shown(table[..i])
    {
      assert table[..i + 1][..i] == table[..i];
      if table[i].show {
        links := links + [table[i].link];
      }
    }
    assert table[..|table|] == table;
  }

  /** The navigation: Profile, Posts and Upload unless they are the current page, then always Logout. */
  lemma NavigationLinks(currentPath: string)
    ensures Shown(NavTable(currentPath)) ==
      (if currentPath != "/profile" then [ProfileLink] else [])
      + (if currentPath != "/post" then [PostsLink] else [])
      + (if currentPath != "/profile/upload" then [UploadLink] else [])
      + [LogoutLink]
  {
    var t := NavTable(currentPath);
    ShownAppend([], t[0]);
    assert [] + [t[0]] == [t[0]];
    ShownAppend([t[0]], t[1]);
    assert [t[0]] + [t[1]] == [t[0], t[1]];
    ShownAppend([t[0], t[1]], t[2]);
    assert [t[0], t[1]] + [t[2]] == [t[0], t[1], t[2]];
    ShownAppend([t[0], t[1], t[2]], t[3]);
    assert [t[0], t[1], t[2]] + [t[3]] == t;
  }

  /** Every link but Logout leads away from the current page, and Logout is always the last link. */
  lemma NavigationLeavesPage(currentPath: string)
    ensures var links := Shown(NavTable(currentPath));
      && links != [] && links[|links| - 1] == LogoutLink
      && forall l :: l in links && l != LogoutLink ==> l.href != currentPath
  {
    NavigationLinks(currentPath);
  }

  /** `enhanceNavigation`: no navigation on the signup and login pages, the table's links elsewhere. */
  method EnhanceNavigation(pagePath: string) returns (nav: Option<seq<NavLink>>)
    ensures nav.None? <==> pagePath in AuthPages
    ensures nav.Some? ==> nav.value == Shown(NavTable(pagePath))
  {
    if pagePath in AuthPages {
      return None;
    }
    var links := CreateNavigation(pagePath);
    nav := Some(links);
  }
}
