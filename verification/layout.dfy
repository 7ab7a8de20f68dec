/** The page frame (`Layout`): sidebar navigation, the highlighted sidebar
    entry, and the avatar initial and user name shown above it. */
module Layout {
  import opened Options
  import opened Seqs
  import opened Text
  import opened Storage

  /** The sidebar entries, top to bottom. */
  const SidebarPages: seq<string> :=
    ["Dashboard", "Add Tasks", "Completed Tasks", "Trash", "Profile", "Settings"]

  /** `handleNavigation(page)`: "Profile" goes to "/profile"; any other name
      becomes "/" followed by the lower-cased name with its first space
      turned into "-". */
  function NavPath(page: string): (r: string)
    ensures page == "Profile" ==> r == "/profile"
    ensures page != "Profile" ==> |r| == |page| + 1 && r[0] == '/'
  {
    if page == "Profile" then "/profile"
    else "/" + ReplaceFirst(Lower(page), ' ', '-')
  }

  /** Character by character, the path of a name other than "Profile" is
      the lower-cased name behind a "/", with its first space (the one at
      `IndexOf(page, ' ')`) turned into "-". */
  lemma NavPathChars(page: string)
    requires page != "Profile"
    ensures var r := NavPath(page);
            var k := IndexOf(page, ' ');
            && (forall i :: 0 <= i < |page| && i != k ==> r[i + 1] == LowerChar(page[i]))
            && (k < |page| ==> r[k + 1] == '-')
  {
    var r := NavPath(page);
    var l := Lower(page);
    var m := ReplaceFirst(l, ' ', '-');
    var k := IndexOf(page, ' ');
    LowerKeepsIndexOf(page, ' ');
    assert r == "/" + m;
    forall i | 0 <= i < |page| && i != k
      ensures r[i + 1] == LowerChar(page[i])
    {
      assert r[i + 1] == m[i];
      assert m[i] == l[i];
    }
    if k < |page| {
      assert r[k + 1] == m[k];
    }
  }

  /** The path of a name other than "Profile", given where its first space
      is (`k`, or `|page|` for none) and the expected text. */
  lemma NavPathIs(page: string, k: nat, expected: string)
    requires page != "Profile"
    requires k <= |page| && (k < |page| ==> page[k] == ' ')
    requires forall j :: 0 <= j < k ==> page[j] != ' '
    requires |expected| == |page| + 1 && expected[0] == '/'
    requires forall i :: 0 <= i < |page| && i != k ==> expected[i + 1] == LowerChar(page[i])
    requires k < |page| ==> expected[k + 1] == '-'
    ensures NavPath(page) == expected
  {
    var r := NavPath(page);
    NavPathChars(page);
    IndexOfUnique(page, ' ', k);
    forall i | 0 <= i < |r|
      ensures r[i] == expected[i]
    {
      if i > 0 && i - 1 != k {
        assert r[i] == LowerChar(page[i - 1]);
      }
    }
  }

  /** An example of first-occurrence replacement: a name with two spaces
      keeps the second one in its path. */
  lemma OnlyFirstSpaceReplaced()
    ensures NavPath("My Old Tasks") == "/my-old tasks"
  {
    NavPathIs("My Old Tasks", 2, "/my-old tasks");
  }

  /** The routes the sidebar buttons lead to, top to bottom. */
  const SidebarRoutes: seq<string> :=
    ["/dashboard", "/add-tasks", "/completed-tasks", "/trash", "/profile", "/settings"]

  /** Each sidebar button navigates to its route. */
  lemma SidebarNavigation(i: nat)
    requires i < |SidebarPages|
    ensures NavPath(SidebarPages[i]) == SidebarRoutes[i]
  {
    var page := SidebarPages[i];
    match i
    case 0 => NavPathIs(page, 9, "/dashboard");
    case 1 => NavPathIs(page, 3, "/add-tasks");
    case 2 => NavPathIs(page, 9, "/completed-tasks");
    case 3 => NavPathIs(page, 5, "/trash");
    case 4 =>
    case 5 => NavPathIs(page, 8, "/settings");
  }

  /** `getButtonStyle(pageName)` highlights the entry of the current
      page. */
  predicate IsHighlighted(currentPage: string, pageName: string) {
    currentPage == pageName
  }

  /** The sidebar entries drawn highlighted. */
  function HighlightedEntries(currentPage: string): seq<string> {
    Filter(SidebarPages, (p: string) => IsHighlighted(currentPage, p))
  }

  predicate Distinct(s: seq<string>) {
    forall i, j :: 0 <= i < j < |s| ==> s[i] != s[j]
  }

  /** In a list without repeats exactly one entry equals a member, and none
      equals a non-member. */
  lemma {:induction false} FilterEqualDistinct(s: seq<string>, c: string)
    requires Distinct(s)
    ensures |Filter(s, (p: string) => IsHighlighted(c, p))| == if c in s then 1 else 0
    decreases |s|
  {
    if |s| > 0 {
      FilterEqualDistinct(s[1..], c);
      assert c == s[0] ==> c !in s[1..];
    }
  }

  /** Exactly one sidebar entry is highlighted when the current page is
      one of the sidebar's names, and none otherwise. */
  lemma OneHighlightedEntry(currentPage: string)
    ensures |HighlightedEntries(currentPage)| == if currentPage in SidebarPages then 1 else 0
  {
    FilterEqualDistinct(SidebarPages, currentPage);
  }

  /** The avatar's fallback text: the first letter of the first name when
      there is one, else the upper-cased first letter of the user name,
      else nothing. */
  function AvatarInitial(user: Option<User>): (r: string)
    ensures user.None? ==> r == ""
    ensures user.Some? && user.value.firstName.Some? && user.value.firstName.value != "" ==>
              r == [user.value.firstName.value[0]]
    ensures user.Some? && !(user.value.firstName.Some? && user.value.firstName.value != "") ==>
              r == (if user.value.username == "" then "" else [UpperChar(user.value.username[0])])
  {
    match user
    case None => ""
    case Some(u) =>
      if u.firstName.Some? && u.firstName.value != "" then [u.firstName.value[0]]
      else if u.username != "" then [UpperChar(u.username[0])]
      else ""
  }

  /** The user name under the avatar: its first character upper-cased, the
      rest as stored; nothing without a user or name. */
  function DisplayUsername(user: Option<User>): (r: string)
    ensures user.None? || user.value.username == "" ==> r == ""
    ensures user.Some? && user.value.username != "" ==>
              var name := user.value.username;
              |r| == |name| && r[0] == UpperChar(name[0]) && r[1..] == name[1..]
  {
    if user.Some? && user.value.username != "" then
      var name := user.value.username;
      [UpperChar(name[0])] + name[1..]
    else ""
  }

  /** Without a first name, the avatar shows the first character of the
      name displayed under it. */
  lemma AvatarMatchesDisplayedName(u: User)
    requires !(u.firstName.Some? && u.firstName.value != "")
    ensures AvatarInitial(Some(u)) == DisplayUsername(Some(u))[..if u.username == "" then 0 else 1]
  {
  }

  /** Capitalising never changes a name beyond letter case. */
  lemma DisplayUsernameSameIgnoringCase(u: User)
    ensures Lower(DisplayUsername(Some(u))) == Lower(u.username)
  {
    if u.username != "" {
      var r := DisplayUsername(Some(u));
      assert LowerChar(UpperChar(u.username[0])) == LowerChar(u.username[0]);
      assert forall i :: 0 <= i < |r| ==> Lower(r)[i] == Lower(u.username)[i];
    }
  }
}
