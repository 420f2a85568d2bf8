/** The page frame every signed-in page shares: the logout that keeps only the remembered
    credentials, the highlighting of the menu entry of the current page, and the initial
    shown in the header. */
module Main {
  import opened Common
  import opened Entities
  import opened Storage
  import opened SignUp
  import opened Login

  // ---------------------------------------------------------------- logout

  /** Local storage after `logout`: with remember-me "true" the two tokens and the flag
      (a missing token is written back as the text "null"), with "false" the email token
      alone, and otherwise nothing. */
  function AfterLogout(items: map<string, string>): (r: map<string, string>)
    ensures "guestLoggedIn" !in r
    ensures Lookup(items, "rememberMe") == Some("true") ==>
              r.Keys == {"emailToken", "passwordToken", "rememberMe"} && r["rememberMe"] == "true"
              && r["emailToken"] == JsText(Lookup(items, "emailToken"))
              && r["passwordToken"] == JsText(Lookup(items, "passwordToken"))
    ensures Lookup(items, "rememberMe") == Some("false") ==>
              r.Keys == {"emailToken"} && r["emailToken"] == JsText(Lookup(items, "emailToken"))
    ensures Lookup(items, "rememberMe") != Some("true") && Lookup(items, "rememberMe") != Some("false") ==>
              r == map[]
  {
    var emailToken := JsText(Lookup(items, "emailToken"));
    var passwordToken := JsText(Lookup(items, "passwordToken"));
    var rememberMe := Lookup(items, "rememberMe");
    if rememberMe == Some("true") then
      map["emailToken" := emailToken, "passwordToken" := passwordToken, "rememberMe" := "true"]
    else if rememberMe == Some("false") then
      map["emailToken" := emailToken]
    else map[]
  }

  /** `logout`: reads the three keys, clears local storage and writes back what is kept. */
  method Logout(ls: LocalStorage)
    modifies ls
    ensures ls.items == AfterLogout(old(ls.items))
  {
    var emailToken := ls.GetItem("emailToken");
    var passwordToken := ls.GetItem("passwordToken");
    var rememberMe := ls.GetItem("rememberMe");
    ls.Clear();
    if rememberMe == Some("true") {
      ls.SetItem("emailToken", JsText(emailToken));
      ls.SetItem("passwordToken", JsText(passwordToken));
      ls.SetItem("rememberMe", "true");
    } else if rememberMe == Some("false") {
      ls.SetItem("emailToken", JsText(emailToken));
    }
  }

  /** Remembered credentials survive a logout unchanged. */
  lemma LogoutKeepsSavedCredentials(items: map<string, string>, codec: Codec)
    requires SavedCredentials(items, codec).Some?
    ensures SavedCredentials(AfterLogout(items), codec) == SavedCredentials(items, codec)
  {
    var r := AfterLogout(items);
    assert r["emailToken"] == items["emailToken"] && r["passwordToken"] == items["passwordToken"];
  }

  /** Login then logout: remembered, the next visit of the login page fills in what was
      typed; not remembered, only the encoded email is left. */
  lemma LoginThenLogout(items: map<string, string>, email: string, password: string, codec: Codec)
    requires RoundTrips(codec)
    requires codec.encode(email) != "" && codec.encode(password) != ""
    ensures SavedCredentials(AfterLogout(StoredAfterLogin(items, email, password, true, codec)), codec)
            == Some((email, password))
    ensures AfterLogout(StoredAfterLogin(items, email, password, false, codec))
            == map["emailToken" := codec.encode(email)]
  {
    RememberedLoginRefills(items, email, password, codec);
    LogoutKeepsSavedCredentials(StoredAfterLogin(items, email, password, true, codec), codec);
    var r := AfterLogout(StoredAfterLogin(items, email, password, false, codec));
    assert r.Keys == {"emailToken"};
  }

  /** A second logout keeps a remembered session as it is, but forgets the email token
      the first one kept without remember-me, since the flag is gone by then. */
  lemma SecondLogout(items: map<string, string>)
    ensures Lookup(items, "rememberMe") == Some("true") ==> AfterLogout(AfterLogout(items)) == AfterLogout(items)
    ensures Lookup(items, "rememberMe") != Some("true") ==> AfterLogout(AfterLogout(items)) == map[]
  {
    var once := AfterLogout(items);
    if Lookup(items, "rememberMe") == Some("true") {
      var twice := AfterLogout(once);
      assert Lookup(once, "rememberMe") == Some("true");
      assert twice.Keys == once.Keys;
    } else {
      assert Lookup(once, "rememberMe") == None;
    }
  }

  // ---------------------------------------------------------------- menu highlighting

  /** A page of `pagesArray`: its path, the ids of its menu links, and the id of the link
      of the sibling legal page that must not look active. */
  datatype Page = Page(path: string, classes: seq<string>, exclusive: Option<string>)

  const PAGES: seq<Page> := [
    Page("/summary.html", ["summaryLink", "summaryLinkDesktop", "summaryDesktopIcon"], None),
    Page("/greeting.html", ["summaryLink", "summaryLinkDesktop", "summaryDesktopIcon"], None),
    Page("/addTask.html", ["addTaskLink", "addTaskLinkDesktop", "addTaskDesktopIcon"], None),
    Page("/board.html", ["boardLink", "boardLinkDesktop", "boardDesktopIcon"], None),
    Page("/contacts.html", ["contactsLink", "contactsLinkDesktop", "contactsDesktopIcon"], None),
    Page("/privacyPolice.html", ["privacyLink"], Some("legalLink")),
    Page("/legalNotice.html", ["legalLink"], Some("privacyLink"))
  ]

  /** The first page whose path is the current one. */
  function CurrentPage(pages: seq<Page>, path: string): (r: Option<Page>)
    ensures r.None? <==> forall i :: 0 <= i < |pages| ==> pages[i].path != path
    ensures r.Some? ==> exists k :: 0 <= k < |pages| && pages[k] == r.value && r.value.path == path
                                    && forall j :: 0 <= j < k ==> pages[j].path != path
  {
    match FindFirst(pages, (p: Page) => p.path == path)
    case Some(k) => Some(pages[k])
    case None => None
  }

  /** The link that loses `active`: that of the first page with the current path and a
      non-empty `exclusive`. */
  function Sibling(pages: seq<Page>, path: string): (r: Option<string>)
    ensures r.Some? ==> r.value != "" && exists i :: 0 <= i < |pages| && pages[i].path == path && pages[i].exclusive == r
    ensures r.None? <==> forall i :: 0 <= i < |pages| && pages[i].path == path ==> !Truthy(pages[i].exclusive)
  {
    match FindFirst(pages, (p: Page) => Truthy(p.exclusive) && p.path == path)
    case Some(k) => pages[k].exclusive
    case None => None
  }

  /** The classes a present menu link of the current page gets: `active`, plus
      `activeDesktop` for an id ending in "Desktop", plus `activeDesktopIcon` and the text
      before "Desktop" for an id ending in "Icon". */
  function ActiveClasses(id: string): (r: set<string>)
    ensures "active" in r
    ensures "activeDesktop" in r <==> EndsWith(id, "Desktop")
    ensures EndsWith(id, "Icon") ==> "activeDesktopIcon" + PrefixBefore(id, "Desktop") in r
    ensures forall c :: c in r ==> c == "active" || c == "activeDesktop"
                                    || (EndsWith(id, "Icon") && c == "activeDesktopIcon" + PrefixBefore(id, "Desktop"))
  {
    var icon := "activeDesktopIcon" + PrefixBefore(id, "Desktop");
    assert icon != "activeDesktop" by { assert |icon| > |"activeDesktop"|; }
    {"active"} + (if EndsWith(id, "Desktop") then {"activeDesktop"} else {})
    + (if EndsWith(id, "Icon") then {icon} else {})
  }

  /** The class list of each present menu element after `menuActive`. */
  function MenuAfter(m: map<string, set<string>>, pages: seq<Page>, path: string): (r: map<string, set<string>>)
    ensures r.Keys == m.Keys
    ensures CurrentPage(pages, path).None? ==> r == m
    ensures forall e :: e in m ==> m[e] - {"active"} <= r[e]
    ensures CurrentPage(pages, path).Some? ==>
              var page := CurrentPage(pages, path).value;
              (forall e :: e in m && e in page.classes && Sibling(pages, path) != Some(e) ==> r[e] == m[e] + ActiveClasses(e))
              && (forall e :: e in m && e !in page.classes ==>
                    r[e] == m[e] - (if Sibling(pages, path) == Some(e) then {"active"} else {}))
              && (forall e :: e in m && Sibling(pages, path) == Some(e) ==> "active" !in r[e])
  {
    match CurrentPage(pages, path)
    case None => m
    case Some(page) =>
      var sibling := Sibling(pages, path);
      map e | e in m :: (m[e] + (if e in page.classes then ActiveClasses(e) else {}))
                        - (if sibling == Some(e) then {"active"} else {})
  }

  /** A map with the keys of `m` and, at each key, the classes `menuActive` leaves there
      is the map `MenuAfter` describes. */
  lemma MenuAfterOf(m: map<string, set<string>>, pages: seq<Page>, path: string, r: map<string, set<string>>)
    requires CurrentPage(pages, path).Some? && r.Keys == m.Keys
    requires forall e :: e in m ==>
               r[e] == (m[e] + (if e in CurrentPage(pages, path).value.classes then ActiveClasses(e) else {}))
                       - (if Sibling(pages, path) == Some(e) then {"active"} else {})
    ensures r == MenuAfter(m, pages, path)
  {
  }

  /** Highlighting twice is highlighting once. */
  lemma MenuAfterIdempotent(m: map<string, set<string>>, pages: seq<Page>, path: string)
    ensures MenuAfter(MenuAfter(m, pages, path), pages, path) == MenuAfter(m, pages, path)
  {
    var once := MenuAfter(m, pages, path);
    var twice := MenuAfter(once, pages, path);
    if CurrentPage(pages, path).Some? {
      var page := CurrentPage(pages, path).value;
      forall e | e in m ensures twice[e] == once[e] {
        AddRemoveTwice(m[e], if e in page.classes then ActiveClasses(e) else {},
                       if Sibling(pages, path) == Some(e) then {"active"} else {});
      }
      assert twice.Keys == once.Keys;
    }
  }

  /** Adding and then removing the same classes a second time changes nothing. */
  lemma AddRemoveTwice(x: set<string>, add: set<string>, remove: set<string>)
    ensures ((x + add) - remove + add) - remove == (x + add) - remove
  {
  }

  /** A page that is the only one with its path is the current page, and its own
      `exclusive` link is the sibling. */
  lemma UniquePage(pages: seq<Page>, path: string, k: nat)
    requires k < |pages| && pages[k].path == path
    requires forall i :: 0 <= i < |pages| && i != k ==> pages[i].path != path
    ensures CurrentPage(pages, path) == Some(pages[k])
    ensures Truthy(pages[k].exclusive) ==> Sibling(pages, path) == pages[k].exclusive
  {
  }

  /** The privacy page is the only page with its path, and it switches off the
      legal-notice link. */
  lemma PrivacyPageLookup(pages: seq<Page>)
    requires pages == PAGES
    ensures CurrentPage(pages, "/privacyPolice.html") == Some(pages[5])
    ensures Sibling(pages, "/privacyPolice.html") == Some("legalLink")
  {
    var path := "/privacyPolice.html";
    assert forall i :: 0 <= i < |pages| && i != 5 ==> |pages[i].path| != |path|;
    UniquePage(pages, path, 5);
  }

  /** The legal-notice page is the only page with its path, and it switches off the
      privacy link. */
  lemma LegalNoticeLookup(pages: seq<Page>)
    requires pages == PAGES
    ensures CurrentPage(pages, "/legalNotice.html") == Some(pages[6])
    ensures Sibling(pages, "/legalNotice.html") == Some("privacyLink")
  {
    var path := "/legalNotice.html";
    assert forall i :: 0 <= i < |pages| && i != 6 ==> |pages[i].path| != |path|;
    assert Truthy(pages[6].exclusive) && pages[6].exclusive == Some("privacyLink");
    UniquePage(pages, path, 6);
  }

  /** A link whose id ends in neither "Desktop" nor "Icon" only gets `active`. */
  lemma PlainLinkClasses(id: string)
    requires !EndsWith(id, "Desktop") && !EndsWith(id, "Icon")
    ensures ActiveClasses(id) == {"active"}
  {
  }

  /** The text before the first occurrence of a separator, found from where it starts. */
  lemma PrefixBeforeFirst(s: string, sep: string, k: nat)
    requires sep != [] && OccursAt(s, sep, k)
    requires forall i :: 0 <= i < k ==> s[i] != sep[0]
    ensures PrefixBefore(s, sep) == s[..k]
  {
    var r := PrefixBefore(s, sep);
    assert |r| <= k;
    assert s[k..k + |sep|][0] == s[k];
    if |r| < |s| {
      assert s[|r|..|r| + |sep|][0] == s[|r|];
    }
    assert |r| == k;
  }

  /** An icon entry "<name>DesktopIcon" gets `active` and the icon class named after
      `<name>`, and not `activeDesktop`. */
  lemma IconClasses(name: string)
    requires 'D' !in name
    ensures ActiveClasses(name + "DesktopIcon") == {"active", "activeDesktopIcon" + name}
  {
    var s := name + "DesktopIcon";
    var k := |name|;
    IconIdShape(name);
    PrefixBeforeFirst(s, "Desktop", k);
    assert s[..k] == name;
  }

  /** "<name>DesktopIcon" ends in "Icon", not in "Desktop", and holds "Desktop" right after
      the name. */
  lemma IconIdShape(name: string)
    requires 'D' !in name
    ensures EndsWith(name + "DesktopIcon", "Icon")
    ensures !EndsWith(name + "DesktopIcon", "Desktop")
    ensures OccursAt(name + "DesktopIcon", "Desktop", |name|)
    ensures forall i :: 0 <= i < |name| ==> (name + "DesktopIcon")[i] != 'D'
  {
    var s := name + "DesktopIcon";
    var k := |name|;
    assert s[k..] == "DesktopIcon";
    assert s[k..k + 7] == "Desktop";
    assert s[|s| - 4..] == "Icon";
    assert s[|s| - 7] == 't';
  }

  /** The menu of a page: the class list of each element present. */
  class NavMenu {
    var classes: map<string, set<string>>

    constructor(classes: map<string, set<string>>)
      ensures this.classes == classes
    {
      this.classes := classes;
    }

    /** `menuActive` over the pages of `pagesArray` (`PAGES`): adds the classes of each
        present link of the current page, then takes `active` away from the sibling link. */
    method MenuActive(pages: seq<Page>, path: string)
      modifies this
      ensures classes == MenuAfter(old(classes), pages, path)
    {
      var page := CurrentPage(pages, path);
      if page.None? {
        return;
      }
      var before := classes;
      var after := AddActiveClasses(before, page.value.classes);
      var sibling := Sibling(pages, path);
      if sibling.Some? && sibling.value in after {
        after := after[sibling.value := after[sibling.value] - {"active"}];
      }
      MenuAfterOf(before, pages, path, after);
      classes := after;
    }
  }

  /** The loop of `menuActive` over the current page's links: each link present gets its
      active classes. */
  method AddActiveClasses(before: map<string, set<string>>, ids: seq<string>) returns (after: map<string, set<string>>)
    ensures after.Keys == before.Keys
    ensures forall e :: e in after ==> after[e] == before[e] + (if e in ids then ActiveClasses(e) else {})
  {
    after := before;
    for i := 0 to |ids|
      invariant after.Keys == before.Keys
      invariant forall e :: e in after ==> after[e] == before[e] + (if e in ids[..i] then ActiveClasses(e) else {})
    {
      assert forall e :: e in ids[..i + 1] <==> e in ids[..i] || e == ids[i] by {
        assert ids[..i + 1] == ids[..i] + [ids[i]];
      }
      var id := ids[i];
      if id in after {
        after := after[id := after[id] + ActiveClasses(id)];
      }
    }
    assert ids[..|ids|] == ids;
  }

  // ---------------------------------------------------------------- profile initial

  /** The header's profile initial after `loadUserInitial`: "G" for a guest, otherwise the
      initials of the first user with the decoded email, and otherwise what it showed. */
  function ProfileInitial(users: seq<User>, items: map<string, string>, codec: Codec, shown: string): (r: string)
    ensures Lookup(items, "guestLoggedIn") == Some("true") ==> r == "G"
    ensures Lookup(items, "guestLoggedIn") != Some("true") ==>
              var found := FindUserByEmail(users, codec.decode(JsText(Lookup(items, "emailToken"))));
              (found.Some? ==> r == found.value.initials) && (found.None? ==> r == shown)
  {
    var user := FindUserByEmail(users, codec.decode(JsText(Lookup(items, "emailToken"))));
    if Lookup(items, "guestLoggedIn") == Some("true") then "G"
    else if user.Some? then user.value.initials
    else shown
  }

  /** The initials shown belong to the account whose id the other pages resolve. */
  lemma InitialOfResolvedUser(users: seq<User>, items: map<string, string>, codec: Codec, shown: string)
    requires Lookup(items, "guestLoggedIn") != Some("true")
    requires ResolveUserId(users, items, codec).Some?
    ensures exists k :: 0 <= k < |users| && Some(users[k].id) == ResolveUserId(users, items, codec)
                        && users[k].initials == ProfileInitial(users, items, codec, shown)
  {
    var email := codec.decode(JsText(Lookup(items, "emailToken")));
    var k := FindFirst(users, (u: User) => u.email == email).value;
    assert FindUserByEmail(users, email) == Some(users[k]);
  }

  /** Right after a user signs up and logs in, the header shows the initials computed from
      the name typed at sign-up. */
  lemma NewAccountShowsItsInitials(server: Server, key: string, name: string, email: string,
                                   password: string, items: map<string, string>, rememberMe: bool,
                                   codec: Codec, shown: string)
    requires RoundTrips(codec)
    requires SignUpRequest(Some(server), name, email, password, password).Some?
    requires Lookup(items, "guestLoggedIn") != Some("true")
    ensures var users := Keyed(server.users + [(key, NewUser(name, email, password))], UserWithId);
            ProfileInitial(users, StoredAfterLogin(items, email, password, rememberMe, codec), codec, shown)
            == GetInitials(name)
  {
    assert forall j :: 0 <= j < |server.users| ==> server.users[j].1.email != email;
    NewUserFound(server.users, key, NewUser(name, email, password));
    var after := StoredAfterLogin(items, email, password, rememberMe, codec);
    assert codec.decode(JsText(Lookup(after, "emailToken"))) == email;
  }

  /** An account added under a new e-mail is the one found by that e-mail. */
  lemma NewUserFound(entries: seq<(string, User)>, key: string, u: User)
    requires forall j :: 0 <= j < |entries| ==> entries[j].1.email != u.email
    ensures FindUserByEmail(Keyed(entries + [(key, u)], UserWithId), u.email) == Some(u.(id := key))
  {
    var users := Keyed(entries + [(key, u)], UserWithId);
    var n := |entries|;
    assert forall j :: 0 <= j < n ==> users[j].email == entries[j].1.email;
    assert users[n] == u.(id := key);
    var found := FindUserByEmail(users, u.email);
    assert found.Some? by { assert users[n] in users; }
    assert found.value == users[n];
  }
}
