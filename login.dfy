/** The login page: the checks on the two inputs, the search for a user with both
    credentials, the keys a successful login leaves in local storage, the guest login,
    and the credentials the page fills in again when it was asked to remember them. */
module Login {
  import opened Common
  import opened Entities
  import opened Storage
  import opened SignUp

  const EMAIL_LABEL := "loginLabelEmail"
  const PASSWORD_LABEL := "loginLabelPassword"
  const EMAIL_SPAN := "emailErrorSpan"
  const PASSWORD_SPAN := "passwordErrorSpan"
  const CREDENTIALS_SPAN := "passwordAndMailErrorSpan"
  const ENTER_EMAIL := "Please enter your email address!"
  const ENTER_PASSWORD := "Please enter your password!"
  const WRONG_CREDENTIALS := "Please enter your correct email address and password!"

  /** Which branch of `login` ran. */
  datatype Outcome = MissingBoth | MissingPassword | MissingEmail | NoMatch | LoggedIn(user: User)

  predicate Matches(u: User, email: string, password: string)
  {
    u.email == email && u.password == password
  }

  /** The branches of `login`: the empty-input checks come first and fetch nothing; with
      both inputs given, the first user with exactly that email and that password logs in. */
  function CheckCredentials(users: seq<User>, email: string, password: string): (r: Outcome)
    ensures r == MissingBoth <==> email == "" && password == ""
    ensures r == MissingPassword <==> email != "" && password == ""
    ensures r == MissingEmail <==> email == "" && password != ""
    ensures r == NoMatch <==> email != "" && password != "" && forall u :: u in users ==> !Matches(u, email, password)
    ensures r.LoggedIn? ==> exists k :: 0 <= k < |users| && users[k] == r.user && Matches(users[k], email, password)
                                        && forall j :: 0 <= j < k ==> !Matches(users[j], email, password)
  {
    if email == "" && password == "" then MissingBoth
    else if password == "" then MissingPassword
    else if email == "" then MissingEmail
    else
      match FindFirst(users, (u: User) => Matches(u, email, password))
      case Some(k) => LoggedIn(users[k])
      case None => NoMatch
  }

  /** Local storage after a successful login: the encoded email always; with remember-me
      the encoded password and "true", without it no password and "false". */
  function StoredAfterLogin(items: map<string, string>, email: string, password: string,
                            rememberMe: bool, codec: Codec): (r: map<string, string>)
    ensures Lookup(r, "emailToken") == Some(codec.encode(email))
    ensures Lookup(r, "rememberMe") == Some(if rememberMe then "true" else "false")
    ensures Lookup(r, "passwordToken") == (if rememberMe then Some(codec.encode(password)) else None)
    ensures forall key :: key != "emailToken" && key != "rememberMe" && key != "passwordToken" ==>
              Lookup(r, key) == Lookup(items, key)
  {
    var withEmail := items["emailToken" := codec.encode(email)];
    if rememberMe then withEmail["rememberMe" := "true"]["passwordToken" := codec.encode(password)]
    else (withEmail - {"passwordToken"})["rememberMe" := "false"]
  }

  /** `displayUserEmailPassword`: the decoded email and password the form is filled with,
      only when remember-me is "true" and both tokens are present and non-empty. */
  function SavedCredentials(items: map<string, string>, codec: Codec): (r: Option<(string, string)>)
    ensures r.Some? <==> Lookup(items, "rememberMe") == Some("true")
                         && Truthy(Lookup(items, "emailToken")) && Truthy(Lookup(items, "passwordToken"))
    ensures r.Some? ==> r.value == (codec.decode(items["emailToken"]), codec.decode(items["passwordToken"]))
  {
    if Lookup(items, "rememberMe") == Some("true") && Truthy(Lookup(items, "emailToken"))
       && Truthy(Lookup(items, "passwordToken"))
    then Some((codec.decode(items["emailToken"]), codec.decode(items["passwordToken"])))
    else None
  }

  /** A remembered login fills the form with exactly what was typed; an unremembered one
      leaves the form empty. */
  lemma RememberedLoginRefills(items: map<string, string>, email: string, password: string, codec: Codec)
    requires RoundTrips(codec)
    requires codec.encode(email) != "" && codec.encode(password) != ""
    ensures SavedCredentials(StoredAfterLogin(items, email, password, true, codec), codec) == Some((email, password))
    ensures SavedCredentials(StoredAfterLogin(items, email, password, false, codec), codec).None?
  {
    var r := StoredAfterLogin(items, email, password, true, codec);
    assert r["emailToken"] == codec.encode(email) && r["passwordToken"] == codec.encode(password);
  }

  /** After a login, unless a guest session is still flagged, the account the other pages
      resolve is the first user with the email typed; when emails are distinct, it is the
      very user who logged in. */
  lemma LoginResolvesUser(entries: seq<(string, User)>, items: map<string, string>, email: string,
                          password: string, rememberMe: bool, codec: Codec)
    requires RoundTrips(codec)
    requires Lookup(items, "guestLoggedIn") != Some("true")
    requires CheckCredentials(Keyed(entries, UserWithId), email, password).LoggedIn?
    ensures var users := Keyed(entries, UserWithId);
            var after := StoredAfterLogin(items, email, password, rememberMe, codec);
            ResolveUserId(users, after, codec).Some?
            && (DistinctEmails(entries) ==>
                  ResolveUserId(users, after, codec) == Some(CheckCredentials(users, email, password).user.id))
  {
    var users := Keyed(entries, UserWithId);
    var after := StoredAfterLogin(items, email, password, rememberMe, codec);
    var k :| 0 <= k < |users| && users[k] == CheckCredentials(users, email, password).user
             && Matches(users[k], email, password);
    var typed := codec.decode(JsText(Lookup(after, "emailToken")));
    assert typed == email;
    assert users[k] in users;
    var r := ResolveUserId(users, after, codec);
    if DistinctEmails(entries) {
      var m :| 0 <= m < |users| && users[m].email == typed && users[m].id == r.value;
      KeyedEmailsDistinct(entries, k, m);
    }
  }

  /** Two users read from entries with distinct emails that share an email are the same. */
  lemma KeyedEmailsDistinct(entries: seq<(string, User)>, k: nat, m: nat)
    requires DistinctEmails(entries)
    requires k < |entries| && m < |entries|
    requires Keyed(entries, UserWithId)[k].email == Keyed(entries, UserWithId)[m].email
    ensures k == m
  {
    assert entries[k].1.email == entries[m].1.email;
  }

  /** An account just created by a sign-up can log in with the email and password typed
      there: the match is the new account, since no other user has its email. */
  lemma SignedUpUserLogsIn(server: Server, key: string, name: string, email: string,
                           password: string, confirmPassword: string)
    requires SignUpRequest(Some(server), name, email, password, confirmPassword).Some?
    requires email != "" && password != ""
    ensures var users := Keyed(server.users + [(key, NewUser(name, email, password))], UserWithId);
            CheckCredentials(users, email, password) == LoggedIn(NewUser(name, email, password).(id := key))
  {
    var all := server.users + [(key, NewUser(name, email, password))];
    var users := Keyed(all, UserWithId);
    var n := |server.users|;
    assert forall j :: 0 <= j < n ==> users[j].email == server.users[j].1.email;
    assert forall j :: 0 <= j < n ==> !Matches(users[j], email, password);
    assert Matches(users[n], email, password);
    assert users[n] in users;
    var k :| 0 <= k < |users| && users[k] == CheckCredentials(users, email, password).user
             && Matches(users[k], email, password)
             && forall j :: 0 <= j < k ==> !Matches(users[j], email, password);
    assert k == n;
  }

  /** The login page's error display: the labels marked as erroneous and the text shown
      in each error span. */
  class LoginPage {
    var marked: set<string>
    var messages: map<string, string>

    constructor()
      ensures marked == {} && messages == map[]
    {
      marked := {};
      messages := map[];
    }

    /** `showError`: an empty label id marks both inputs. */
    method ShowError(labelId: string, spanId: string, message: string)
      modifies this
      ensures marked == old(marked) + (if labelId == "" then {EMAIL_LABEL, PASSWORD_LABEL} else {labelId})
      ensures messages == old(messages)[spanId := message]
    {
      if labelId == "" {
        marked := marked + {EMAIL_LABEL, PASSWORD_LABEL};
      } else {
        marked := marked + {labelId};
      }
      messages := messages[spanId := message];
    }

    /** `login`: fetches the users only when both inputs are given; on success writes the
        tokens, otherwise shows the error of its branch and leaves local storage alone. */
    method Login(store: Store, ls: LocalStorage, server: Server, email: string, password: string,
                 rememberMe: bool, codec: Codec) returns (outcome: Outcome)
      modifies this, ls, store`users
      ensures outcome == CheckCredentials(Keyed(server.users, UserWithId), email, password)
      ensures email == "" || password == "" ==> store.users == old(store.users)
      ensures email != "" && password != "" ==> store.users == Keyed(server.users, UserWithId)
      ensures outcome.LoggedIn? ==>
                ls.items == StoredAfterLogin(old(ls.items), email, password, rememberMe, codec)
                && marked == old(marked) && messages == old(messages)
      ensures !outcome.LoggedIn? ==> ls.items == old(ls.items)
      ensures outcome == MissingBoth ==>
                marked == old(marked) + {EMAIL_LABEL, PASSWORD_LABEL}
                && messages == old(messages)[EMAIL_SPAN := ENTER_EMAIL][PASSWORD_SPAN := ENTER_PASSWORD]
      ensures outcome == MissingPassword ==>
                marked == old(marked) + {PASSWORD_LABEL} && messages == old(messages)[PASSWORD_SPAN := ENTER_PASSWORD]
      ensures outcome == MissingEmail ==>
                marked == old(marked) + {EMAIL_LABEL} && messages == old(messages)[EMAIL_SPAN := ENTER_EMAIL]
      ensures outcome == NoMatch ==>
                marked == old(marked) + {EMAIL_LABEL, PASSWORD_LABEL}
                && messages == old(messages)[CREDENTIALS_SPAN := WRONG_CREDENTIALS]
    {
      if email == "" && password == "" {
        ShowError(EMAIL_LABEL, EMAIL_SPAN, ENTER_EMAIL);
        ShowError(PASSWORD_LABEL, PASSWORD_SPAN, ENTER_PASSWORD);
        return MissingBoth;
      } else if password == "" {
        ShowError(PASSWORD_LABEL, PASSWORD_SPAN, ENTER_PASSWORD);
        return MissingPassword;
      } else if email == "" {
        ShowError(EMAIL_LABEL, EMAIL_SPAN, ENTER_EMAIL);
        return MissingEmail;
      }
      store.RefreshUsers(server);
      outcome := CheckCredentials(store.users, email, password);
      if outcome.LoggedIn? {
        ls.SetItem("emailToken", codec.encode(email));
        if rememberMe {
          ls.SetItem("rememberMe", "true");
          ls.SetItem("passwordToken", codec.encode(password));
        } else {
          ls.RemoveItem("passwordToken");
          ls.SetItem("rememberMe", "false");
        }
      } else {
        ShowError("", CREDENTIALS_SPAN, WRONG_CREDENTIALS);
      }
    }
  }

  /** `guestLogin`: when the guest account answers, the guest flag is set. */
  method GuestLogin(ls: LocalStorage, answered: bool)
    modifies ls
    ensures answered ==> ls.items == old(ls.items)["guestLoggedIn" := "true"]
    ensures !answered ==> ls.items == old(ls.items)
  {
    if answered {
      ls.SetItem("guestLoggedIn", "true");
    }
  }
}
